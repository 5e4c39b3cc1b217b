/** Stable sorting by an integer key, as Python's `list.sort(key=...)` does it. */
module StableSort {

  function Insert<T>(key: T -> int, s: seq<T>, x: T): seq<T> {
    if s == [] || key(s[|s| - 1]) <= key(x) then s + [x]
    else Insert(key, s[..|s| - 1], x) + [s[|s| - 1]]
  }

  function Sort<T>(key: T -> int, s: seq<T>): seq<T> {
    if s == [] then [] else Insert(key, Sort(key, s[..|s| - 1]), s[|s| - 1])
  }

  predicate Sorted<T>(key: T -> int, s: seq<T>) {
    forall i, j :: 0 <= i < j < |s| ==> key(s[i]) <= key(s[j])
  }

  /** The entries with key `n`, in order. */
  function WithKey<T>(key: T -> int, s: seq<T>, n: int): seq<T> {
    if s == [] then [] else
      WithKey(key, s[..|s| - 1], n) + if key(s[|s| - 1]) == n then [s[|s| - 1]] else []
  }

  /** `r` is `s` with `x` put behind the last entry that is not larger. */
  ghost predicate Inserted<T(!new)>(key: T -> int, s: seq<T>, x: T, k: nat, r: seq<T>) {
    && k <= |s| && r == s[..k] + [x] + s[k..]
    && (k > 0 ==> key(s[k - 1]) <= key(x))
    && forall i :: k <= i < |s| ==> key(s[i]) > key(x)
  }

  lemma {:induction false} InsertAt<T(!new)>(key: T -> int, s: seq<T>, x: T) returns (k: nat)
    ensures Inserted(key, s, x, k, Insert(key, s, x))
  {
    if s == [] || key(s[|s| - 1]) <= key(x) {
      k := |s|;
    } else {
      var front := s[..|s| - 1];
      k := InsertAt(key, front, x);
      assert front[..k] == s[..k] && front[k..] + [s[|s| - 1]] == s[k..];
    }
  }

  lemma {:induction false} InsertedSorted<T(!new)>(key: T -> int, s: seq<T>, x: T, k: nat, r: seq<T>)
    requires Sorted(key, s) && Inserted(key, s, x, k, r)
    ensures Sorted(key, r)
  {
    assert forall i :: 0 <= i < k ==> r[i] == s[i] && key(s[i]) <= key(x);
    assert forall i :: k < i < |r| ==> r[i] == s[i - 1] && key(s[i - 1]) > key(x);
  }

  lemma {:induction false} InsertedPermutes<T(!new)>(key: T -> int, s: seq<T>, x: T, k: nat, r: seq<T>)
    requires Inserted(key, s, x, k, r)
    ensures multiset(r) == multiset(s) + multiset{x}
  {
    assert s == s[..k] + s[k..];
  }

  lemma {:induction false} WithKeyConcat<T>(key: T -> int, s: seq<T>, t: seq<T>, n: int)
    ensures WithKey(key, s + t, n) == WithKey(key, s, n) + WithKey(key, t, n)
  {
    if t == [] {
      assert s + t == s;
    } else {
      var front := t[..|t| - 1];
      assert (s + t)[..|s + t| - 1] == s + front;
      WithKeyConcat(key, s, front, n);
    }
  }

  lemma {:induction false} WithKeyMember<T(!new)>(key: T -> int, s: seq<T>, n: int)
    ensures forall x :: x in WithKey(key, s, n) <==> x in s && key(x) == n
  {
    if s != [] {
      WithKeyMember(key, s[..|s| - 1], n);
      assert s == s[..|s| - 1] + [s[|s| - 1]];
    }
  }

  lemma {:induction false} NoSuchKey<T>(key: T -> int, s: seq<T>, n: int)
    requires forall i :: 0 <= i < |s| ==> key(s[i]) != n
    ensures WithKey(key, s, n) == []
  {
    if s != [] {
      NoSuchKey(key, s[..|s| - 1], n);
    }
  }

  lemma {:induction false} InsertedKeepsKeys<T(!new)>(key: T -> int, s: seq<T>, x: T, k: nat, r: seq<T>, n: int)
    requires Inserted(key, s, x, k, r)
    ensures WithKey(key, r, n) == WithKey(key, s, n) + WithKey(key, [x], n)
  {
    var a, b := s[..k], s[k..];
    calc {
      WithKey(key, r, n);
      { WithKeyConcat(key, a + [x], b, n); WithKeyConcat(key, a, [x], n); }
      WithKey(key, a, n) + WithKey(key, [x], n) + WithKey(key, b, n);
      { if n == key(x) { NoSuchKey(key, b, n); } else { NoSuchKey(key, [x], n); } }
      WithKey(key, a, n) + WithKey(key, b, n) + WithKey(key, [x], n);
      { WithKeyConcat(key, a, b, n); assert s == a + b; }
      WithKey(key, s, n) + WithKey(key, [x], n);
    }
  }

  /** The sort is a stable sort: ordered, a permutation, and each key keeps its order of arrival. */
  lemma {:induction false} SortIsStable<T(!new)>(key: T -> int, s: seq<T>)
    ensures Sorted(key, Sort(key, s)) && multiset(Sort(key, s)) == multiset(s)
    ensures forall n :: WithKey(key, Sort(key, s), n) == WithKey(key, s, n)
  {
    if s != [] {
      var front, last := s[..|s| - 1], s[|s| - 1];
      assert s == front + [last];
      SortIsStable(key, front);
      var t := Sort(key, front);
      var k := InsertAt(key, t, last);
      InsertedSorted(key, t, last, k, Sort(key, s));
      InsertedPermutes(key, t, last, k, Sort(key, s));
      forall n
        ensures WithKey(key, Sort(key, s), n) == WithKey(key, s, n)
      {
        InsertedKeepsKeys(key, t, last, k, Sort(key, s), n);
        WithKeyConcat(key, front, [last], n);
      }
    }
  }

  lemma {:induction false} SortPermutes<T(!new)>(key: T -> int, s: seq<T>)
    ensures multiset(Sort(key, s)) == multiset(s)
  {
    SortIsStable(key, s);
  }

  lemma {:induction false} LargestKey<T(!new)>(key: T -> int, s: seq<T>, t: seq<T>)
    requires Sorted(key, t) && s != [] && forall n :: WithKey(key, s, n) == WithKey(key, t, n)
    ensures t != [] && key(s[|s| - 1]) <= key(t[|t| - 1])
  {
    var x := s[|s| - 1];
    assert x in WithKey(key, s, key(x));
    WithKeyMember(key, t, key(x));
  }

  lemma {:induction false} LastOfKey<T>(key: T -> int, s: seq<T>)
    requires s != []
    ensures var own := WithKey(key, s, key(s[|s| - 1]));
            own != [] && own[|own| - 1] == s[|s| - 1]
  {
  }

  lemma {:induction false} SameLast<T(!new)>(key: T -> int, s: seq<T>, t: seq<T>)
    requires Sorted(key, s) && Sorted(key, t) && forall n :: WithKey(key, s, n) == WithKey(key, t, n)
    requires s != []
    ensures t != [] && s[|s| - 1] == t[|t| - 1]
  {
    LargestKey(key, s, t);
    LargestKey(key, t, s);
    var n := key(s[|s| - 1]);
    LastOfKey(key, s);
    LastOfKey(key, t);
  }

  /** There is only one stable sort, so `Sort` is what any stable sort computes. */
  lemma {:induction false} StableSortUnique<T(!new)>(key: T -> int, s: seq<T>, t: seq<T>)
    requires Sorted(key, s) && Sorted(key, t) && forall n :: WithKey(key, s, n) == WithKey(key, t, n)
    ensures s == t
    decreases |s| + |t|
  {
    if s != [] {
      SameLast(key, s, t);
      var s', t', x := s[..|s| - 1], t[..|t| - 1], s[|s| - 1];
      assert s == s' + [x] && t == t' + [x];
      forall n
        ensures WithKey(key, s', n) == WithKey(key, t', n)
      {
        var tail := if key(x) == n then [x] else [];
        assert WithKey(key, s, n) == WithKey(key, s', n) + tail && WithKey(key, t, n) == WithKey(key, t', n) + tail;
        assert WithKey(key, s', n) == WithKey(key, s, n)[..|WithKey(key, s, n)| - |tail|];
        assert WithKey(key, t', n) == WithKey(key, t, n)[..|WithKey(key, t, n)| - |tail|];
      }
      StableSortUnique(key, s', t');
    } else if t != [] {
      SameLast(key, t, s);
    }
  }

  /** A sorted list is left as it is. */
  lemma {:induction false} SortSorted<T(!new)>(key: T -> int, s: seq<T>)
    requires Sorted(key, s)
    ensures Sort(key, s) == s
  {
    SortIsStable(key, s);
    StableSortUnique(key, Sort(key, s), s);
  }

  /** An entry not smaller than the ones in front of a list goes into the list itself. */
  lemma {:induction false} InsertBehind<T(!new)>(key: T -> int, a: seq<T>, b: seq<T>, x: T)
    requires forall i :: 0 <= i < |a| ==> key(a[i]) <= key(x)
    ensures Insert(key, a + b, x) == a + Insert(key, b, x)
  {
    if b == [] {
      assert a + b == a;
    } else if key(b[|b| - 1]) <= key(x) {
      assert a + b + [x] == a + (b + [x]);
    } else {
      InsertBehind(key, a, b[..|b| - 1], x);
      assert (a + b)[..|a + b| - 1] == a + b[..|b| - 1];
    }
  }

  // ---------- filtering ----------

  lemma {:induction false} ConcatAssoc<T>(a: seq<T>, b: seq<T>, c: seq<T>)
    ensures a + b + c == a + (b + c)
  {
  }

  function Filter<T>(p: T -> bool, s: seq<T>): seq<T> {
    if s == [] then [] else
      Filter(p, s[..|s| - 1]) + if p(s[|s| - 1]) then [s[|s| - 1]] else []
  }

  lemma {:induction false} FilterConcat<T>(p: T -> bool, s: seq<T>, t: seq<T>)
    ensures Filter(p, s + t) == Filter(p, s) + Filter(p, t)
  {
    if t == [] {
      assert s + t == s;
    } else {
      assert (s + t)[..|s + t| - 1] == s + t[..|t| - 1];
      FilterConcat(p, s, t[..|t| - 1]);
    }
  }

  lemma {:induction false} FilterOneMore<T>(p: T -> bool, s: seq<T>, x: T)
    ensures Filter(p, s + [x]) == if p(x) then Filter(p, s) + [x] else Filter(p, s)
  {
    assert (s + [x])[..|s|] == s;
  }

  lemma {:induction false} FilterNone<T>(p: T -> bool, s: seq<T>)
    requires forall i :: 0 <= i < |s| ==> !p(s[i])
    ensures Filter(p, s) == []
  {
    if s != [] {
      FilterNone(p, s[..|s| - 1]);
    }
  }

  lemma {:induction false} FilterSorted<T(!new)>(key: T -> int, p: T -> bool, s: seq<T>)
    requires Sorted(key, s)
    ensures Sorted(key, Filter(p, s)) && forall x :: x in Filter(p, s) ==> x in s
  {
    if s != [] {
      FilterSorted(key, p, s[..|s| - 1]);
      assert forall x :: x in Filter(p, s[..|s| - 1]) ==> key(x) <= key(s[|s| - 1]);
    }
  }

  lemma {:induction false} FilterWithKey<T>(key: T -> int, p: T -> bool, s: seq<T>, n: int)
    ensures WithKey(key, Filter(p, s), n) == Filter(p, WithKey(key, s, n))
  {
    if s != [] {
      var front, x := s[..|s| - 1], s[|s| - 1];
      FilterWithKey(key, p, front, n);
      var kept, own := if p(x) then [x] else [], if key(x) == n then [x] else [];
      WithKeyConcat(key, Filter(p, front), kept, n);
      FilterConcat(p, WithKey(key, front, n), own);
    }
  }

  /** Selecting from a stable sort is the stable sort of the selection. */
  lemma {:induction false} FilterOfSort<T(!new)>(key: T -> int, p: T -> bool, s: seq<T>)
    ensures Filter(p, Sort(key, s)) == Sort(key, Filter(p, s))
  {
    SortIsStable(key, s);
    SortIsStable(key, Filter(p, s));
    FilterSorted(key, p, Sort(key, s));
    forall n
      ensures WithKey(key, Filter(p, Sort(key, s)), n) == WithKey(key, Sort(key, Filter(p, s)), n)
    {
      FilterWithKey(key, p, Sort(key, s), n);
      FilterWithKey(key, p, s, n);
    }
    StableSortUnique(key, Filter(p, Sort(key, s)), Sort(key, Filter(p, s)));
  }

  lemma {:induction false} FilterMultiset<T(!new)>(p: T -> bool, s: seq<T>, x: T)
    ensures multiset(Filter(p, s))[x] == if p(x) then multiset(s)[x] else 0
  {
    if s != [] {
      FilterMultiset(p, s[..|s| - 1], x);
      assert s == s[..|s| - 1] + [s[|s| - 1]];
    }
  }

  lemma {:induction false} FilterPermutation<T(!new)>(p: T -> bool, s: seq<T>, t: seq<T>)
    requires multiset(s) == multiset(t)
    ensures multiset(Filter(p, s)) == multiset(Filter(p, t))
  {
    forall x: T
      ensures multiset(Filter(p, s))[x] == multiset(Filter(p, t))[x]
    {
      FilterMultiset(p, s, x);
      FilterMultiset(p, t, x);
    }
  }
}
