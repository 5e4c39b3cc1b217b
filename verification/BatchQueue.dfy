/**
 A queue that is sorted and emptied in batches: entries are appended; when their number
 exceeds `high` the queue is sorted and its smallest entries are moved out until `low` are
 left.  This is the print queue of util/o3-pipeview.py, over any entries with an integer key.
 */
module BatchQueue {
  import opened StableSort

  datatype State<T> = State(queue: seq<T>, out: seq<T>)

  function Flush<T>(key: T -> int, b: State<T>, lower: nat): State<T> {
    var sorted := Sort(key, b.queue);
    if |sorted| <= lower then State(sorted, b.out)
    else State(sorted[|sorted| - lower..], b.out + sorted[..|sorted| - lower])
  }

  function Arrive<T>(key: T -> int, b: State<T>, x: T, low: nat, high: nat): State<T> {
    var b' := b.(queue := b.queue + [x]);
    if |b'.queue| > high then Flush(key, b', low) else b'
  }

  function Feed<T>(key: T -> int, arrivals: seq<T>, low: nat, high: nat): State<T> {
    if arrivals == [] then State([], [])
    else Arrive(key, Feed(key, arrivals[..|arrivals| - 1], low, high), arrivals[|arrivals| - 1], low, high)
  }

  /** Everything that has come out once the trace has ended and the queue has been emptied. */
  function Drained<T>(key: T -> int, arrivals: seq<T>, low: nat, high: nat): seq<T> {
    Flush(key, Feed(key, arrivals, low, high), 0).out
  }

  lemma {:induction false} FeedOneMore<T>(key: T -> int, arrivals: seq<T>, x: T, low: nat, high: nat)
    ensures Feed(key, arrivals + [x], low, high) == Arrive(key, Feed(key, arrivals, low, high), x, low, high)
  {
    assert (arrivals + [x])[..|arrivals|] == arrivals;
  }

  lemma {:induction false} TakeNone<T>(a: seq<T>, s: seq<T>)
    ensures a + s[..0] == a && s[0..] == s
  {
  }

  lemma {:induction false} TakeOneMore<T>(a: seq<T>, s: seq<T>, n: nat)
    requires n < |s|
    ensures a + s[..n] + [s[n]] == a + s[..n + 1]
    ensures s[n..][0] == s[n] && s[n..][1..] == s[n + 1..]
  {
  }

  // ---------- how far out of order a list is ----------

  function CountLarger<T>(key: T -> int, s: seq<T>, n: int): nat {
    if s == [] then 0 else
      CountLarger(key, s[..|s| - 1], n) + if key(s[|s| - 1]) > n then 1 else 0
  }

  /** No entry is preceded by more than `d` entries with a larger key. */
  ghost predicate BoundedDisorder<T(!new)>(key: T -> int, s: seq<T>, d: nat) {
    forall j :: 0 <= j < |s| ==> CountLarger(key, s[..j], key(s[j])) <= d
  }

  lemma {:induction false} CountConcat<T>(key: T -> int, s: seq<T>, t: seq<T>, n: int)
    ensures CountLarger(key, s + t, n) == CountLarger(key, s, n) + CountLarger(key, t, n)
  {
    if t == [] {
      assert s + t == s;
    } else {
      assert (s + t)[..|s + t| - 1] == s + t[..|t| - 1];
      CountConcat(key, s, t[..|t| - 1], n);
    }
  }

  lemma {:induction false} CountAll<T>(key: T -> int, s: seq<T>, n: int)
    requires forall i :: 0 <= i < |s| ==> key(s[i]) > n
    ensures CountLarger(key, s, n) == |s|
  {
    if s != [] {
      CountAll(key, s[..|s| - 1], n);
    }
  }

  lemma {:induction false} CountNone<T>(key: T -> int, s: seq<T>, n: int)
    requires forall i :: 0 <= i < |s| ==> key(s[i]) <= n
    ensures CountLarger(key, s, n) == 0
  {
    if s != [] {
      CountNone(key, s[..|s| - 1], n);
    }
  }

  lemma {:induction false} InsertedCount<T(!new)>(key: T -> int, s: seq<T>, x: T, k: nat, r: seq<T>, n: int)
    requires Inserted(key, s, x, k, r)
    ensures CountLarger(key, r, n) == CountLarger(key, s, n) + if key(x) > n then 1 else 0
  {
    var a, b := s[..k], s[k..];
    CountConcat(key, a + [x], b, n);
    CountConcat(key, a, [x], n);
    CountConcat(key, a, b, n);
    assert s == a + b;
    assert [x][..0] == [];
  }

  lemma {:induction false} CountSorted<T(!new)>(key: T -> int, s: seq<T>, n: int)
    ensures CountLarger(key, Sort(key, s), n) == CountLarger(key, s, n)
  {
    if s != [] {
      var t, x := Sort(key, s[..|s| - 1]), s[|s| - 1];
      CountSorted(key, s[..|s| - 1], n);
      var k := InsertAt(key, t, x);
      InsertedCount(key, t, x, k, Sort(key, s), n);
    }
  }

  lemma {:induction false} TailLarger<T(!new)>(key: T -> int, s: seq<T>, i: nat, n: int)
    requires Sorted(key, s) && i < |s| && key(s[i]) > n
    ensures CountLarger(key, s, n) >= |s| - i
  {
    assert s == s[..i] + s[i..];
    CountConcat(key, s[..i], s[i..], n);
    CountAll(key, s[i..], n);
  }

  // ---------- what every run keeps ----------

  /** Nothing is lost or invented, whatever the thresholds and the order of arrival. */
  lemma {:induction false} FeedConserves<T(!new)>(key: T -> int, arrivals: seq<T>, low: nat, high: nat)
    ensures var b := Feed(key, arrivals, low, high);
            multiset(b.out) + multiset(b.queue) == multiset(arrivals)
  {
    if arrivals != [] {
      var front, x := arrivals[..|arrivals| - 1], arrivals[|arrivals| - 1];
      FeedConserves(key, front, low, high);
      assert arrivals == front + [x];
      var b := Feed(key, front, low, high);
      FlushConserves(key, b.(queue := b.queue + [x]), low);
    }
  }

  lemma {:induction false} FlushConserves<T(!new)>(key: T -> int, b: State<T>, lower: nat)
    ensures var b' := Flush(key, b, lower);
            multiset(b'.out) + multiset(b'.queue) == multiset(b.out) + multiset(b.queue)
  {
    SortPermutes(key, b.queue);
    SplitConserves(b, Sort(key, b.queue), lower, Flush(key, b, lower));
  }

  lemma {:induction false} SplitConserves<T>(b: State<T>, sorted: seq<T>, lower: nat, b': State<T>)
    requires multiset(sorted) == multiset(b.queue)
    requires b' == if |sorted| <= lower then State(sorted, b.out)
                   else State(sorted[|sorted| - lower..], b.out + sorted[..|sorted| - lower])
    ensures multiset(b'.out) + multiset(b'.queue) == multiset(b.out) + multiset(b.queue)
  {
    if |sorted| > lower {
      assert sorted == sorted[..|sorted| - lower] + sorted[|sorted| - lower..];
    }
  }

  /** All arrivals come out, and the queue ends empty. */
  lemma {:induction false} DrainedConserves<T(!new)>(key: T -> int, arrivals: seq<T>, low: nat, high: nat)
    ensures multiset(Drained(key, arrivals, low, high)) == multiset(arrivals)
    ensures Flush(key, Feed(key, arrivals, low, high), 0).queue == []
  {
    FeedConserves(key, arrivals, low, high);
    FlushConserves(key, Feed(key, arrivals, low, high), 0);
  }

  /** Once something has come out, at least `low` entries stay behind as a reserve. */
  lemma {:induction false} Reserve<T(!new)>(key: T -> int, arrivals: seq<T>, low: nat, high: nat)
    ensures var b := Feed(key, arrivals, low, high);
            b.out != [] ==> |b.queue| >= low
  {
    if arrivals != [] {
      Reserve(key, arrivals[..|arrivals| - 1], low, high);
      var b := Feed(key, arrivals[..|arrivals| - 1], low, high);
      SortLength(key, b.queue + [arrivals[|arrivals| - 1]]);
    }
  }

  lemma {:induction false} SortLength<T(!new)>(key: T -> int, s: seq<T>)
    ensures |Sort(key, s)| == |s|
  {
    SortIsStable(key, s);
    assert |multiset(Sort(key, s))| == |multiset(s)|;
  }

  /** Flushing keeps the sorted view: what is out, followed by the sorted queue. */
  lemma {:induction false} FlushKeepsView<T(!new)>(key: T -> int, b: State<T>, lower: nat)
    ensures var b' := Flush(key, b, lower);
            b'.out + Sort(key, b'.queue) == b.out + Sort(key, b.queue)
  {
    var sorted := Sort(key, b.queue);
    var b' := Flush(key, b, lower);
    SortIsStable(key, b.queue);
    SortSorted(key, b'.queue);
    if |sorted| > lower {
      SplitConcat(b.out, sorted, |sorted| - lower);
    }
  }

  lemma {:induction false} SplitConcat<T>(a: seq<T>, s: seq<T>, k: nat)
    requires k <= |s|
    ensures a + s[..k] + s[k..] == a + s
  {
    assert s == s[..k] + s[k..];
  }

  /** Nothing already out is larger than an arrival with at most `low` larger predecessors. */
  lemma {:induction false} NothingOutLarger<T(!new)>(key: T -> int, arrivals: seq<T>, x: T, low: nat, high: nat)
    requires var b := Feed(key, arrivals, low, high);
             b.out + Sort(key, b.queue) == Sort(key, arrivals)
    requires CountLarger(key, arrivals, key(x)) <= low
    ensures forall i :: 0 <= i < |Feed(key, arrivals, low, high).out| ==>
              key(Feed(key, arrivals, low, high).out[i]) <= key(x)
  {
    var b := Feed(key, arrivals, low, high);
    var sorted := Sort(key, arrivals);
    forall i | 0 <= i < |b.out|
      ensures key(b.out[i]) <= key(x)
    {
      assert b.out[i] == sorted[i];
      if key(sorted[i]) > key(x) {
        SortIsStable(key, arrivals);
        TailLarger(key, sorted, i, key(x));
        CountSorted(key, arrivals, key(x));
        Reserve(key, arrivals, low, high);
        SortLength(key, b.queue);
      }
    }
  }

  /** The sorted view of the whole run is the sort of the arrivals. */
  lemma {:induction false} FeedView<T(!new)>(key: T -> int, arrivals: seq<T>, low: nat, high: nat)
    requires BoundedDisorder(key, arrivals, low)
    ensures var b := Feed(key, arrivals, low, high);
            b.out + Sort(key, b.queue) == Sort(key, arrivals)
  {
    if arrivals != [] {
      var front, x := arrivals[..|arrivals| - 1], arrivals[|arrivals| - 1];
      forall j | 0 <= j < |front|
        ensures CountLarger(key, front[..j], key(front[j])) <= low
      {
        assert front[..j] == arrivals[..j];
      }
      FeedView(key, front, low, high);
      NothingOutLarger(key, front, x, low, high);
      var b := Feed(key, front, low, high);
      InsertBehind(key, b.out, Sort(key, b.queue), x);
      assert (b.queue + [x])[..|b.queue|] == b.queue;
      var b' := b.(queue := b.queue + [x]);
      FlushKeepsView(key, b', low);
    }
  }

  /**
   With no entry preceded by more than `low` larger ones, everything comes out in the order of
   one stable sort of the whole list of arrivals, however the batches fall.
   */
  lemma {:induction false} DrainedIsSort<T(!new)>(key: T -> int, arrivals: seq<T>, low: nat, high: nat)
    requires BoundedDisorder(key, arrivals, low)
    ensures Drained(key, arrivals, low, high) == Sort(key, arrivals)
  {
    FeedView(key, arrivals, low, high);
    var b := Feed(key, arrivals, low, high);
    assert Sort(key, b.queue)[..|Sort(key, b.queue)|] == Sort(key, b.queue);
  }

  // ---------- when the queue is emptied ----------

  /** Up to the higher threshold entries wait, in the order in which they arrived. */
  lemma {:induction false} WaitsBelowThreshold<T(!new)>(key: T -> int, arrivals: seq<T>, low: nat, high: nat)
    requires |arrivals| <= high
    ensures Feed(key, arrivals, low, high) == State(arrivals, [])
  {
    if arrivals != [] {
      var front, x := arrivals[..|arrivals| - 1], arrivals[|arrivals| - 1];
      WaitsBelowThreshold(key, front, low, high);
      ArrivalWaits(key, front, x, low, high);
      FeedOneMore(key, front, x, low, high);
      assert front + [x] == arrivals;
    }
  }

  lemma {:induction false} ArrivalWaits<T>(key: T -> int, front: seq<T>, x: T, low: nat, high: nat)
    requires |front| < high
    ensures Arrive(key, State(front, []), x, low, high) == State(front + [x], [])
  {
  }

  /** One arrival beyond the higher threshold cuts the queue to the lower one. */
  lemma {:induction false} QueueLength<T(!new)>(key: T -> int, arrivals: seq<T>, x: T, low: nat, high: nat)
    ensures var n := |Feed(key, arrivals, low, high).queue| + 1;
            |Feed(key, arrivals + [x], low, high).queue| == if n > high && n > low then low else n
  {
    FeedOneMore(key, arrivals, x, low, high);
    SortLength(key, Feed(key, arrivals, low, high).queue + [x]);
  }

  // ---------- the bound cannot be weakened ----------

  function Identity(n: int): int { n }

  function Evens(n: nat): (s: seq<int>) {
    seq(n, i => 2 * i)
  }

  lemma {:induction false} FeedEvens(n: nat, low: nat, high: nat)
    requires n <= low || n <= high
    ensures Feed(Identity, Evens(n), low, high) == State(Evens(n), [])
  {
    if n > 0 {
      FeedEvens(n - 1, low, high);
      EvensFront(n - 1);
      FeedOneMore(Identity, Evens(n - 1), 2 * (n - 1), low, high);
      if n > high {
        FlushNothing(Identity, Evens(n), low);
      }
    }
  }

  lemma {:induction false} FlushNothing<T(!new)>(key: T -> int, s: seq<T>, lower: nat)
    requires |s| <= lower && Sorted(key, s)
    ensures Flush(key, State(s, []), lower) == State(s, [])
  {
    SortSorted(key, s);
  }

  /** The first flush of entries that arrived in order. */
  lemma {:induction false} FirstFlush<T(!new)>(key: T -> int, front: seq<T>, x: T, low: nat, high: nat)
    requires |front| >= low && |front| >= high && Sorted(key, front + [x])
    requires Feed(key, front, low, high) == State(front, [])
    ensures Feed(key, front + [x], low, high).out == (front + [x])[..|front| + 1 - low]
  {
    FeedOneMore(key, front, x, low, high);
    ArrivalFlushes(key, front, x, low, high);
    FlushInOrder(key, front + [x], low);
  }

  lemma {:induction false} ArrivalFlushes<T>(key: T -> int, front: seq<T>, x: T, low: nat, high: nat)
    requires |front| >= high
    ensures Arrive(key, State(front, []), x, low, high) == Flush(key, State(front + [x], []), low)
  {
  }

  lemma {:induction false} FlushInOrder<T(!new)>(key: T -> int, s: seq<T>, lower: nat)
    requires |s| > lower && Sorted(key, s)
    ensures Flush(key, State(s, []), lower).out == s[..|s| - lower]
  {
    SortSorted(key, s);
  }

  lemma {:induction false} LateDisorder(low: nat, top: nat)
    requires low <= top
    ensures BoundedDisorder(Identity, Evens(top + 1) + [2 * (top - low) - 1], low + 1)
  {
    var m := top - low;
    var evens, x := Evens(top + 1), 2 * m - 1;
    var arrivals := evens + [x];
    forall j | 0 <= j < |arrivals|
      ensures CountLarger(Identity, arrivals[..j], Identity(arrivals[j])) <= low + 1
    {
      if j <= top {
        CountNone(Identity, arrivals[..j], arrivals[j]);
      } else {
        assert arrivals[..j] == evens;
        LateCount(low, top);
      }
    }
  }

  lemma {:induction false} LateCount(low: nat, top: nat)
    requires low <= top
    ensures CountLarger(Identity, Evens(top + 1), 2 * (top - low) - 1) == low + 1
  {
    var m := top - low;
    var evens, x := Evens(top + 1), 2 * m - 1;
    assert evens == evens[..m] + evens[m..];
    CountConcat(Identity, evens[..m], evens[m..], x);
    CountNone(Identity, evens[..m], x);
    CountAll(Identity, evens[m..], x);
  }

  /** What is out stays in front of everything that comes out later. */
  lemma {:induction false} OutIsPrefix<T(!new)>(key: T -> int, arrivals: seq<T>, x: T, low: nat, high: nat)
    ensures Feed(key, arrivals, low, high).out <= Drained(key, arrivals + [x], low, high)
  {
    var b := Feed(key, arrivals, low, high);
    FeedOneMore(key, arrivals, x, low, high);
    FlushKeepsOut(key, b.(queue := b.queue + [x]), low);
    FlushKeepsOut(key, Feed(key, arrivals + [x], low, high), 0);
  }

  lemma {:induction false} FlushKeepsOut<T>(key: T -> int, b: State<T>, lower: nat)
    ensures b.out <= Flush(key, b, lower).out
  {
  }

  lemma {:induction false} OutOfOrder<T(!new)>(key: T -> int, all: seq<T>, before: seq<T>, x: T)
    requires before <= all && before != [] && x in all
    requires x !in before && key(before[|before| - 1]) > key(x)
    ensures !Sorted(key, all)
  {
    var i :| 0 <= i < |all| && all[i] == x;
    assert forall j :: 0 <= j < |before| ==> all[j] == before[j] != x;
    assert key(all[|before| - 1]) > key(all[i]);
  }

  lemma {:induction false} ComesOut<T(!new)>(key: T -> int, s: seq<T>, x: T, low: nat, high: nat)
    ensures x in Drained(key, s + [x], low, high)
  {
    DrainedConserves(key, s + [x], low, high);
    SameMembers(s + [x], Drained(key, s + [x], low, high), x);
  }

  lemma {:induction false} SameMembers<T>(s: seq<T>, t: seq<T>, x: T)
    requires multiset(s) == multiset(t) && x in s
    ensures x in t
  {
    assert x in multiset(s);
  }

  /** An entry that arrives after something larger has come out breaks the order. */
  lemma {:induction false} LateBreaksOrder<T(!new)>(key: T -> int, s: seq<T>, x: T, low: nat, high: nat)
    requires var out := Feed(key, s, low, high).out;
             out != [] && x !in out && key(out[|out| - 1]) > key(x)
    ensures !Sorted(key, Drained(key, s + [x], low, high))
  {
    OutIsPrefix(key, s, x, low, high);
    ComesOut(key, s, x, low, high);
    OutOfOrder(key, Drained(key, s + [x], low, high), Feed(key, s, low, high).out, x);
  }

  /** One entry one place too late: the sort is broken. */
  lemma {:induction false} LateEntry(low: nat, high: nat) returns (arrivals: seq<int>)
    ensures BoundedDisorder(Identity, arrivals, low + 1)
    ensures !Sorted(Identity, Drained(Identity, arrivals, low, high))
  {
    var top := if low < high then high else low;
    LateDisorder(low, top);
    LateIsMisplaced(low, high, top);
    arrivals := Evens(top + 1) + [2 * (top - low) - 1];
  }

  lemma {:induction false} LateIsMisplaced(low: nat, high: nat, top: nat)
    requires top == if low < high then high else low
    ensures !Sorted(Identity, Drained(Identity, Evens(top + 1) + [2 * (top - low) - 1], low, high))
  {
    EvensFlushed(low, high, top);
    PrefixOfEvens(top + 1, top + 1 - low);
    LateBreaksOrder(Identity, Evens(top + 1), 2 * (top - low) - 1, low, high);
  }

  /** After one even number more than both thresholds, the smallest are out. */
  lemma {:induction false} EvensFlushed(low: nat, high: nat, top: nat)
    requires top == if low < high then high else low
    ensures Feed(Identity, Evens(top + 1), low, high).out == Evens(top + 1)[..top + 1 - low]
  {
    FeedEvens(top, low, high);
    EvensFront(top);
    FirstFlush(Identity, Evens(top), 2 * top, low, high);
  }

  lemma {:induction false} EvensFront(n: nat)
    ensures Evens(n) + [2 * n] == Evens(n + 1) && Sorted(Identity, Evens(n + 1))
  {
  }

  lemma {:induction false} PrefixOfEvens(n: nat, k: nat)
    requires 0 < k <= n
    ensures var out := Evens(n)[..k];
            out != [] && 2 * k - 3 !in out && Identity(out[|out| - 1]) > Identity(2 * k - 3)
  {
  }

  /** Exactly how much disorder the two thresholds absorb, over all arrivals. */
  lemma {:induction false} SortingGuaranteeIff(low: nat, high: nat, d: nat)
    ensures (forall arrivals :: BoundedDisorder(Identity, arrivals, d) ==> Sorted(Identity, Drained(Identity, arrivals, low, high)))
            <==> d <= low
  {
    if d <= low {
      forall arrivals | BoundedDisorder(Identity, arrivals, d)
        ensures Sorted(Identity, Drained(Identity, arrivals, low, high))
      {
        DrainedIsSort(Identity, arrivals, low, high);
        SortIsStable(Identity, arrivals);
      }
    } else {
      var arrivals := LateEntry(low, high);
      assert BoundedDisorder(Identity, arrivals, d);
    }
  }
}
