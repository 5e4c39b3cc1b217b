/**
 Renaming the `cpu` sections of merged checkpoints (util/checkpoint_aggregator.py): the index
 of the checkpoint, padded to a fixed width, goes behind every `cpu` of a section's name.
 */
module SectionNames {
  import opened Text

  predicate StartsCpu(s: string) {
    |s| >= 3 && s[0] == 'c' && s[1] == 'p' && s[2] == 'u'
  }

  predicate HasCpu(s: string) {
    s != "" && (StartsCpu(s) || HasCpu(s[1..]))
  }

  /** Puts `mark` behind every `cpu`. */
  function Insert(s: string, mark: string): string {
    if s == "" then ""
    else if StartsCpu(s) then "cpu" + mark + Insert(s[3..], mark)
    else [s[0]] + Insert(s[1..], mark)
  }

  /** Takes `w` characters out behind every `cpu`. */
  function Remove(s: string, w: nat): string {
    if s == "" then ""
    else if StartsCpu(s) && |s| >= 3 + w then "cpu" + Remove(s[3 + w..], w)
    else [s[0]] + Remove(s[1..], w)
  }

  /** The first `w` characters behind the first `cpu`. */
  function MarkOf(s: string, w: nat): string {
    if s == "" then ""
    else if StartsCpu(s) && |s| >= 3 + w then s[3..3 + w]
    else MarkOf(s[1..], w)
  }

  function Zeros(n: nat): string {
    seq(n, _ => '0')
  }

  /** `str(n).zfill(w)` */
  function Padded(n: nat, w: nat): string {
    if |Decimal(n)| >= w then Decimal(n) else Zeros(w - |Decimal(n)|) + Decimal(n)
  }

  /** The width of the largest index of `count` checkpoints. */
  function IndexWidth(count: nat): nat
    requires count >= 1
  {
    |Decimal(count - 1)|
  }

  function Renamed(name: string, i: nat, count: nat): string
    requires i < count
  {
    Insert(name, Padded(i, IndexWidth(count)))
  }

  // ---------- padding ----------

  lemma {:induction false} DecimalLonger(m: nat, n: nat)
    requires m <= n
    ensures |Decimal(m)| <= |Decimal(n)|
  {
    if n >= 10 && m >= 10 {
      DecimalLonger(m / 10, n / 10);
    }
  }

  lemma {:induction false} LeadingZeros(k: nat, s: string)
    requires AllDigits(s)
    ensures AllDigits(Zeros(k) + s) && Value(Zeros(k) + s) == Value(s)
  {
    if s == "" {
      assert Zeros(k) + s == Zeros(k);
      ZerosValue(k);
    } else {
      LeadingZeros(k, s[..|s| - 1]);
      assert (Zeros(k) + s)[..|Zeros(k) + s| - 1] == Zeros(k) + s[..|s| - 1];
    }
  }

  lemma {:induction false} ZerosValue(k: nat)
    ensures Value(Zeros(k)) == 0
  {
    if k > 0 {
      ZerosValue(k - 1);
      assert Zeros(k)[..k - 1] == Zeros(k - 1);
    }
  }

  /** A padded index has the common width, consists of digits, and keeps its value. */
  /** The width is exactly that of the longest index. */
  lemma {:induction false} IndexWidthIs(count: nat)
    requires count >= 1
    ensures forall j :: 0 <= j < count ==> |Decimal(j)| <= IndexWidth(count)
    ensures exists j :: 0 <= j < count && |Decimal(j)| == IndexWidth(count)
  {
    forall j | 0 <= j < count
      ensures |Decimal(j)| <= IndexWidth(count)
    {
      DecimalLonger(j, count - 1);
    }
    assert |Decimal(count - 1)| == IndexWidth(count);
  }

  lemma {:induction false} PaddedIndex(i: nat, count: nat)
    requires i < count
    ensures var p := Padded(i, IndexWidth(count));
            |p| == IndexWidth(count) && AllDigits(p) && Value(p) == i
  {
    DecimalLonger(i, count - 1);
    ValueOfDecimal(i);
    LeadingZeros(IndexWidth(count) - |Decimal(i)|, Decimal(i));
  }

  // ---------- inserting can be undone ----------

  /** The first three characters are never changed. */
  ghost predicate CpuAt(s: string, k: int) {
    0 <= k && k + 3 <= |s| && s[k..k + 3] == "cpu"
  }

  lemma {:induction false} StartsCpuIs(s: string)
    ensures StartsCpu(s) <==> CpuAt(s, 0)
  {
    if |s| >= 3 {
      assert s[0..3] == [s[0], s[1], s[2]];
    }
  }

  lemma {:induction false} CpuBehind(s: string, k: int)
    requires s != "" && k >= 1
    ensures CpuAt(s, k) <==> CpuAt(s[1..], k - 1)
  {
    if k + 3 <= |s| {
      assert s[1..][k - 1..k + 2] == s[k..k + 3];
    }
  }

  /** A processor section is one with `cpu` anywhere in its name. */
  lemma {:induction false} HasCpuIs(s: string)
    ensures HasCpu(s) <==> exists k :: CpuAt(s, k)
  {
    if s != "" {
      StartsCpuIs(s);
      HasCpuIs(s[1..]);
      if k :| CpuAt(s[1..], k) {
        CpuBehind(s, k + 1);
        assert CpuAt(s, k + 1);
      }
      if k :| CpuAt(s, k) && k >= 1 {
        CpuBehind(s, k);
      }
    }
  }

  /** The mark goes right behind the first `cpu`, and then behind those that follow. */
  lemma {:induction false} InsertAtFirst(s: string, mark: string, k: nat)
    requires CpuAt(s, k) && forall j :: 0 <= j < k ==> !CpuAt(s, j)
    ensures Insert(s, mark) == s[..k + 3] + mark + Insert(s[k + 3..], mark)
  {
    StartsCpuIs(s);
    if k == 0 {
      assert s[..3] == s[0..3] == "cpu";
    } else {
      CpuBehind(s, k);
      forall j | 0 <= j < k - 1
        ensures !CpuAt(s[1..], j)
      {
        CpuBehind(s, j + 1);
      }
      InsertAtFirst(s[1..], mark, k - 1);
      assert s[1..][k + 2..] == s[k + 3..];
      PutBack(s, k + 2, mark, Insert(s[k + 3..], mark));
    }
  }

  lemma {:induction false} PutBack<T>(s: seq<T>, k: nat, mark: seq<T>, tail: seq<T>)
    requires k < |s|
    ensures [s[0]] + (s[1..][..k] + mark + tail) == s[..k + 1] + mark + tail
  {
    assert [s[0]] + s[1..][..k] == s[..k + 1];
  }

  /** A name without `cpu` stays as it is. */
  lemma {:induction false} InsertNowhere(s: string, mark: string)
    requires !HasCpu(s)
    ensures Insert(s, mark) == s
  {
    if s != "" {
      InsertNowhere(s[1..], mark);
    }
  }

  lemma {:induction false} InsertKeepsHead(s: string, mark: string, k: nat)
    requires k <= 3 && k <= |s|
    ensures |Insert(s, mark)| >= k && Insert(s, mark)[..k] == s[..k]
  {
    if s != "" && !StartsCpu(s) && k > 0 {
      InsertKeepsHead(s[1..], mark, k - 1);
      assert s[..k] == [s[0]] + s[1..][..k - 1];
    }
  }

  lemma {:induction false} InsertLength(s: string, mark: string)
    ensures |Insert(s, mark)| >= |s|
  {
    if s != "" {
      InsertLength(if StartsCpu(s) then s[3..] else s[1..], mark);
    }
  }

  /** Inserting makes no new `cpu` and breaks none. */
  lemma {:induction false} InsertStarts(s: string, mark: string)
    requires s != "" && AllDigits(mark)
    ensures StartsCpu(Insert(s, mark)) <==> StartsCpu(s)
  {
    if |s| >= 3 {
      InsertKeepsHead(s, mark, 3);
      assert Insert(s, mark)[0] == Insert(s, mark)[..3][0] && Insert(s, mark)[1] == Insert(s, mark)[..3][1]
             && Insert(s, mark)[2] == Insert(s, mark)[..3][2];
    } else {
      ShortUnchanged(s, mark);
    }
  }

  lemma {:induction false} ShortUnchanged(s: string, mark: string)
    requires |s| < 3
    ensures Insert(s, mark) == s
  {
    if s != "" {
      ShortUnchanged(s[1..], mark);
    }
  }

  lemma {:induction false} RemoveInsert(s: string, mark: string)
    requires AllDigits(mark)
    ensures Remove(Insert(s, mark), |mark|) == s
  {
    if s != "" {
      var t := Insert(s, mark);
      InsertStarts(s, mark);
      InsertLength(s, mark);
      if StartsCpu(s) {
        RemoveInsert(s[3..], mark);
        assert t[3 + |mark|..] == Insert(s[3..], mark);
      } else {
        RemoveInsert(s[1..], mark);
        assert t[1..] == Insert(s[1..], mark);
      }
    }
  }

  lemma {:induction false} MarkOfInsert(s: string, mark: string)
    requires AllDigits(mark) && HasCpu(s)
    ensures MarkOf(Insert(s, mark), |mark|) == mark
  {
    var t := Insert(s, mark);
    InsertStarts(s, mark);
    if StartsCpu(s) {
      assert t[3..3 + |mark|] == mark;
    } else {
      MarkOfInsert(s[1..], mark);
      assert t[1..] == Insert(s[1..], mark);
    }
  }

  lemma {:induction false} InsertHasCpu(s: string, mark: string)
    requires AllDigits(mark) && HasCpu(s)
    ensures HasCpu(Insert(s, mark))
  {
    InsertStarts(s, mark);
    if !StartsCpu(s) {
      InsertHasCpu(s[1..], mark);
      assert Insert(s, mark)[1..] == Insert(s[1..], mark);
    }
  }

  /** Renamed sections are told apart by checkpoint and by name: the renaming is injective in both. */
  lemma {:induction false} RenamedInjective(s: string, i: nat, t: string, j: nat, count: nat)
    requires i < count && j < count && HasCpu(s)
    requires Renamed(s, i, count) == Renamed(t, j, count)
    ensures s == t && i == j
  {
    PaddedIndex(i, count);
    PaddedIndex(j, count);
    RemoveInsert(s, Padded(i, IndexWidth(count)));
    RemoveInsert(t, Padded(j, IndexWidth(count)));
    MarkOfInsert(s, Padded(i, IndexWidth(count)));
    MarkOfInsert(t, Padded(j, IndexWidth(count)));
  }

  /** A renamed section still has `cpu` in its name, so it never collides with an unrenamed one. */
  lemma {:induction false} RenamedHasCpu(s: string, i: nat, count: nat)
    requires i < count && HasCpu(s)
    ensures HasCpu(Renamed(s, i, count))
  {
    PaddedIndex(i, count);
    InsertHasCpu(s, Padded(i, IndexWidth(count)));
  }
}
