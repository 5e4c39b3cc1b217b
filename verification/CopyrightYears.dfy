/**
 Lists of copyright years in util/find_copyrights.py: `datestr` writes a set of years as
 comma-separated years and ranges, `process_dates` reads such a list back.
 */
module CopyrightYears {
  import opened Wrappers
  import opened Text

  datatype Run = Run(first: nat, last: nat)

  ghost predicate Ascending(s: seq<nat>) {
    forall i, j :: 0 <= i < j < |s| ==> s[i] < s[j]
  }

  lemma {:induction false} Smallest(s: set<nat>) returns (m: nat)
    requires s != {}
    ensures m in s && forall y :: y in s ==> m <= y
  {
    var x :| x in s;
    if s == {x} {
      m := x;
    } else {
      var rest := s - {x};
      assert s == rest + {x};
      if rest == {} {
        m := x;
      } else {
        m := Smallest(rest);
        if x < m {
          m := x;
        }
      }
    }
  }

  predicate IsSmallest(s: set<nat>, m: nat) {
    m in s && forall y :: y in s ==> m <= y
  }

  /** The years of a set, sorted. */
  function Sorted(s: set<nat>): (r: seq<nat>)
    ensures Ascending(r) && forall y :: y in r <==> y in s
  {
    if s == {} then [] else
      assert exists m :: IsSmallest(s, m) by {
        var m := Smallest(s);
        assert IsSmallest(s, m);
      }
      var m :| m in s && IsSmallest(s, m);
      [m] + Sorted(s - {m})
  }

  // ---------- runs of consecutive years ----------

  /** The runs of a list whose current run reaches from `first` to `second`. */
  function RunsFrom(first: nat, second: nat, rest: seq<nat>): (runs: seq<Run>)
    ensures |runs| >= 1
    decreases |rest|
  {
    if rest == [] then [Run(first, second)]
    else if rest[0] == second + 1 then RunsFrom(first, rest[0], rest[1..])
    else [Run(first, second)] + RunsFrom(rest[0], rest[0], rest[1..])
  }

  function RunText(r: Run): string {
    if r.first == r.last then Decimal(r.first) else Decimal(r.first) + "-" + Decimal(r.last)
  }

  function RunTexts(runs: seq<Run>): seq<string> {
    seq(|runs|, i requires 0 <= i < |runs| => RunText(runs[i]))
  }

  ghost predicate InRun(r: Run, y: int) {
    r.first <= y <= r.last
  }

  ghost predicate Covered(runs: seq<Run>, y: int) {
    exists k :: 0 <= k < |runs| && InRun(runs[k], y)
  }

  /** Ascending runs with a gap of at least one year between any two: maximal runs. */
  ghost predicate Maximal(runs: seq<Run>) {
    && (forall k :: 0 <= k < |runs| ==> runs[k].first <= runs[k].last)
    && (forall k, l :: 0 <= k < l < |runs| ==> runs[k].last + 1 < runs[l].first)
  }

  /** The runs cover exactly the years from `first` to `second` and those of `rest`, and are maximal. */
  lemma {:induction false} RunsFromProperties(first: nat, second: nat, rest: seq<nat>)
    requires first <= second && Ascending([second] + rest)
    ensures var runs := RunsFrom(first, second, rest);
            && Maximal(runs) && |runs| >= 1 && runs[0].first == first
            && forall y :: Covered(runs, y) <==> first <= y <= second || y in rest
    decreases |rest|
  {
    var runs := RunsFrom(first, second, rest);
    if rest == [] {
      assert forall y :: first <= y <= second ==> InRun(runs[0], y);
    } else {
      var next := rest[0];
      assert ([second] + rest)[0] < ([second] + rest)[1] == next;
      assert Ascending([next] + rest[1..]) by {
        assert [next] + rest[1..] == ([second] + rest)[1..];
      }
      assert rest == [next] + rest[1..];
      if next == second + 1 {
        RunsFromProperties(first, next, rest[1..]);
      } else {
        var more := RunsFrom(next, next, rest[1..]);
        RunsFromProperties(next, next, rest[1..]);
        CoveredCons(Run(first, second), more);
        MaximalCons(Run(first, second), more);
      }
    }
  }

  lemma {:induction false} MaximalCons(r: Run, runs: seq<Run>)
    requires |runs| >= 1 && Maximal(runs) && r.first <= r.last && r.last + 1 < runs[0].first
    ensures Maximal([r] + runs)
  {
    var all := [r] + runs;
    forall k, l | 0 <= k < l < |all|
      ensures all[k].last + 1 < all[l].first
    {
      assert all[l] == runs[l - 1];
      if k == 0 {
        assert l == 1 || runs[0].last + 1 < runs[l - 1].first;
      } else {
        assert all[k] == runs[k - 1];
      }
    }
  }

  lemma {:induction false} CoveredCons(r: Run, runs: seq<Run>)
    ensures forall y :: Covered([r] + runs, y) <==> InRun(r, y) || Covered(runs, y)
  {
    forall y
      ensures Covered([r] + runs, y) <==> InRun(r, y) || Covered(runs, y)
    {
      var all := [r] + runs;
      if InRun(r, y) {
        assert InRun(all[0], y);
      }
      if k :| 0 <= k < |runs| && InRun(runs[k], y) {
        assert InRun(all[k + 1], y);
      }
      if k :| 0 <= k < |all| && InRun(all[k], y) {
        assert k > 0 ==> all[k] == runs[k - 1];
      }
    }
  }

  lemma {:induction false} SortedNonEmpty(dates: set<nat>)
    requires dates != {}
    ensures Sorted(dates) != []
  {
    var y :| y in dates;
    assert y in Sorted(dates);
  }

  /** The runs of a set of years. */
  function Runs(dates: set<nat>): (runs: seq<Run>)
    requires dates != {}
    ensures |runs| >= 1
  {
    SortedNonEmpty(dates);
    var sorted := Sorted(dates);
    RunsFrom(sorted[0], sorted[0], sorted[1..])
  }

  /** The runs written for a set are exactly its maximal runs of consecutive years, in ascending order. */
  lemma {:induction false} RunsAreMaximal(dates: set<nat>)
    requires dates != {}
    ensures |Runs(dates)| >= 1 && Maximal(Runs(dates))
    ensures forall y: int :: Covered(Runs(dates), y) <==> y >= 0 && y in dates
  {
    SortedNonEmpty(dates);
    var sorted := Sorted(dates);
    FirstAndRest(sorted);
    RunsFromProperties(sorted[0], sorted[0], sorted[1..]);
    forall y: int
      ensures Covered(Runs(dates), y) <==> y >= 0 && y in dates
    {
      assert y == sorted[0] || y in sorted[1..] <==> y >= 0 && y in sorted;
    }
  }

  lemma {:induction false} FirstAndRest(s: seq<nat>)
    requires s != []
    ensures [s[0]] + s[1..] == s
    ensures forall y: int :: y == s[0] || y in s[1..] <==> y >= 0 && y in s
  {
    assert [s[0]] + s[1..] == s;
    forall y: int
      ensures y == s[0] || y in s[1..] <==> y >= 0 && y in s
    {
      assert y in [s[0]] + s[1..] <==> y == s[0] || y in s[1..];
    }
  }

  lemma {:induction false} TextsOneMore(runs: seq<Run>, r: Run, more: seq<Run>)
    ensures RunTexts(runs) + [RunText(r)] == RunTexts(runs + [r])
    ensures runs + [r] + more == runs + ([r] + more)
  {
  }

  /** Goes through sorted years, closing a run whenever the next year does not continue it. */
  method WriteRuns(years: seq<nat>) returns (output: seq<string>)
    requires years != []
    ensures output == RunTexts(RunsFrom(years[0], years[0], years[1..]))
  {
    ghost var all := RunsFrom(years[0], years[0], years[1..]);
    ghost var runs: seq<Run> := [];
    output := [];
    var first, second, rest := years[0], years[0], years[1..];
    while rest != []
      invariant output == RunTexts(runs)
      invariant runs + RunsFrom(first, second, rest) == all
      decreases |rest|
    {
      var next := rest[0];
      rest := rest[1..];
      if next == second + 1 {
        second := next;
      } else {
        TextsOneMore(runs, Run(first, second), RunsFrom(next, next, rest));
        output := output + [RunText(Run(first, second))];
        runs := runs + [Run(first, second)];
        first, second := next, next;
      }
    }
    TextsOneMore(runs, Run(first, second), []);
    output := output + [RunText(Run(first, second))];
  }

  /** Writes a set of years; the empty set is an error. */
  method DateStr(dates: set<nat>) returns (text: Option<string>)
    ensures text == if dates == {} then None else Some(Join(RunTexts(Runs(dates)), ','))
  {
    if dates == {} {
      return None;
    }
    SortedNonEmpty(dates);
    var output := WriteRuns(Sorted(dates));
    text := Some(Join(output, ','));
  }

  // ---------- reading ----------

  /** Four digits, a dash with any whitespace around it, four digits, then anything. */
  function MatchRange(s: string): Option<Run> {
    if |s| < 4 || !AllDigits(s[..4]) then None else
      var t := StripLeft(s[4..]);
      if t == "" || t[0] != '-' then None else
        var u := StripLeft(t[1..]);
        if |u| < 4 || !AllDigits(u[..4]) then None else Some(Run(Value(s[..4]), Value(u[..4])))
  }

  function Interval(a: int, b: int): (s: set<int>)
    ensures forall y :: y in s <==> a <= y <= b
    decreases if b < a then 0 else b - a + 1
  {
    if b < a then {} else Interval(a, b - 1) + {b}
  }

  /** The years one item of the list stands for; an item that is no number is passed over. */
  function YearsOf(item: string): set<int> {
    var date := Strip(item);
    var range := MatchRange(date);
    if range.Some? then Interval(range.value.first, range.value.last)
    else if ParseInt(date).Some? then {ParseInt(date).value}
    else {}
  }

  function AllYears(items: seq<string>): set<int> {
    if items == [] then {} else AllYears(items[..|items| - 1]) + YearsOf(items[|items| - 1])
  }

  method AddRange(years: set<int>, first: int, last: int) returns (all: set<int>)
    ensures all == years + Interval(first, last)
  {
    all := years;
    if first <= last {
      for y := first to last + 1
        invariant all == years + Interval(first, y - 1)
      {
        all := all + {y};
      }
    }
  }

  method ProcessDates(text: string) returns (years: set<int>)
    ensures years == AllYears(Split(text, ','))
  {
    var items := Split(text, ',');
    years := {};
    for i := 0 to |items|
      invariant years == AllYears(items[..i])
    {
      assert items[..i + 1][..i] == items[..i];
      var date := Strip(items[i]);
      var range := MatchRange(date);
      if range.Some? {
        years := AddRange(years, range.value.first, range.value.last);
      } else if ParseInt(date).Some? {
        years := years + {ParseInt(date).value};
      }
    }
    assert items[..|items|] == items;
  }

  // ---------- reading what was written ----------

  ghost predicate FourDigits(n: nat) {
    1000 <= n <= 9999
  }

  /** A run is legible when it is a single year or both its ends have four digits. */
  ghost predicate Legible(r: Run) {
    r.first == r.last || (FourDigits(r.first) && FourDigits(r.last))
  }

  lemma {:induction false} DecimalLength(n: nat, bound: nat, k: nat)
    requires k >= 1 && bound == Power10(k)
    ensures |Decimal(n)| <= k <==> n < bound
  {
    if k == 1 {
      assert Power10(1) == 10 * Power10(0) == 10;
    } else if n >= 10 {
      DecimalLength(n / 10, Power10(k - 1), k - 1);
    } else {
      PowerAtLeast(k);
    }
  }

  function Power10(k: nat): nat {
    if k == 0 then 1 else 10 * Power10(k - 1)
  }

  lemma {:induction false} PowerAtLeast(k: nat)
    requires k >= 1
    ensures Power10(k) >= 10
  {
    if k > 1 {
      PowerAtLeast(k - 1);
    }
  }

  lemma {:induction false} FourDigitsIff(n: nat)
    ensures |Decimal(n)| == 4 <==> FourDigits(n)
    ensures |Decimal(n)| < 4 <==> n < 1000
  {
    assert Power10(1) == 10 && Power10(2) == 100 && Power10(3) == 1000 && Power10(4) == 10000;
    DecimalLength(n, 1000, 3);
    DecimalLength(n, 10000, 4);
  }

  lemma {:induction false} SingleYear(n: nat)
    ensures YearsOf(Decimal(n)) == {n}
  {
    var s := Decimal(n);
    ParseDecimal(s);
    ValueOfDecimal(n);
    DigitsAreNoRange(s);
  }

  lemma {:induction false} DigitsAreNoRange(s: string)
    requires AllDigits(s)
    ensures MatchRange(s) == None
  {
    if |s| > 4 {
      assert s[4..][0] == s[4] && IsDigit(s[4]);
    } else if |s| == 4 {
      assert s[4..] == "";
    }
  }

  lemma {:induction false} RangeTight(a: nat, b: nat)
    ensures var s := Decimal(a) + "-" + Decimal(b);
            Strip(s) == s && ParseInt(s) == None
  {
    var x, y := Decimal(a), Decimal(b);
    var s := x + "-" + y;
    assert s[0] == x[0] && IsDigit(x[0]) && s[|s| - 1] == y[|y| - 1] && IsDigit(y[|y| - 1]);
    StripTight(s);
    assert s[|x|] == '-' && !AllDigits(s);
  }

  lemma {:induction false} PrefixValueBelow(s: string)
    requires AllDigits(s)
    ensures Value(s) < Power10(|s|)
  {
    if s != "" {
      PrefixValueBelow(s[..|s| - 1]);
    }
  }

  lemma {:induction false} MatchFour(x: string, y: string)
    requires AllDigits(x) && AllDigits(y) && |x| == 4 && |y| >= 4
    ensures MatchRange(x + "-" + y) == Some(Run(Value(x), Value(y[..4])))
  {
    var s, t := x + "-" + y, "-" + y;
    assert s[..4] == x && s[4..] == t && t[1..] == y;
    assert !IsSpace(t[0]) && IsDigit(y[0]);
    assert StripLeft(t) == t && StripLeft(y) == y;
  }

  lemma {:induction false} MatchNotFour(x: string, y: string)
    requires AllDigits(x) && |x| != 4
    ensures MatchRange(x + "-" + y) == None
  {
    var s := x + "-" + y;
    if |x| > 4 {
      assert s[4..][0] == x[4] && IsDigit(x[4]);
    } else if |s| >= 4 {
      assert s[..4][|x|] == '-';
    }
  }

  /** Where the range pattern finds a written range. */
  lemma {:induction false} MatchWritten(a: nat, b: nat)
    requires a < b
    ensures var s := Decimal(a) + "-" + Decimal(b);
            if FourDigits(a) then |Decimal(b)| >= 4 && MatchRange(s) == Some(Run(a, Value(Decimal(b)[..4])))
            else MatchRange(s) == None
  {
    FourDigitsIff(a);
    FourDigitsIff(b);
    if FourDigits(a) {
      MatchFour(Decimal(a), Decimal(b));
      ValueOfDecimal(a);
    } else {
      MatchNotFour(Decimal(a), Decimal(b));
    }
  }

  /** What is read back of a written range: all of it if both ends have four digits, otherwise not its end. */
  lemma {:induction false} RangeYears(a: nat, b: nat)
    requires a < b
    ensures var ys := YearsOf(Decimal(a) + "-" + Decimal(b));
            && (FourDigits(a) && FourDigits(b) ==> ys == Interval(a, b))
            && (!(FourDigits(a) && FourDigits(b)) ==> b !in ys && forall y :: y in ys ==> a <= y <= b)
  {
    RangeTight(a, b);
    MatchWritten(a, b);
    FourDigitsIff(b);
    if FourDigits(a) {
      var y := Decimal(b);
      PrefixValueBelow(y[..4]);
      assert Power10(1) == 10 && Power10(2) == 100 && Power10(3) == 1000 && Power10(4) == 10000;
      if FourDigits(b) {
        assert y[..4] == y;
        ValueOfDecimal(b);
      }
    }
  }

  /** A legible run is read back whole; of any other, the last year is lost. */
  lemma {:induction false} RunYears(r: Run)
    requires r.first <= r.last
    ensures forall y :: y in YearsOf(RunText(r)) ==> InRun(r, y)
    ensures Legible(r) ==> forall y :: InRun(r, y) ==> y in YearsOf(RunText(r))
    ensures !Legible(r) ==> r.last !in YearsOf(RunText(r))
  {
    if r.first == r.last {
      SingleYear(r.first);
    } else {
      RangeYears(r.first, r.last);
    }
  }

  lemma {:induction false} AllYearsMember(items: seq<string>, y: int)
    ensures y in AllYears(items) <==> exists k :: 0 <= k < |items| && y in YearsOf(items[k])
  {
    if items != [] {
      AllYearsMember(items[..|items| - 1], y);
      assert forall k :: 0 <= k < |items| - 1 ==> items[..|items| - 1][k] == items[k];
    }
  }

  lemma {:induction false} SplitRuns(runs: seq<Run>)
    requires |runs| >= 1
    ensures Split(Join(RunTexts(runs), ','), ',') == RunTexts(runs)
  {
    forall k | 0 <= k < |runs|
      ensures Free(RunTexts(runs)[k], ',')
    {
      assert AllDigits(Decimal(runs[k].first)) && AllDigits(Decimal(runs[k].last));
    }
    SplitJoin(RunTexts(runs), ',');
  }

  /** The years read back from written runs. */
  lemma {:induction false} YearsOfRuns(runs: seq<Run>, y: int)
    requires |runs| >= 1 && Maximal(runs)
    ensures AllLegible(runs) ==> (y in AllYears(RunTexts(runs)) <==> Covered(runs, y))
    ensures forall k :: 0 <= k < |runs| && !Legible(runs[k]) && y == runs[k].last ==> y !in AllYears(RunTexts(runs))
    ensures y in AllYears(RunTexts(runs)) ==> Covered(runs, y)
  {
    AllYearsMember(RunTexts(runs), y);
    forall k | 0 <= k < |runs|
      ensures y in YearsOf(RunTexts(runs)[k]) ==> InRun(runs[k], y)
      ensures Legible(runs[k]) && InRun(runs[k], y) ==> y in YearsOf(RunTexts(runs)[k])
      ensures !Legible(runs[k]) && y == runs[k].last ==> y !in YearsOf(RunTexts(runs)[k])
    {
      RunYears(runs[k]);
    }
    forall k, l | 0 <= k < |runs| && y == runs[k].last && 0 <= l < |runs| && InRun(runs[l], y)
      ensures l == k
    {
    }
  }

  /** Two consecutive years of the set both have four digits. */
  ghost predicate ConsecutiveLegible(dates: set<nat>) {
    forall y :: y in dates && y + 1 in dates ==> FourDigits(y) && FourDigits(y + 1)
  }

  /** Two consecutive years lie in one run. */
  lemma {:induction false} SameRun(runs: seq<Run>, y: int) returns (k: nat)
    requires Maximal(runs) && Covered(runs, y) && Covered(runs, y + 1)
    ensures k < |runs| && InRun(runs[k], y) && InRun(runs[k], y + 1)
  {
    k :| 0 <= k < |runs| && InRun(runs[k], y);
    var l :| 0 <= l < |runs| && InRun(runs[l], y + 1);
  }

  /** A run with illegible ends has two consecutive years, at its end or its start, that are not both legible. */
  lemma {:induction false} IllegibleRun(dates: set<nat>, k: nat)
    requires dates != {} && k < |Runs(dates)| && !Legible(Runs(dates)[k])
    ensures !ConsecutiveLegible(dates)
  {
    var runs := Runs(dates);
    var r := runs[k];
    RunsAreMaximal(dates);
    forall y: int | InRun(r, y)
      ensures y >= 0 && y in dates
    {
      assert Covered(runs, y);
    }
    assert InRun(r, r.first) && InRun(r, r.first + 1) && InRun(r, r.last - 1) && InRun(r, r.last);
    var y := r.last - 1;
    assert y + 1 in dates;
  }

  lemma {:induction false} LegibleRunsIff(dates: set<nat>)
    requires dates != {}
    ensures AllLegible(Runs(dates)) <==> ConsecutiveLegible(dates)
  {
    var runs := Runs(dates);
    if k :| 0 <= k < |runs| && !Legible(runs[k]) {
      IllegibleRun(dates, k);
    } else {
      RunsAreMaximal(dates);
      forall y | y in dates && y + 1 in dates
        ensures FourDigits(y) && FourDigits(y + 1)
      {
        assert Covered(runs, y) && Covered(runs, y + 1);
        var k := SameRun(runs, y);
        assert Legible(runs[k]);
      }
    }
  }

  ghost predicate AllLegible(runs: seq<Run>) {
    forall k :: 0 <= k < |runs| ==> Legible(runs[k])
  }

  /** The years read from the text of some runs. */
  function ReadBack(runs: seq<Run>): set<int>
    requires |runs| >= 1
  {
    AllYears(Split(Join(RunTexts(runs), ','), ','))
  }

  lemma {:induction false} ReadBackIff(runs: seq<Run>)
    requires |runs| >= 1 && Maximal(runs)
    ensures (forall y :: y in ReadBack(runs) <==> Covered(runs, y)) <==> AllLegible(runs)
  {
    SplitRuns(runs);
    if AllLegible(runs) {
      forall y
        ensures y in ReadBack(runs) <==> Covered(runs, y)
      {
        YearsOfRuns(runs, y);
      }
    } else {
      var k :| 0 <= k < |runs| && !Legible(runs[k]);
      YearsOfRuns(runs, runs[k].last);
      assert InRun(runs[k], runs[k].last);
      assert Covered(runs, runs[k].last) && runs[k].last !in ReadBack(runs);
    }
  }

  /**
   Reading back the text of a set of years gives the set exactly when any two consecutive years
   in it have four digits each; in particular for every set of four-digit years.
   */
  lemma {:induction false} YearsRoundTripIff(dates: set<nat>)
    requires dates != {}
    ensures (forall y: int :: y in ReadBack(Runs(dates)) <==> y >= 0 && y in dates) <==> ConsecutiveLegible(dates)
  {
    RunsAreMaximal(dates);
    ReadBackIff(Runs(dates));
    LegibleRunsIff(dates);
  }

  // ---------- reading other texts ----------

  /** Whitespace around an item of the list does not matter. */
  lemma {:induction false} SpacesAroundItem(a: string, item: string, b: string)
    requires AllSpaces(a) && AllSpaces(b)
    ensures YearsOf(a + item + b) == YearsOf(item)
  {
    StripAround(a, item, b);
  }

  /** A range: two numbers of four digits with a dash and any whitespace between them; what follows is passed over. */
  lemma {:induction false} SpacedRange(x: string, g: string, h: string, y: string, rest: string)
    requires |x| == |y| == 4 && AllDigits(x) && AllDigits(y) && AllSpaces(g) && AllSpaces(h)
    ensures MatchRange(x + (g + ("-" + (h + (y + rest))))) == Some(Run(Value(x), Value(y)))
  {
    var v := y + rest;
    var t := "-" + (h + v);
    var s := x + (g + t);
    assert s[..4] == x && s[4..] == g + t && t[1..] == h + v && v[..4] == y;
    StripLeftSpaces(g, t);
    StripLeftSpaces(h, v);
    assert IsDigit(v[0]) && StripLeft(v) == v && StripLeft(t) == t;
  }

  /** Such an item stands for all years from the first to the second. */
  lemma {:induction false} SpacedRangeYears(x: string, g: string, h: string, y: string)
    requires |x| == |y| == 4 && AllDigits(x) && AllDigits(y) && AllSpaces(g) && AllSpaces(h)
    ensures forall n :: n in YearsOf(x + (g + ("-" + (h + y)))) <==> Value(x) <= n <= Value(y)
  {
    var s := x + (g + ("-" + (h + y)));
    assert y + "" == y;
    SpacedRange(x, g, h, y, "");
    assert s[0] == x[0] && IsDigit(x[0]) && s[|s| - 1] == y[3] && IsDigit(y[3]);
    StripTight(s);
  }

  /** A single number stands for itself, and an item that is neither for nothing. */
  lemma {:induction false} OtherItems(item: string)
    requires MatchRange(Strip(item)).None?
    ensures YearsOf(item) == if ParseInt(Strip(item)).Some? then {ParseInt(Strip(item)).value} else {}
  {
  }
}
