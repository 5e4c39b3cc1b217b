/**
 Starting late and stopping early lose nothing: for a trace in which each instruction's lines
 stand together, as the simulator writes them (src/cpu/o3/dyn_inst.cc), the pipeline viewer
 prints exactly the instructions of the requested range.
 */
module TraceRange {
  import opened StableSort
  import opened BatchQueue
  import opened PipeView

  /** One simulated instruction; a stage it did not reach has tick 0. */
  datatype Record = Record(
    sn: nat, fetch: nat, decode: nat, rename: nat, dispatch: nat, issue: nat, complete: nat,
    retire: nat, store: nat, pc: string, upc: string, disasm: string)

  function Tail(r: Record): seq<Line> {
    [StageLine(Decode, r.decode), StageLine(Rename, r.rename), StageLine(Dispatch, r.dispatch),
     StageLine(Issue, r.issue), StageLine(Complete, r.complete), RetireLine(r.retire, r.store)]
  }

  function Lines(r: Record): seq<Line> {
    [FetchLine(r.fetch, r.pc, r.upc, r.sn, r.disasm)] + Tail(r)
  }

  function Rendered(records: seq<Record>): seq<Line> {
    if records == [] then [] else Lines(records[0]) + Rendered(records[1..])
  }

  function WithoutNoise(lines: seq<Line>): seq<Line> {
    if lines == [] then []
    else if lines[0].Noise? then WithoutNoise(lines[1..])
    else [lines[0]] + WithoutNoise(lines[1..])
  }

  /** The instruction as the viewer shows it. */
  function Shown(o: Options, r: Record): Queued {
    var ticks := map[Fetch := r.fetch, Decode := r.decode, Rename := r.rename, Dispatch := r.dispatch,
                     Issue := r.issue, Complete := r.complete, Retire := r.retire];
    Inst(r.sn, if o.storeCompletions then ticks[Store := r.store] else ticks, r.pc, r.upc,
         if r.retire == 0 then "-----" + r.disasm else r.disasm)
  }

  function ShownAll(o: Options, records: seq<Record>): seq<Queued> {
    seq(|records|, i requires 0 <= i < |records| => Shown(o, records[i]))
  }

  /** What the viewer assumes of a bounded range: ticks, or numbers, do not fall back further than its slack. */
  ghost predicate BoundedDrift(o: Options, records: seq<Record>) {
    forall i, j :: 0 <= i < j < |records| ==>
      && (o.range.tickStop > 0 ==> records[i].fetch <= records[j].fetch + o.tickDrift)
      && (o.range.snStop > 0 ==> records[i].sn <= records[j].sn + o.high)
  }

  // ---------- noise ----------

  lemma {:induction false} SkipNoise(p: Line -> bool, lines: seq<Line>)
    requires !p(Noise)
    ensures SkipTo(p, WithoutNoise(lines)) == WithoutNoise(SkipTo(p, lines))
  {
    if lines != [] {
      SkipNoise(p, lines[1..]);
      if !lines[0].Noise? {
        assert WithoutNoise(lines)[1..] == WithoutNoise(lines[1..]);
      }
    }
  }

  lemma {:induction false} RegionNoise(o: Options, lines: seq<Line>, curr: Inst)
    requires Fetch in curr.ticks || lines == [] || lines[0].FetchLine?
    ensures Fetch in curr.ticks || WithoutNoise(lines) == [] || WithoutNoise(lines)[0].FetchLine?
    ensures Region(o, lines, curr) == Region(o, WithoutNoise(lines), curr)
  {
    if lines != [] {
      if lines[0].Noise? {
        RegionNoise(o, lines[1..], curr);
      } else {
        assert WithoutNoise(lines)[1..] == WithoutNoise(lines[1..]);
        if !Stops(o, lines[0]) {
          RegionNoise(o, lines[1..], Updated(o, curr, lines[0]));
        }
      }
    }
  }

  /** Lines of other kinds, wherever they stand, do not change what is queued. */
  lemma {:induction false} NoiseIrrelevant(o: Options, lines: seq<Line>)
    ensures Arrivals(o, lines) == Arrivals(o, WithoutNoise(lines))
  {
    var r := o.range;
    SkipNoise(FromTick(r.tickStart), lines);
    SkipNoise(FromSn(r.snStart), lines);
    var from := if r.tickStart != 0 then SkipTo(FromTick(r.tickStart), lines)
                else if r.snStart != 0 then SkipTo(FromSn(r.snStart), lines)
                else lines;
    SkipNoise(IsFetch, from);
    SkipToFinds(IsFetch, from);
    RegionNoise(o, RegionLines(r, lines), NO_INST);
  }

  // ---------- the start of the region ----------

  lemma {:induction false} SkipConcat(p: Line -> bool, a: seq<Line>, b: seq<Line>)
    ensures (forall i :: 0 <= i < |a| ==> !p(a[i])) ==> SkipTo(p, a + b) == SkipTo(p, b)
    ensures (exists i :: 0 <= i < |a| && p(a[i])) ==> exists k :: 0 <= k < |a| && p(a[k]) && SkipTo(p, a + b) == a[k..] + b
  {
    if a == [] {
      assert a + b == b;
    } else {
      assert (a + b)[1..] == a[1..] + b;
      SkipConcat(p, a[1..], b);
      if p(a[0]) {
        assert SkipTo(p, a + b) == a[0..] + b;
      } else if i :| 0 <= i < |a| && p(a[i]) {
        assert a[1..][i - 1] == a[i];
        var k :| 0 <= k < |a[1..]| && p(a[1..][k]) && SkipTo(p, a[1..] + b) == a[1..][k..] + b;
        assert a[1..][k..] == a[k + 1..] && p(a[k + 1]);
      }
    }
  }

  lemma {:induction false} RenderedAtFetch(records: seq<Record>)
    ensures SkipTo(IsFetch, Rendered(records)) == Rendered(records)
  {
  }

  /** From any line of a block but its first, the next fetch is the next block's. */
  lemma {:induction false} SkipRestOfBlock(r: Record, k: nat, records: seq<Record>)
    requires 0 < k <= 7
    ensures SkipTo(IsFetch, Lines(r)[k..] + Rendered(records)) == Rendered(records)
  {
    SkipConcat(IsFetch, Lines(r)[k..], Rendered(records));
    RenderedAtFetch(records);
  }

  /** A line of the block behind the fetch meets `p`. */
  ghost predicate LaterMeets(p: Line -> bool, r: Record) {
    exists line :: line in Tail(r) && p(line)
  }

  /**
   Skipping to the first line that meets `p`, then to a fetch, drops whole blocks, all of whose
   fetch lines fail `p`.
   */
  lemma {:induction false} SkipBlocks(p: Line -> bool, records: seq<Record>) returns (a: nat)
    ensures a <= |records|
    ensures SkipTo(IsFetch, SkipTo(p, Rendered(records))) == Rendered(records[a..])
    ensures forall i :: 0 <= i < a ==> !p(Lines(records[i])[0])
    ensures a < |records| ==> p(Lines(records[a])[0]) || (a > 0 && LaterMeets(p, records[a - 1]))
  {
    if records == [] {
      a := 0;
    } else {
      var rest := records[1..];
      if p(Lines(records[0])[0]) || LaterMeets(p, records[0]) {
        a := SkipFirst(p, records[0], rest);
        assert records[0..] == records;
      } else {
        SkipWhole(p, records[0], rest);
        var b := SkipBlocks(p, rest);
        a := b + 1;
        assert rest[b..] == records[a..];
      }
    }
  }

  lemma {:induction false} SkipWhole(p: Line -> bool, r: Record, rest: seq<Record>)
    requires !p(Lines(r)[0]) && !LaterMeets(p, r)
    ensures SkipTo(p, Lines(r) + Rendered(rest)) == SkipTo(p, Rendered(rest))
  {
    forall i | 0 <= i < |Lines(r)|
      ensures !p(Lines(r)[i])
    {
      assert i > 0 ==> Lines(r)[i] == Tail(r)[i - 1];
    }
    SkipConcat(p, Lines(r), Rendered(rest));
  }

  /** A block that meets `p` is where the region begins if it does so with its fetch, and is skipped otherwise. */
  lemma {:induction false} SkipFirst(p: Line -> bool, r: Record, rest: seq<Record>) returns (a: nat)
    requires p(Lines(r)[0]) || LaterMeets(p, r)
    ensures a == if p(Lines(r)[0]) then 0 else 1
    ensures SkipTo(IsFetch, SkipTo(p, Lines(r) + Rendered(rest))) == if a == 0 then Lines(r) + Rendered(rest) else Rendered(rest)
  {
    var block := Lines(r);
    if p(block[0]) {
      a := 0;
      assert (block + Rendered(rest))[0] == block[0];
    } else {
      a := 1;
      var i :| 0 <= i < |Tail(r)| && p(Tail(r)[i]);
      assert block[i + 1] == Tail(r)[i];
      SkipConcat(p, block, Rendered(rest));
      var k :| 0 <= k < |block| && p(block[k]) && SkipTo(p, block + Rendered(rest)) == block[k..] + Rendered(rest);
      SkipRestOfBlock(r, k, rest);
    }
  }

  /** Some stage behind the fetch has a tick from `start` on. */
  ghost predicate LaterTickFrom(r: Record, start: int) {
    || r.decode >= start || r.rename >= start || r.dispatch >= start
    || r.issue >= start || r.complete >= start || r.retire >= start
  }

  lemma {:induction false} LaterTicks(r: Record, start: int)
    ensures LaterMeets(FromTick(start), r) ==> LaterTickFrom(r, start)
  {
  }

  /**
   The region begins with the first instruction that meets the start rule with its fetch line, or,
   for ticks, behind the first that meets it with a later line; nothing in front of it is in range.
   */
  lemma {:induction false} RegionStart(o: Options, records: seq<Record>) returns (a: nat)
    ensures a <= |records| && RegionLines(o.range, Rendered(records)) == Rendered(records[a..])
    ensures forall i :: 0 <= i < a ==> !InRange(o.range, Shown(o, records[i]))
    ensures var start := o.range.tickStart;
            start != 0 ==>
              && (forall i :: 0 <= i < a ==> records[i].fetch < start)
              && (a < |records| ==> records[a].fetch >= start || (a > 0 && LaterTickFrom(records[a - 1], start)))
    ensures var start := o.range.snStart;
            o.range.tickStart == 0 && start != 0 ==>
              (forall i :: 0 <= i < a ==> records[i].sn < start) && (a < |records| ==> records[a].sn >= start)
    ensures o.range.tickStart == 0 && o.range.snStart == 0 ==> a == 0
  {
    if o.range.tickStart != 0 {
      a := StartByTick(o.range.tickStart, records);
    } else if o.range.snStart != 0 {
      a := StartBySn(o.range.snStart, records);
    } else {
      RenderedAtFetch(records);
      a := 0;
    }
  }

  lemma {:induction false} StartByTick(start: int, records: seq<Record>) returns (a: nat)
    ensures a <= |records| && SkipTo(IsFetch, SkipTo(FromTick(start), Rendered(records))) == Rendered(records[a..])
    ensures forall i :: 0 <= i < a ==> records[i].fetch < start
    ensures a < |records| ==> records[a].fetch >= start || (a > 0 && LaterTickFrom(records[a - 1], start))
  {
    a := SkipBlocks(FromTick(start), records);
    if a > 0 {
      LaterTicks(records[a - 1], start);
    }
  }

  lemma {:induction false} StartBySn(start: int, records: seq<Record>) returns (a: nat)
    ensures a <= |records| && SkipTo(IsFetch, SkipTo(FromSn(start), Rendered(records))) == Rendered(records[a..])
    ensures forall i :: 0 <= i < a ==> records[i].sn < start
    ensures a < |records| ==> records[a].sn >= start
  {
    a := SkipBlocks(FromSn(start), records);
    if a > 0 {
      NoLaterNumber(records[a - 1], start);
    }
  }

  lemma {:induction false} NoLaterNumber(r: Record, start: int)
    ensures !LaterMeets(FromSn(start), r)
  {
  }

  // ---------- the main loop ----------

  predicate Tidy(o: Options, curr: Inst) {
    o.storeCompletions || Store !in curr.ticks
  }

  /** Any dictionary left over from before is overwritten by the lines of one block. */
  lemma {:induction false} BlockUpdates(o: Options, r: Record, curr: Inst)
    requires Tidy(o, curr)
    ensures var c0 := Updated(o, curr, Lines(r)[0]);
            var c1 := Updated(o, c0, Tail(r)[0]);
            var c2 := Updated(o, c1, Tail(r)[1]);
            var c3 := Updated(o, c2, Tail(r)[2]);
            var c4 := Updated(o, c3, Tail(r)[3]);
            var c5 := Updated(o, c4, Tail(r)[4]);
            Updated(o, c5, Tail(r)[5]) == Shown(o, r)
  {
    var ticks := curr.ticks[Fetch := r.fetch][Decode := r.decode][Rename := r.rename][Dispatch := r.dispatch]
                   [Issue := r.issue][Complete := r.complete][Retire := r.retire];
    var all := if o.storeCompletions then ticks[Store := r.store] else ticks;
    forall s: Stage
      ensures s in all <==> s in Shown(o, r).ticks
      ensures s in all ==> all[s] == Shown(o, r).ticks[s]
    {
      match s case Fetch => case Decode => case Rename => case Dispatch =>
        case Issue => case Complete => case Retire => case Store =>
    }
    assert all == Shown(o, r).ticks;
  }

  lemma {:induction false} RegionBlock(o: Options, r: Record, rest: seq<Line>, curr: Inst)
    requires Tidy(o, curr) && !StopsAt(o, r.fetch, r.sn)
    ensures Region(o, Lines(r) + rest, curr) == [Shown(o, r)] + Region(o, rest, Shown(o, r))
  {
    var lines := Lines(r) + rest;
    var c0 := Updated(o, curr, lines[0]);
    QuietStep(o, lines, 0, curr);
    var c3 := Updated(o, Updated(o, Updated(o, c0, lines[1]), lines[2]), lines[3]);
    ThreeSteps(o, lines, 1, c0);
    var c5 := Updated(o, Updated(o, c3, lines[4]), lines[5]);
    QuietStep(o, lines, 4, c3);
    QuietStep(o, lines, 5, Updated(o, c3, lines[4]));
    RegionStep(o, lines, 6, c5, []);
    BlockUpdates(o, r, curr);
    assert lines[7..] == rest && lines[0..] == lines;
  }

  lemma {:induction false} ThreeSteps(o: Options, lines: seq<Line>, i: nat, curr: Inst)
    requires i + 3 <= |lines| && Fetch in curr.ticks && forall k :: i <= k < i + 3 ==> lines[k].StageLine?
    ensures Region(o, lines[i..], curr) ==
            Region(o, lines[i + 3..], Updated(o, Updated(o, Updated(o, curr, lines[i]), lines[i + 1]), lines[i + 2]))
  {
    var c1 := Updated(o, curr, lines[i]);
    QuietStep(o, lines, i, curr);
    QuietStep(o, lines, i + 1, c1);
    QuietStep(o, lines, i + 2, Updated(o, c1, lines[i + 1]));
  }

  /** A line other than a retire line queues nothing. */
  lemma {:induction false} QuietStep(o: Options, lines: seq<Line>, i: nat, curr: Inst)
    requires i < |lines| && !Stops(o, lines[i]) && !lines[i].RetireLine? && (Fetch in curr.ticks || lines[i].FetchLine?)
    ensures Region(o, lines[i..], curr) == Region(o, lines[i + 1..], Updated(o, curr, lines[i]))
  {
    var none: seq<Queued> := [];
    RegionStep(o, lines, i, curr, none);
    assert none + Region(o, lines[i..], curr) == Region(o, lines[i..], curr);
  }

  lemma {:induction false} ShownFirst(o: Options, records: seq<Record>, b: nat)
    requires b < |records|
    ensures ShownAll(o, records[..b + 1]) == [Shown(o, records[0])] + ShownAll(o, records[1..][..b])
  {
  }

  /** The loop queues a prefix of the records, shown as they are, up to the first that meets the stop rule. */
  lemma {:induction false} RegionRecords(o: Options, records: seq<Record>, curr: Inst) returns (b: nat)
    requires Tidy(o, curr)
    ensures b <= |records| && (b < |records| ==> StopsAt(o, records[b].fetch, records[b].sn))
    ensures forall i :: 0 <= i < b ==> !StopsAt(o, records[i].fetch, records[i].sn)
    ensures Region(o, Rendered(records), curr) == ShownAll(o, records[..b])
  {
    if records == [] {
      b := 0;
    } else if StopsAt(o, records[0].fetch, records[0].sn) {
      b := 0;
    } else {
      RegionBlock(o, records[0], Rendered(records[1..]), curr);
      b := RegionRecords(o, records[1..], Shown(o, records[0]));
      ShownFirst(o, records, b);
      b := b + 1;
    }
  }

  /** The stop rule: a fetch later, or a number larger, than the bound by more than the slack. */
  lemma {:induction false} StopRule(o: Options, r: Record)
    ensures StopsAt(o, r.fetch, r.sn) <==>
              || (o.range.tickStop > 0 && r.fetch - o.range.tickStop > o.tickDrift)
              || (o.range.snStop > 0 && r.sn - o.range.snStop > o.high)
  {
  }

  /** From the instruction that meets the stop rule on, nothing is in range any more. */
  lemma {:induction false} StoppedOutOfRange(o: Options, records: seq<Record>, b: nat, i: nat)
    requires BoundedDrift(o, records) && b <= i < |records| && StopsAt(o, records[b].fetch, records[b].sn)
    ensures !InRange(o.range, Shown(o, records[i]))
  {
    assert o.range.tickStop > 0 ==> records[b].fetch <= records[i].fetch + o.tickDrift;
    assert o.range.snStop > 0 ==> records[b].sn <= records[i].sn + o.high;
  }

  lemma {:induction false} ShownSlice(o: Options, records: seq<Record>, a: nat, b: nat)
    requires a <= b <= |records|
    ensures ShownAll(o, records[a..][..b - a]) == ShownAll(o, records)[a..b]
  {
  }

  /** What is queued is a slice of the records, and everything outside the slice is out of range. */
  lemma {:induction false} ArrivalsSlice(o: Options, records: seq<Record>) returns (a: nat, b: nat)
    requires BoundedDrift(o, records)
    ensures a <= b <= |records| && Arrivals(o, Rendered(records)) == ShownAll(o, records)[a..b]
    ensures forall i :: 0 <= i < a || b <= i < |records| ==> !InRange(o.range, Shown(o, records[i]))
  {
    a := RegionStart(o, records);
    var k := RegionRecords(o, records[a..], NO_INST);
    b := a + k;
    ShownSlice(o, records, a, b);
    forall i | b <= i < |records|
      ensures !InRange(o.range, Shown(o, records[i]))
    {
      assert records[a..][k] == records[b];
      StoppedOutOfRange(o, records, b, i);
    }
  }

  lemma {:induction false} SliceSelection<T(!new)>(p: T -> bool, s: seq<T>, a: nat, b: nat)
    requires a <= b <= |s| && forall i :: 0 <= i < a || b <= i < |s| ==> !p(s[i])
    ensures Filter(p, s[a..b]) == Filter(p, s)
  {
    DropSuffix(p, s, b);
    DropPrefix(p, s[..b], a);
    assert s[..b][a..] == s[a..b];
  }

  lemma {:induction false} DropSuffix<T(!new)>(p: T -> bool, s: seq<T>, b: nat)
    requires b <= |s| && forall i :: b <= i < |s| ==> !p(s[i])
    ensures Filter(p, s[..b]) == Filter(p, s)
  {
    assert s == s[..b] + s[b..];
    FilterConcat(p, s[..b], s[b..]);
    FilterNone(p, s[b..]);
  }

  lemma {:induction false} DropPrefix<T(!new)>(p: T -> bool, s: seq<T>, a: nat)
    requires a <= |s| && forall i :: 0 <= i < a ==> !p(s[i])
    ensures Filter(p, s[a..]) == Filter(p, s)
  {
    assert s == s[..a] + s[a..];
    FilterConcat(p, s[..a], s[a..]);
    FilterNone(p, s[..a]);
  }

  /** Of the instructions in range, the reading loop queues every one, once, in trace order. */
  lemma {:induction false} NothingLost(o: Options, lines: seq<Line>, records: seq<Record>)
    requires WithoutNoise(lines) == Rendered(records)
    requires BoundedDrift(o, records)
    ensures Filter(Within(o.range), Arrivals(o, lines)) == Filter(Within(o.range), ShownAll(o, records))
  {
    NoiseIrrelevant(o, lines);
    var a, b := ArrivalsSlice(o, records);
    var p := Within(o.range);
    assert forall i :: 0 <= i < a || b <= i < |records| ==> !p(ShownAll(o, records)[i]);
    SliceSelection(p, ShownAll(o, records), a, b);
  }

  /** What is printed is, as a multiset, exactly the range filter applied to the full trace. */
  lemma {:induction false} PrintsTheRange(o: Options, lines: seq<Line>, records: seq<Record>)
    requires WithoutNoise(lines) == Rendered(records)
    requires BoundedDrift(o, records)
    ensures multiset(Printed(o, lines)) == multiset(Filter(Within(o.range), ShownAll(o, records)))
  {
    NothingLost(o, lines, records);
    var arrivals, p := Arrivals(o, lines), Within(o.range);
    DrainedConserves(Sn, arrivals, o.low, o.high);
    FilterPermutation(p, Drained(Sn, arrivals, o.low, o.high), arrivals);
  }

  lemma {:induction false} CountPlaces<T(!new)>(s: seq<T>, x: T)
    ensures multiset(s)[x] == |set i | 0 <= i < |s| && s[i] == x|
  {
    var places := set i | 0 <= i < |s| && s[i] == x;
    if s == [] {
      assert places == {};
    } else {
      var front, n := s[..|s| - 1], |s| - 1;
      CountPlaces(front, x);
      assert s == front + [s[n]];
      var before := set i | 0 <= i < |front| && front[i] == x;
      assert places == if s[n] == x then before + {n} else before;
    }
  }

  /** The places of a list that hold `x` and meet `p`. */
  ghost function Places<T(!new)>(p: T -> bool, s: seq<T>, x: T): set<int> {
    set i | 0 <= i < |s| && s[i] == x && p(s[i])
  }

  lemma {:induction false} SelectedPlaces<T(!new)>(p: T -> bool, s: seq<T>, x: T)
    ensures multiset(Filter(p, s))[x] == |Places(p, s, x)|
  {
    FilterMultiset(p, s, x);
    CountPlaces(s, x);
    assert Places(p, s, x) == if p(x) then set i | 0 <= i < |s| && s[i] == x else {};
  }

  /** The range test, on the fields of the instruction. */
  lemma {:induction false} InRangeFields(o: Options, r: Record)
    ensures InRange(o.range, Shown(o, r)) <==>
              && (o.range.snStart > 0 ==> r.sn >= o.range.snStart) && (o.range.snStop > 0 ==> r.sn <= o.range.snStop)
              && (o.range.tickStart > 0 ==> r.fetch >= o.range.tickStart) && (o.range.tickStop > 0 ==> r.fetch <= o.range.tickStop)
              && (o.range.onlyCommitted ==> r.retire != 0)
  {
  }

  /** The instructions of a trace that look like `x` and meet all the conditions asked for. */
  ghost function WantedPlaces(o: Options, records: seq<Record>, x: Queued): set<int> {
    set i | 0 <= i < |records| && Shown(o, records[i]) == x
            && (o.range.snStart > 0 ==> records[i].sn >= o.range.snStart)
            && (o.range.snStop > 0 ==> records[i].sn <= o.range.snStop)
            && (o.range.tickStart > 0 ==> records[i].fetch >= o.range.tickStart)
            && (o.range.tickStop > 0 ==> records[i].fetch <= o.range.tickStop)
            && (o.range.onlyCommitted ==> records[i].retire != 0)
  }

  lemma {:induction false} WantedPlace(o: Options, records: seq<Record>, x: Queued, i: int)
    ensures i in Places(Within(o.range), ShownAll(o, records), x) <==> i in WantedPlaces(o, records, x)
  {
    if 0 <= i < |records| {
      InRangeFields(o, records[i]);
      assert ShownAll(o, records)[i] == Shown(o, records[i]);
    }
  }

  /**
   Which instructions are printed, and how often: an entry is printed once for every instruction
   of the trace that looks like it and meets all the conditions asked for, and nothing else is.
   */
  lemma {:induction false} PrintedExactly(o: Options, lines: seq<Line>, records: seq<Record>, x: Queued)
    requires WithoutNoise(lines) == Rendered(records)
    requires BoundedDrift(o, records)
    ensures multiset(Printed(o, lines))[x] == |WantedPlaces(o, records, x)|
  {
    PrintsTheRange(o, lines, records);
    SelectedPlaces(Within(o.range), ShownAll(o, records), x);
    forall i
      ensures i in Places(Within(o.range), ShownAll(o, records), x) <==> i in WantedPlaces(o, records, x)
    {
      WantedPlace(o, records, x, i);
    }
    assert Places(Within(o.range), ShownAll(o, records), x) == WantedPlaces(o, records, x);
  }

  /** What is shown of an instruction is what the lines of its block say; one that never retired is marked. */
  lemma {:induction false} ShownFromLines(o: Options, r: Record)
    ensures var x := Shown(o, r);
            && (forall s: Stage :: s in x.ticks <==> s != Store || o.storeCompletions)
            && (forall s: MidStage :: StageLine(s, x.ticks[s]) in Lines(r))
            && (exists text :: FetchLine(x.ticks[Fetch], x.pc, x.upc, x.sn, text) in Lines(r)
                               && x.disasm == if x.ticks[Retire] == 0 then "-----" + text else text)
            && (exists store :: RetireLine(x.ticks[Retire], store) in Lines(r) && (o.storeCompletions ==> x.ticks[Store] == store))
  {
    var x, lines := Shown(o, r), Lines(r);
    assert lines[0] == FetchLine(r.fetch, r.pc, r.upc, r.sn, r.disasm);
    assert lines[1] == StageLine(Decode, r.decode) && lines[2] == StageLine(Rename, r.rename)
        && lines[3] == StageLine(Dispatch, r.dispatch) && lines[4] == StageLine(Issue, r.issue)
        && lines[5] == StageLine(Complete, r.complete) && lines[6] == RetireLine(r.retire, r.store);
    forall s: MidStage
      ensures s in x.ticks && StageLine(s, x.ticks[s]) in lines
    {
      match s
      case Decode => case Rename => case Dispatch => case Issue => case Complete =>
    }
  }

  lemma {:induction false} SliceDisorder<T(!new)>(key: T -> int, s: seq<T>, a: nat, b: nat, d: nat)
    requires a <= b <= |s| && BoundedDisorder(key, s, d)
    ensures BoundedDisorder(key, s[a..b], d)
  {
    forall j | 0 <= j < b - a
      ensures CountLarger(key, s[a..b][..j], key(s[a..b][j])) <= d
    {
      assert s[..a + j] == s[..a] + s[a..b][..j];
      CountConcat(key, s[..a], s[a..b][..j], key(s[a + j]));
      assert CountLarger(key, s[..a + j], key(s[a + j])) <= d;
    }
  }

  /**
   If moreover no instruction is preceded by more than `low` with larger numbers, the output is
   the requested range of the trace in the order of a stable sort by sequence number.
   */
  lemma {:induction false} PrintsTheRangeSorted(o: Options, lines: seq<Line>, records: seq<Record>)
    requires WithoutNoise(lines) == Rendered(records)
    requires BoundedDrift(o, records)
    requires BoundedDisorder(Sn, ShownAll(o, records), o.low)
    ensures Printed(o, lines) == Sort(Sn, Filter(Within(o.range), ShownAll(o, records)))
  {
    NothingLost(o, lines, records);
    NoiseIrrelevant(o, lines);
    var a, b := ArrivalsSlice(o, records);
    var arrivals := Arrivals(o, lines);
    SliceDisorder(Sn, ShownAll(o, records), a, b, o.low);
    DrainedIsSort(Sn, arrivals, o.low, o.high);
    FilterOfSort(Sn, Within(o.range), arrivals);
  }
}
