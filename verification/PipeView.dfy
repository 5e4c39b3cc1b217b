/**
 Reading a pipeline trace and printing a range of it: util/o3-pipeview.py, from the lines of
 the trace to the list of instructions handed to the timeline printer.

 Lines are taken as already split into fields; everything that is not an `O3PipeView` line
 is `Noise`.
 */
module PipeView {
  import opened StableSort
  import opened BatchQueue

  datatype Stage = Fetch | Decode | Rename | Dispatch | Issue | Complete | Retire | Store

  /** The stages whose line carries only a tick. */
  type MidStage = s: Stage | s !in {Fetch, Retire, Store} witness Decode

  datatype Line =
    | Noise
    | FetchLine(tick: nat, pc: string, upc: string, sn: int, disasm: string)
    | StageLine(stage: MidStage, tick: nat)
    | RetireLine(tick: nat, store: nat)

  /** The dictionary that collects an instruction's fields; it is reused from one to the next. */
  datatype Inst = Inst(sn: int, ticks: map<Stage, nat>, pc: string, upc: string, disasm: string)

  /** What is queued has been fetched and has a retire line. */
  type Queued = x: Inst | Fetch in x.ticks && Retire in x.ticks
    witness Inst(0, map[Fetch := 0, Retire := 0], "", "", "")

  function Sn(x: Queued): int { x.sn }

  /** The boundaries to print; a bound that is not positive is no bound. */
  datatype Range = Range(snStart: int, snStop: int, tickStart: int, tickStop: int, onlyCommitted: bool)

  datatype Options = Options(range: Range, storeCompletions: bool, tickDrift: nat, low: nat, high: nat)

  predicate InRange(r: Range, x: Queued) {
    && !(r.snStart > 0 && x.sn < r.snStart)
    && !(r.snStop > 0 && x.sn > r.snStop)
    && !(r.tickStart > 0 && x.ticks[Fetch] < r.tickStart)
    && !(r.tickStop > 0 && x.ticks[Fetch] > r.tickStop)
    && !(r.onlyCommitted && x.ticks[Retire] == 0)
  }

  function Within(r: Range): Queued -> bool {
    (x: Queued) => InRange(r, x)
  }

  // ---------- which instructions a trace queues ----------

  function SkipTo(p: Line -> bool, lines: seq<Line>): seq<Line> {
    if lines == [] || p(lines[0]) then lines else SkipTo(p, lines[1..])
  }

  predicate IsFetch(line: Line) {
    line.FetchLine?
  }

  function FromTick(start: int): Line -> bool {
    (line: Line) => !line.Noise? && line.tick >= start
  }

  function FromSn(start: int): Line -> bool {
    (line: Line) => line.FetchLine? && line.sn >= start
  }

  /** The trace from the first fetch line of the region of interest on. */
  function RegionLines(r: Range, lines: seq<Line>): seq<Line> {
    SkipTo(IsFetch,
           if r.tickStart != 0 then SkipTo(FromTick(r.tickStart), lines)
           else if r.snStart != 0 then SkipTo(FromSn(r.snStart), lines)
           else lines)
  }

  predicate StopsAt(o: Options, tick: nat, sn: int) {
    || (o.range.tickStop > 0 && tick > o.range.tickStop + o.tickDrift)
    || (o.range.snStop > 0 && sn > o.range.snStop + o.high)
  }

  /** The dictionary after one line; a retire line completes it. */
  function Updated(o: Options, curr: Inst, line: Line): Inst {
    match line
    case Noise => curr
    case FetchLine(tick, pc, upc, sn, disasm) =>
      Inst(sn, curr.ticks[Fetch := tick], pc, upc, disasm)
    case StageLine(stage, tick) =>
      curr.(ticks := curr.ticks[stage := tick])
    case RetireLine(tick, store) =>
      var ticks := curr.ticks[Retire := tick];
      curr.(ticks := if o.storeCompletions then ticks[Store := store] else ticks,
            disasm := if tick == 0 then "-----" + curr.disasm else curr.disasm)
  }

  predicate Stops(o: Options, line: Line) {
    line.FetchLine? && StopsAt(o, line.tick, line.sn)
  }

  /** The instructions queued from `lines` on, up to the stop rule or the end of the trace. */
  function Region(o: Options, lines: seq<Line>, curr: Inst): seq<Queued>
    requires Fetch in curr.ticks || lines == [] || lines[0].FetchLine?
  {
    if lines == [] || Stops(o, lines[0]) then [] else
      var next := Updated(o, curr, lines[0]);
      (if lines[0].RetireLine? then [next] else []) + Region(o, lines[1..], next)
  }

  lemma {:induction false} RegionStep(o: Options, lines: seq<Line>, i: nat, curr: Inst, arrived: seq<Queued>)
    requires i < |lines| && !Stops(o, lines[i]) && (Fetch in curr.ticks || lines[i].FetchLine?)
    ensures var next := Updated(o, curr, lines[i]);
            arrived + Region(o, lines[i..], curr) ==
            (if lines[i].RetireLine? then arrived + [next] else arrived) + Region(o, lines[i + 1..], next)
  {
    var next := Updated(o, curr, lines[i]);
    var tail := Region(o, lines[i + 1..], next);
    assert lines[i..][1..] == lines[i + 1..];
    assert Region(o, lines[i..], curr) == (if lines[i].RetireLine? then [next] else []) + tail;
    if lines[i].RetireLine? {
      ConcatAssoc(arrived, [next], tail);
    } else {
      assert [] + tail == tail;
    }
  }

  const NO_INST := Inst(0, map[], "", "", "")

  lemma {:induction false} SkipToFinds(p: Line -> bool, lines: seq<Line>)
    ensures SkipTo(p, lines) == [] || p(SkipTo(p, lines)[0])
    ensures |SkipTo(p, lines)| <= |lines|
    ensures var k := |lines| - |SkipTo(p, lines)|;
            SkipTo(p, lines) == lines[k..] && forall j :: 0 <= j < k ==> !p(lines[j])
  {
    if lines != [] && !p(lines[0]) {
      SkipToFinds(p, lines[1..]);
      var k := |lines[1..]| - |SkipTo(p, lines[1..])|;
      assert lines[1..][k..] == lines[k + 1..];
      assert forall j :: 1 <= j <= k ==> lines[1..][j - 1] == lines[j];
    }
  }

  function Arrivals(o: Options, lines: seq<Line>): seq<Queued> {
    SkipToFinds(IsFetch, if o.range.tickStart != 0 then SkipTo(FromTick(o.range.tickStart), lines)
                         else if o.range.snStart != 0 then SkipTo(FromSn(o.range.snStart), lines)
                         else lines);
    Region(o, RegionLines(o.range, lines), NO_INST)
  }

  /** What is printed for a trace: the queued instructions in range, in the order in which they leave the queue. */
  function Printed(o: Options, lines: seq<Line>): seq<Queued> {
    Filter(Within(o.range), Drained(Sn, Arrivals(o, lines), o.low, o.high))
  }

  // ---------- the viewer ----------

  class Viewer {
    const opts: Options
    var queue: seq<Queued>
    var printed: seq<Queued>
    /** Everything queued so far, and everything taken off the queue again, printed or not. */
    ghost var arrived: seq<Queued>
    ghost var out: seq<Queued>

    ghost predicate Valid()
      reads this
    {
      && printed == Filter(Within(opts.range), out)
      && State(queue, out) == Feed(Sn, arrived, opts.low, opts.high)
    }

    constructor (opts: Options)
      ensures this.opts == opts && Valid() && arrived == []
    {
      this.opts := opts;
      queue, printed, arrived, out := [], [], [], [];
    }

    /** Sorts the queue and takes its first instructions off until `lower` are left, printing those in range. */
    method PrintInsts(lower: nat)
      requires printed == Filter(Within(opts.range), out)
      modifies this`queue, this`printed, this`out
      ensures printed == Filter(Within(opts.range), out)
      ensures State(queue, out) == Flush(Sn, State(old(queue), old(out)), lower)
    {
      queue := Sort(Sn, queue);
      TakeOff(lower);
    }

    /** Takes instructions off the front until `lower` are left. */
    method TakeOff(lower: nat)
      requires printed == Filter(Within(opts.range), out)
      modifies this`queue, this`printed, this`out
      ensures printed == Filter(Within(opts.range), out)
      ensures State(queue, out) ==
              if |old(queue)| <= lower then State(old(queue), old(out))
              else State(old(queue)[|old(queue)| - lower..], old(out) + old(queue)[..|old(queue)| - lower])
    {
      ghost var sorted, n := queue, 0;
      TakeNone(out, sorted);
      while |queue| > lower
        invariant printed == Filter(Within(opts.range), out)
        invariant n <= |sorted| && queue == sorted[n..] && out == old(out) + sorted[..n]
        invariant n > 0 ==> |queue| >= lower
      {
        TakeOneMore(old(out), sorted, n);
        PrintFirst();
        n := n + 1;
      }
    }

    /** Takes the first instruction off the queue and prints it if it is in range. */
    method PrintFirst()
      requires queue != [] && printed == Filter(Within(opts.range), out)
      modifies this`queue, this`printed, this`out
      ensures printed == Filter(Within(opts.range), out)
      ensures queue == old(queue)[1..] && out == old(out) + [old(queue)[0]]
    {
      var item := queue[0];
      queue := queue[1..];
      FilterOneMore(Within(opts.range), out, item);
      if InRange(opts.range, item) {
        printed := printed + [item];
      }
      out := out + [item];
    }

    method QueueInst(x: Queued)
      requires Valid()
      modifies this
      ensures Valid() && arrived == old(arrived) + [x]
    {
      queue := queue + [x];
      if |queue| > opts.high {
        PrintInsts(opts.low);
      }
      FeedOneMore(Sn, arrived, x, opts.low, opts.high);
      arrived := arrived + [x];
    }

    /** Skips lines up to the start of the region and then to a fetch line. */
    method FindRegion(lines: seq<Line>) returns (i: nat)
      ensures i <= |lines| && lines[i..] == RegionLines(opts.range, lines)
      ensures i < |lines| ==> lines[i].FetchLine?
    {
      i := FindStart(lines);
      while i < |lines| && !lines[i].FetchLine?
        invariant 0 <= i <= |lines|
        invariant SkipTo(IsFetch, lines[i..]) == RegionLines(opts.range, lines)
      {
        i := i + 1;
      }
    }

    method FindStart(lines: seq<Line>) returns (i: nat)
      ensures i <= |lines| && SkipTo(IsFetch, lines[i..]) == RegionLines(opts.range, lines)
    {
      i := 0;
      if opts.range.tickStart != 0 {
        while i < |lines| && (lines[i].Noise? || lines[i].tick < opts.range.tickStart)
          invariant 0 <= i <= |lines|
          invariant SkipTo(FromTick(opts.range.tickStart), lines[i..]) == SkipTo(FromTick(opts.range.tickStart), lines)
        {
          i := i + 1;
        }
      } else if opts.range.snStart != 0 {
        while i < |lines| && !(lines[i].FetchLine? && lines[i].sn >= opts.range.snStart)
          invariant 0 <= i <= |lines|
          invariant SkipTo(FromSn(opts.range.snStart), lines[i..]) == SkipTo(FromSn(opts.range.snStart), lines)
        {
          i := i + 1;
        }
      }
    }

    /** Reads a whole trace; what is printed depends on the trace alone, and the queue ends empty. */
    method ProcessTrace(lines: seq<Line>)
      requires Valid() && arrived == []
      modifies this
      ensures queue == []
      ensures printed == Printed(opts, lines)
    {
      var i := FindRegion(lines);
      assert Arrivals(opts, lines) == Region(opts, lines[i..], NO_INST);
      ViewRegion(lines, i);
      PrintInsts(0);
      DrainedConserves(Sn, arrived, opts.low, opts.high);
    }

    /** The main loop, from the fetch line at `start` to the stop rule or the end of the trace. */
    method ViewRegion(lines: seq<Line>, start: nat)
      requires Valid() && arrived == []
      requires start <= |lines| && (start < |lines| ==> lines[start].FetchLine?)
      modifies this
      ensures Valid() && arrived == Region(opts, lines[start..], NO_INST)
    {
      var i, curr := start, NO_INST;
      while i < |lines| && !Stops(opts, lines[i])
        invariant start <= i <= |lines|
        invariant Fetch in curr.ticks || i == |lines| || lines[i].FetchLine?
        invariant Valid()
        invariant arrived + Region(opts, lines[i..], curr) == Region(opts, lines[start..], NO_INST)
      {
        RegionStep(opts, lines, i, curr, arrived);
        curr := Updated(opts, curr, lines[i]);
        if lines[i].RetireLine? {
          QueueInst(curr);
        }
        i := i + 1;
      }
    }
  }
}
