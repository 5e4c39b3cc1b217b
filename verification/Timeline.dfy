/**
 The timeline of one instruction, as `print_inst` of util/o3-pipeview.py lays it out without
 colours: a row of `width` columns of `cycle` ticks each, several rows when the instruction
 lives longer than a row, one wrapped row when it does not.
 */
module Timeline {
  import opened Wrappers
  import opened StableSort
  import opened PipeView

  datatype Event = Event(offset: nat, stage: Stage)

  function StageList(stores: bool): seq<Stage> {
    [Fetch, Decode, Rename, Dispatch, Issue, Complete, Retire] + if stores then [Store] else []
  }

  function Shorthand(s: Stage): char {
    match s
    case Fetch => 'f'
    case Decode => 'd'
    case Rename => 'n'
    case Dispatch => 'p'
    case Issue => 'i'
    case Complete => 'c'
    case Retire => 'r'
    case Store => 's'
  }

  /** Events at one offset are ordered by the name of their stage. */
  function NameRank(s: Stage): nat {
    match s
    case Complete => 0
    case Decode => 1
    case Dispatch => 2
    case Fetch => 3
    case Issue => 4
    case Rename => 5
    case Retire => 6
    case Store => 7
  }

  /** The name a stage has in the trace. */
  function StageName(s: Stage): string {
    match s
    case Fetch => "fetch"
    case Decode => "decode"
    case Rename => "rename"
    case Dispatch => "dispatch"
    case Issue => "issue"
    case Complete => "complete"
    case Retire => "retire"
    case Store => "store"
  }

  /** Comparison of strings by their first difference. */
  predicate Precedes(a: string, b: string) {
    b != "" && (a == "" || a[0] < b[0] || (a[0] == b[0] && Precedes(a[1..], b[1..])))
  }

  lemma {:induction false} CloseNames()
    ensures Precedes("decode", "dispatch") && !Precedes("dispatch", "decode")
    ensures Precedes("rename", "retire") && !Precedes("retire", "rename")
  {
    assert "decode"[1..] == "ecode" && "dispatch"[1..] == "ispatch";
    assert "rename"[1..] == "ename" && "ename"[1..] == "name" && "retire"[1..] == "etire" && "etire"[1..] == "tire";
  }

  lemma {:induction false} Irreflexive(a: string)
    ensures !Precedes(a, a)
  {
    if a != "" {
      Irreflexive(a[1..]);
    }
  }

  /** The ranks are the alphabetical order of the names. */
  lemma {:induction false} RankIsAlphabetical(s: Stage, t: Stage)
    ensures NameRank(s) < NameRank(t) <==> Precedes(StageName(s), StageName(t))
  {
    CloseNames();
    Irreflexive(StageName(s));
  }

  function EventKey(e: Event): int {
    8 * e.offset + NameRank(e.stage)
  }

  /** Everything `print_inst` needs to know to lay an instruction out. */
  datatype Layout = Layout(width: nat, cycle: nat, stores: bool, ticks: map<Stage, nat>) {
    ghost predicate Valid() {
      && width > 0 && cycle > 0
      && forall s :: s in StageList(stores) ==> s in ticks
    }

    function TimeWidth(): (w: nat)
      requires Valid()
      ensures w > 0
    {
      Positive(width, cycle);
      width * cycle
    }

    function BaseTick(): nat
      requires Valid()
    {
      ticks[Fetch] / TimeWidth() * TimeWidth()
    }

    function LastTick(): nat
      requires Valid()
    {
      MaxTick(ticks, StageList(stores))
    }

    predicate Compact()
      requires Valid()
    {
      LastTick() - ticks[Fetch] < TimeWidth()
    }

    function NumLines(): int
      requires Valid()
    {
      if Compact() then 1 else (LastTick() - BaseTick()) / TimeWidth() + 1
    }

    function StartTick(i: nat): nat
      requires Valid()
    {
      BaseTick() + i * TimeWidth()
    }

    function EndTick(i: nat): int
      requires Valid()
    {
      StartTick(i) + TimeWidth() + if NumLines() == 1 then ticks[Fetch] - BaseTick() else 0
    }

    /** The tick of stage `s` falls on line `i`; tick 0 means the stage was never reached. */
    predicate OnLine(s: Stage, i: nat)
      requires Valid() && s in StageList(stores)
    {
      ticks[s] != 0 && StartTick(i) <= ticks[s] < EndTick(i)
    }

    function EventOf(s: Stage): Event
      requires Valid() && s in StageList(stores)
    {
      Event(ticks[s] % TimeWidth(), s)
    }

    function Collect(stages: seq<Stage>, i: nat): seq<Event>
      requires Valid() && forall s :: s in stages ==> s in StageList(stores)
    {
      if stages == [] then [] else
        Collect(stages[..|stages| - 1], i) +
        if OnLine(stages[|stages| - 1], i) then [EventOf(stages[|stages| - 1])] else []
    }

    function Events(i: nat): seq<Event>
      requires Valid()
    {
      Sort(EventKey, Collect(StageList(stores), i))
    }

    /** Dispatch is left out when issue happens at the same tick. */
    predicate HidesDispatch()
      requires Valid()
    {
      ticks[Dispatch] == ticks[Issue]
    }

    function Dot(): char
      requires Valid()
    {
      if ticks[Retire] == 0 then '=' else '.'
    }

    function Row(i: nat): string
      requires Valid()
    {
      Cells(DrawnMarks(cycle, HidesDispatch(), Events(i)), Dot(), width)
    }
  }

  lemma {:induction false} Positive(a: nat, b: nat)
    requires a > 0 && b > 0
    ensures a * b > 0
  {
  }

  function MaxTick(ticks: map<Stage, nat>, stages: seq<Stage>): (m: nat)
    requires forall s :: s in stages ==> s in ticks
    ensures forall s :: s in stages ==> ticks[s] <= m
    ensures stages != [] ==> exists s :: s in stages && ticks[s] == m
    ensures stages == [] ==> m == 0
  {
    if stages == [] then 0 else
      var front, last := stages[..|stages| - 1], stages[|stages| - 1];
      assert forall s :: s in stages <==> s in front || s == last;
      var m := MaxTick(ticks, front);
      if ticks[last] >= m then ticks[last] else m
  }

  // ---------- the reference picture: one cell per column ----------

  datatype Mark = Mark(column: nat, letter: char)

  /** What a list of events leaves on the row: a letter in a column each, except a hidden dispatch. */
  function DrawnMarks(cycle: nat, hideDispatch: bool, evs: seq<Event>): seq<Mark>
    requires cycle > 0
  {
    if evs == [] then [] else
      var e := evs[|evs| - 1];
      DrawnMarks(cycle, hideDispatch, evs[..|evs| - 1]) +
      if e.stage == Dispatch && hideDispatch then [] else [Mark(e.offset / cycle, Shorthand(e.stage))]
  }

  /** The letters in column `c`, in order. */
  function Letters(marks: seq<Mark>, c: nat): string {
    if marks == [] then "" else
      var m, before := marks[|marks| - 1], Letters(marks[..|marks| - 1], c);
      if m.column == c then before + [m.letter] else before
  }

  function Cell(marks: seq<Mark>, dot: char, c: nat): string {
    if Letters(marks, c) == "" then [dot] else Letters(marks, c)
  }

  function Cells(marks: seq<Mark>, dot: char, n: nat): string {
    if n == 0 then "" else Cells(marks, dot, n - 1) + Cell(marks, dot, n - 1)
  }

  function Repeat(c: char, n: int): string {
    if n <= 0 then "" else seq(n, _ => c)
  }

  lemma {:induction false} LettersOneMore(marks: seq<Mark>, m: Mark, c: nat)
    ensures Letters(marks + [m], c) == if m.column == c then Letters(marks, c) + [m.letter] else Letters(marks, c)
  {
    assert (marks + [m])[..|marks|] == marks;
  }

  lemma {:induction false} NoLetters(marks: seq<Mark>, c: nat)
    requires forall i :: 0 <= i < |marks| ==> marks[i].column != c
    ensures Letters(marks, c) == ""
  {
    if marks != [] {
      NoLetters(marks[..|marks| - 1], c);
    }
  }

  lemma {:induction false} CellElsewhere(marks: seq<Mark>, m: Mark, dot: char, c: nat)
    requires m.column != c
    ensures Cell(marks + [m], dot, c) == Cell(marks, dot, c)
  {
    LettersOneMore(marks, m, c);
  }

  lemma {:induction false} EmptyCell(marks: seq<Mark>, dot: char, c: nat)
    requires forall i :: 0 <= i < |marks| ==> marks[i].column != c
    ensures Cell(marks, dot, c) == [dot]
  {
    NoLetters(marks, c);
  }

  /** Columns left of a mark do not see it. */
  lemma {:induction false} CellsBefore(marks: seq<Mark>, m: Mark, dot: char, n: nat)
    requires m.column >= n
    ensures Cells(marks + [m], dot, n) == Cells(marks, dot, n)
  {
    if n > 0 {
      CellsBefore(marks, m, dot, n - 1);
      CellElsewhere(marks, m, dot, n - 1);
    }
  }

  lemma {:induction false} RepeatNone(text: string, c: char)
    ensures text + Repeat(c, 0) == text
  {
  }

  lemma {:induction false} RepeatOneMore(text: string, c: char, n: nat)
    ensures text + Repeat(c, n) + [c] == text + Repeat(c, n + 1)
  {
  }

  /** Columns right of all marks are dots. */
  lemma {:induction false} CellsBeyond(marks: seq<Mark>, dot: char, pos: nat, n: nat)
    requires pos <= n && forall i :: 0 <= i < |marks| ==> marks[i].column < pos
    ensures Cells(marks, dot, n) == Cells(marks, dot, pos) + Repeat(dot, n - pos)
  {
    if pos == n {
      RepeatNone(Cells(marks, dot, n), dot);
    } else {
      CellsBeyond(marks, dot, pos, n - 1);
      EmptyCell(marks, dot, n - 1);
      RepeatOneMore(Cells(marks, dot, pos), dot, n - 1 - pos);
    }
  }

  /** `text` shows the first `pos` columns of `marks`, and the last of these holds a letter. */
  ghost predicate Painted(marks: seq<Mark>, dot: char, text: string, pos: nat) {
    && text == Cells(marks, dot, pos)
    && (forall i :: 0 <= i < |marks| ==> marks[i].column < pos)
    && (pos > 0 ==> Letters(marks, pos - 1) != "")
  }

  lemma {:induction false} DrawBeyond(marks: seq<Mark>, m: Mark, dot: char, pos: nat)
    requires pos <= m.column && forall i :: 0 <= i < |marks| ==> marks[i].column < pos
    ensures Cells(marks + [m], dot, m.column + 1) == Cells(marks, dot, pos) + Repeat(dot, m.column - pos) + [m.letter]
  {
    CellsBefore(marks, m, dot, m.column);
    CellsBeyond(marks, dot, pos, m.column);
    LettersOneMore(marks, m, m.column);
    NoLetters(marks, m.column);
    assert Letters(marks + [m], m.column) == [m.letter];
  }

  lemma {:induction false} DrawHere(marks: seq<Mark>, m: Mark, dot: char)
    requires Letters(marks, m.column) != ""
    ensures Cells(marks + [m], dot, m.column + 1) == Cells(marks, dot, m.column + 1) + [m.letter]
  {
    var c := m.column;
    CellsBefore(marks, m, dot, c);
    LettersOneMore(marks, m, c);
    calc {
      Cells(marks + [m], dot, c + 1);
      Cells(marks, dot, c) + (Letters(marks, c) + [m.letter]);
      Cells(marks, dot, c) + Letters(marks, c) + [m.letter];
    }
  }

  /** Drawing one more mark, at or beyond the last one drawn. */
  lemma {:induction false} DrawOne(marks: seq<Mark>, m: Mark, dot: char, text: string, pos: nat)
    requires Painted(marks, dot, text, pos) && m.column + 1 >= pos
    ensures Painted(marks + [m], dot, text + Repeat(dot, m.column - pos) + [m.letter], m.column + 1)
  {
    LettersOneMore(marks, m, m.column);
    if m.column >= pos {
      DrawBeyond(marks, m, dot, pos);
    } else {
      DrawHere(marks, m, dot);
      assert text + Repeat(dot, m.column - pos) == text;
    }
  }

  lemma {:induction false} FinishRow(marks: seq<Mark>, dot: char, text: string, pos: nat, width: nat)
    requires Painted(marks, dot, text, pos) && pos <= width
    ensures text + Repeat(dot, width - pos) == Cells(marks, dot, width)
  {
    CellsBeyond(marks, dot, pos, width);
  }

  lemma {:induction false} DrawnOneMore(cycle: nat, hideDispatch: bool, evs: seq<Event>, k: nat)
    requires cycle > 0 && k < |evs|
    ensures DrawnMarks(cycle, hideDispatch, evs[..k + 1]) ==
            if evs[k].stage == Dispatch && hideDispatch then DrawnMarks(cycle, hideDispatch, evs[..k])
            else DrawnMarks(cycle, hideDispatch, evs[..k]) + [Mark(evs[k].offset / cycle, Shorthand(evs[k].stage))]
  {
    assert evs[..k + 1][..k] == evs[..k];
  }

  // ---------- the printing loop ----------

  lemma {:induction false} MulMonotone(x: int, y: int, c: nat)
    ensures x >= y ==> x * c >= y * c
  {
    if x >= y {
      assert (x - y) * c >= 0;
    }
  }

  lemma {:induction false} ColumnsOrdered(cycle: nat, a: nat, b: nat)
    requires cycle > 0 && a <= b
    ensures a / cycle <= b / cycle
  {
    assert a / cycle * cycle <= a && b < (b / cycle + 1) * cycle;
    MulMonotone(a / cycle, b / cycle + 1, cycle);
  }

  lemma {:induction false} ColumnInRow(cycle: nat, width: nat, offset: nat)
    requires cycle > 0 && offset < width * cycle
    ensures offset / cycle < width
  {
  }

  /** The position just behind the column of `offset`; 0 when nothing has been drawn. */
  ghost predicate Behind(cycle: nat, reach: nat, pos: nat)
    requires cycle > 0
  {
    pos > 0 ==> pos == reach / cycle + 1
  }

  /** Writes dots up to the event's column, then its letter. */
  method DrawEvent(width: nat, cycle: nat, dot: char, text: string, pos: nat, e: Event, ghost drawn: seq<Mark>, ghost reach: nat)
    returns (text': string, pos': nat)
    requires cycle > 0 && Painted(drawn, dot, text, pos)
    requires Behind(cycle, reach, pos) && (pos > 0 ==> reach <= e.offset)
    requires e.offset < width * cycle
    ensures Painted(drawn + [Mark(e.offset / cycle, Shorthand(e.stage))], dot, text', pos')
    ensures pos' <= width && Behind(cycle, e.offset, pos')
  {
    if pos > 0 {
      ColumnsOrdered(cycle, reach, e.offset);
    }
    ColumnInRow(cycle, width, e.offset);
    var column := e.offset / cycle;
    DrawOne(drawn, Mark(column, Shorthand(e.stage)), dot, text, pos);
    text' := text + Repeat(dot, column - pos) + [Shorthand(e.stage)];
    pos' := column + 1;
  }

  /**
   The row printer keeps one position and writes dots up to each event.  It paints exactly the
   cells of the reference picture, also when several events share a column.
   */
  method DrawRow(width: nat, cycle: nat, dot: char, hideDispatch: bool, evs: seq<Event>) returns (text: string)
    requires cycle > 0
    requires forall i, j :: 0 <= i < j < |evs| ==> evs[i].offset <= evs[j].offset
    requires forall i :: 0 <= i < |evs| ==> evs[i].offset < width * cycle
    ensures text == Cells(DrawnMarks(cycle, hideDispatch, evs), dot, width)
  {
    text := "";
    var pos: nat := 0;
    ghost var drawn: seq<Mark> := [];
    ghost var reach: nat := 0;
    for k := 0 to |evs|
      invariant drawn == DrawnMarks(cycle, hideDispatch, evs[..k])
      invariant Painted(drawn, dot, text, pos) && pos <= width
      invariant Behind(cycle, reach, pos) && forall j :: k <= j < |evs| ==> reach <= evs[j].offset
    {
      DrawnOneMore(cycle, hideDispatch, evs, k);
      var e := evs[k];
      if !(e.stage == Dispatch && hideDispatch) {
        text, pos := DrawEvent(width, cycle, dot, text, pos, e, drawn, reach);
        reach, drawn := e.offset, drawn + [Mark(e.offset / cycle, Shorthand(e.stage))];
      }
    }
    assert evs[..|evs|] == evs;
    FinishRow(drawn, dot, text, pos, width);
    text := text + Repeat(dot, width - pos);
  }

  // ---------- how long a row is ----------

  ghost function Columns(marks: seq<Mark>): set<nat> {
    set i | 0 <= i < |marks| :: marks[i].column
  }

  lemma {:induction false} LettersIff(marks: seq<Mark>, c: nat)
    ensures Letters(marks, c) != "" <==> c in Columns(marks)
  {
    if marks != [] {
      var front, m := marks[..|marks| - 1], marks[|marks| - 1];
      LettersIff(front, c);
      assert Columns(marks) == Columns(front) + {m.column};
    }
  }

  lemma {:induction false} LastCell(marks: seq<Mark>, dot: char, n: nat)
    requires n > 0
    ensures |Cells(marks, dot, n)| == |Cells(marks, dot, n - 1)| + |Cell(marks, dot, n - 1)|
  {
  }

  lemma {:induction false} CellOneMore(marks: seq<Mark>, m: Mark, dot: char, c: nat)
    ensures |Cell(marks + [m], dot, c)| ==
            |Cell(marks, dot, c)| + if m.column == c && Letters(marks, c) != "" then 1 else 0
  {
    LettersOneMore(marks, m, c);
  }

  /** One more mark makes the picture longer by one letter exactly when its column is taken. */
  lemma {:induction false} CellsOneMore(marks: seq<Mark>, more: seq<Mark>, m: Mark, dot: char, n: nat)
    requires more == marks + [m]
    ensures |Cells(more, dot, n)| ==
            |Cells(marks, dot, n)| + if m.column < n && Letters(marks, m.column) != "" then 1 else 0
  {
    if n > 0 {
      CellsOneMore(marks, more, m, dot, n - 1);
      LastCell(marks, dot, n);
      LastCell(more, dot, n);
      CellOneMore(marks, m, dot, n - 1);
    }
  }

  lemma {:induction false} EmptyRow(dot: char, n: nat)
    ensures |Cells([], dot, n)| == n
  {
    if n > 0 {
      EmptyRow(dot, n - 1);
    }
  }

  /** A row is as long as its width plus one for every letter that shares a column. */
  lemma {:induction false} RowLength(marks: seq<Mark>, dot: char, width: nat)
    requires forall i :: 0 <= i < |marks| ==> marks[i].column < width
    ensures |Cells(marks, dot, width)| == width + |marks| - |Columns(marks)|
  {
    if marks == [] {
      EmptyRow(dot, width);
    } else {
      var front, m := marks[..|marks| - 1], marks[|marks| - 1];
      assert marks == front + [m];
      RowLength(front, dot, width);
      CellsOneMore(front, marks, m, dot, width);
      LettersIff(front, m.column);
      assert Columns(marks) == Columns(front) + {m.column};
    }
  }

  // ---------- which line a stage is drawn on ----------

  lemma {:induction false} CollectMember(l: Layout, stages: seq<Stage>, i: nat, e: Event)
    requires l.Valid() && forall s :: s in stages ==> s in StageList(l.stores)
    ensures e in l.Collect(stages, i) <==> e.stage in stages && l.OnLine(e.stage, i) && e == l.EventOf(e.stage)
  {
    if stages != [] {
      CollectMember(l, stages[..|stages| - 1], i, e);
      assert stages == stages[..|stages| - 1] + [stages[|stages| - 1]];
    }
  }

  /** The events of a line are those stages whose tick falls on it. */
  lemma {:induction false} EventsMember(l: Layout, i: nat, e: Event)
    requires l.Valid()
    ensures e in l.Events(i) <==> e.stage in StageList(l.stores) && l.OnLine(e.stage, i) && e == l.EventOf(e.stage)
  {
    SortIsStable(EventKey, l.Collect(StageList(l.stores), i));
    CollectMember(l, StageList(l.stores), i, e);
    assert e in multiset(l.Events(i)) <==> e in multiset(l.Collect(StageList(l.stores), i));
  }

  lemma {:induction false} BaseBounds(l: Layout)
    requires l.Valid()
    ensures l.BaseTick() <= l.ticks[Fetch] < l.BaseTick() + l.TimeWidth()
    ensures l.ticks[Fetch] <= l.LastTick()
  {
    assert Fetch in StageList(l.stores);
  }

  lemma {:induction false} DivAtLeastOne(a: int, b: nat)
    requires b > 0 && a >= b
    ensures a / b >= 1
  {
    MulMonotone(1, a / b + 1, b);
  }

  /** One line is used exactly when the instruction's life is shorter than a row. */
  lemma {:induction false} OneLineIffCompact(l: Layout)
    requires l.Valid()
    ensures l.NumLines() == 1 <==> l.Compact()
    ensures l.NumLines() >= 1
  {
    BaseBounds(l);
    if !l.Compact() {
      DivAtLeastOne(l.LastTick() - l.BaseTick(), l.TimeWidth());
    }
  }

  lemma {:induction false} DivBounds(a: nat, w: nat, i: nat)
    requires w > 0
    ensures i * w <= a < (i + 1) * w <==> i == a / w
  {
    var q := a / w;
    assert q * w <= a < (q + 1) * w;
    MulMonotone(i, q + 1, w);
    MulMonotone(q, i + 1, w);
  }

  lemma {:induction false} SpanIff(base: nat, w: nat, t: nat, i: nat)
    requires w > 0
    ensures base + i * w <= t < base + i * w + w <==> t >= base && i == (t - base) / w
  {
    if t >= base {
      DivBounds(t - base, w, i);
      assert (i + 1) * w == i * w + w;
    } else {
      MulMonotone(i, 0, w);
    }
  }

  /** The one line that shows a tick from the row of the fetch on. */
  function LineIndex(l: Layout, t: nat): nat
    requires l.Valid() && t >= l.BaseTick()
  {
    if l.Compact() then 0 else (t - l.BaseTick()) / l.TimeWidth()
  }

  lemma {:induction false} LineIndexInRange(l: Layout, t: nat)
    requires l.Valid() && l.BaseTick() <= t <= l.LastTick()
    ensures LineIndex(l, t) < l.NumLines()
  {
    if !l.Compact() {
      ColumnsOrdered(l.TimeWidth(), t - l.BaseTick(), l.LastTick() - l.BaseTick());
    }
  }

  lemma {:induction false} SpannedIff(l: Layout, t: nat, i: nat)
    requires l.Valid() && t <= l.LastTick() && i < l.NumLines()
    ensures l.StartTick(i) <= t < l.EndTick(i) <==> t >= l.BaseTick() && i == LineIndex(l, t)
  {
    OneLineIffCompact(l);
    BaseBounds(l);
    if !l.Compact() {
      SpanIff(l.BaseTick(), l.TimeWidth(), t, i);
    }
  }

  /**
   A recorded stage falls on one line and no other, `LineIndex`, if its tick is not before the
   row of the fetch, and on no line otherwise.
   */
  lemma {:induction false} OnExactlyOneLine(l: Layout, s: Stage, i: nat)
    requires l.Valid() && s in StageList(l.stores) && l.ticks[s] != 0 && i < l.NumLines()
    ensures l.OnLine(s, i) <==> l.ticks[s] >= l.BaseTick() && i == LineIndex(l, l.ticks[s])
    ensures l.ticks[s] >= l.BaseTick() ==> LineIndex(l, l.ticks[s]) < l.NumLines()
  {
    SpannedIff(l, l.ticks[s], i);
    if l.ticks[s] >= l.BaseTick() {
      LineIndexInRange(l, l.ticks[s]);
    }
  }

  // ---------- every recorded stage is drawn once ----------

  lemma {:induction false} ShorthandInjective(s: Stage, t: Stage)
    ensures Shorthand(s) == Shorthand(t) <==> s == t
  {
  }

  ghost predicate DistinctStages(evs: seq<Event>) {
    forall a, b :: 0 <= a < b < |evs| ==> evs[a].stage != evs[b].stage
  }

  lemma {:induction false} CollectDistinct(l: Layout, stages: seq<Stage>, i: nat)
    requires l.Valid() && forall s :: s in stages ==> s in StageList(l.stores)
    requires forall a, b :: 0 <= a < b < |stages| ==> stages[a] != stages[b]
    ensures DistinctStages(l.Collect(stages, i))
  {
    if stages != [] {
      var front := stages[..|stages| - 1];
      CollectDistinct(l, front, i);
      forall e | e in l.Collect(front, i)
        ensures e.stage in front
      {
        CollectMember(l, front, i, e);
      }
    }
  }

  lemma {:induction false} AtMostOnce(evs: seq<Event>, e: Event)
    requires DistinctStages(evs)
    ensures multiset(evs)[e] <= 1
  {
    if evs != [] {
      var front, last := evs[..|evs| - 1], evs[|evs| - 1];
      assert evs == front + [last];
      AtMostOnce(front, e);
      if e == last {
        assert e !in front;
      }
    }
  }

  lemma {:induction false} TwicePresent(evs: seq<Event>, a: nat, b: nat)
    requires a < b < |evs| && evs[a] == evs[b]
    ensures multiset(evs)[evs[a]] >= 2
  {
    assert evs == evs[..b] + evs[b..];
    assert evs[a] in evs[..b] && evs[b] in evs[b..];
  }

  lemma {:induction false} StageListDistinct(stores: bool)
    ensures forall a, b :: 0 <= a < b < |StageList(stores)| ==> StageList(stores)[a] != StageList(stores)[b]
  {
  }

  /** No stage has two events on a line. */
  lemma {:induction false} EventsDistinct(l: Layout, i: nat)
    requires l.Valid()
    ensures DistinctStages(l.Events(i))
  {
    var stages, evs := StageList(l.stores), l.Events(i);
    SortIsStable(EventKey, l.Collect(stages, i));
    StageListDistinct(l.stores);
    CollectDistinct(l, stages, i);
    forall a, b | 0 <= a < b < |evs|
      ensures evs[a].stage != evs[b].stage
    {
      EventsMember(l, i, evs[a]);
      EventsMember(l, i, evs[b]);
      if evs[a].stage == evs[b].stage {
        TwicePresent(evs, a, b);
        AtMostOnce(l.Collect(stages, i), evs[a]);
      }
    }
  }

  ghost predicate Leaves(cycle: nat, hideDispatch: bool, e: Event, m: Mark)
    requires cycle > 0
  {
    !(e.stage == Dispatch && hideDispatch) && m == Mark(e.offset / cycle, Shorthand(e.stage))
  }

  lemma {:induction false} MarksFrom(cycle: nat, hideDispatch: bool, evs: seq<Event>, m: Mark)
    requires cycle > 0
    ensures m in DrawnMarks(cycle, hideDispatch, evs) <==> exists e :: e in evs && Leaves(cycle, hideDispatch, e, m)
  {
    if evs != [] {
      var front, last := evs[..|evs| - 1], evs[|evs| - 1];
      assert evs == front + [last];
      MarksFrom(cycle, hideDispatch, front, m);
      var tail := if last.stage == Dispatch && hideDispatch then [] else [Mark(last.offset / cycle, Shorthand(last.stage))];
      assert DrawnMarks(cycle, hideDispatch, evs) == DrawnMarks(cycle, hideDispatch, front) + tail;
      assert m in tail <==> Leaves(cycle, hideDispatch, last, m);
    }
  }

  ghost predicate DistinctLetters(marks: seq<Mark>) {
    forall a, b :: 0 <= a < b < |marks| ==> marks[a].letter != marks[b].letter
  }

  lemma {:induction false} DistinctSnoc(marks: seq<Mark>, m: Mark)
    requires DistinctLetters(marks) && forall a :: 0 <= a < |marks| ==> marks[a].letter != m.letter
    ensures DistinctLetters(marks + [m])
  {
  }

  lemma {:induction false} MarksDistinct(cycle: nat, hideDispatch: bool, evs: seq<Event>)
    requires cycle > 0 && DistinctStages(evs)
    ensures DistinctLetters(DrawnMarks(cycle, hideDispatch, evs))
  {
    if evs != [] {
      var front, last := evs[..|evs| - 1], evs[|evs| - 1];
      MarksDistinct(cycle, hideDispatch, front);
      var before := DrawnMarks(cycle, hideDispatch, front);
      if last.stage == Dispatch && hideDispatch {
        assert DrawnMarks(cycle, hideDispatch, evs) == before;
      } else {
        forall a | 0 <= a < |before|
          ensures before[a].letter != Shorthand(last.stage)
        {
          MarksFrom(cycle, hideDispatch, front, before[a]);
          var e :| e in front && Leaves(cycle, hideDispatch, e, before[a]);
          ShorthandInjective(e.stage, last.stage);
        }
        DistinctSnoc(before, Mark(last.offset / cycle, Shorthand(last.stage)));
      }
    }
  }

  function MarksOf(l: Layout, i: nat): seq<Mark>
    requires l.Valid()
  {
    DrawnMarks(l.cycle, l.HidesDispatch(), l.Events(i))
  }

  /** A stage leaves its letter on the line it falls on, in its column, unless it is a hidden dispatch. */
  lemma {:induction false} StageMarked(l: Layout, s: Stage, i: nat, c: nat)
    requires l.Valid() && s in StageList(l.stores)
    ensures Mark(c, Shorthand(s)) in MarksOf(l, i) <==>
              l.OnLine(s, i) && c == l.EventOf(s).offset / l.cycle && !(s == Dispatch && l.HidesDispatch())
  {
    var m := Mark(c, Shorthand(s));
    MarksFrom(l.cycle, l.HidesDispatch(), l.Events(i), m);
    EventsMember(l, i, l.EventOf(s));
    if m in MarksOf(l, i) {
      var e :| e in l.Events(i) && Leaves(l.cycle, l.HidesDispatch(), e, m);
      ShorthandInjective(e.stage, s);
      EventsMember(l, i, e);
    } else {
      assert !(l.EventOf(s) in l.Events(i) && Leaves(l.cycle, l.HidesDispatch(), l.EventOf(s), m));
    }
  }

  // ---------- the same in terms of the ticks alone ----------

  lemma {:induction false} DivShift(t: nat, q: nat, w: nat)
    requires w > 0
    ensures t >= q * w <==> t / w >= q
    ensures t >= q * w ==> (t - q * w) / w == t / w - q
  {
    assert t / w * w <= t < (t / w + 1) * w;
    MulMonotone(t / w, q, w);
    MulMonotone(q, t / w + 1, w);
    if t >= q * w {
      var r := t / w - q;
      assert r * w == t / w * w - q * w && (r + 1) * w == (t / w + 1) * w - q * w;
      DivBounds(t - q * w, w, r);
    }
  }

  /** The row a tick belongs to, counted from the row of the fetch. */
  lemma {:induction false} RowsFromFetch(l: Layout, t: nat)
    requires l.Valid()
    ensures var w := l.TimeWidth();
            && (t >= l.BaseTick() <==> t / w >= l.ticks[Fetch] / w)
            && (t >= l.BaseTick() ==> (t - l.BaseTick()) / w == t / w - l.ticks[Fetch] / w)
  {
    DivShift(t, l.ticks[Fetch] / l.TimeWidth(), l.TimeWidth());
  }

  /** A life shorter than a row takes one line; any other one line for each row it touches. */
  lemma {:induction false} LineCount(l: Layout)
    requires l.Valid()
    ensures var w := l.width * l.cycle;
            w > 0 && l.NumLines() == if l.LastTick() - l.ticks[Fetch] < w then 1 else l.LastTick() / w - l.ticks[Fetch] / w + 1
    ensures forall s :: s in StageList(l.stores) ==> l.ticks[s] <= l.LastTick()
    ensures exists s :: s in StageList(l.stores) && l.ticks[s] == l.LastTick()
  {
    BaseBounds(l);
    RowsFromFetch(l, l.LastTick());
  }

  /** Where a stage is shown: nowhere in front of the row of the fetch, otherwise on its own row's line. */
  lemma {:induction false} StageOnLine(l: Layout, s: Stage, i: nat)
    requires l.Valid() && s in StageList(l.stores) && i < l.NumLines()
    ensures var w := l.width * l.cycle;
            w > 0 &&
            (l.OnLine(s, i) <==>
               && l.ticks[s] != 0 && l.ticks[s] / w >= l.ticks[Fetch] / w
               && i == if l.LastTick() - l.ticks[Fetch] < w then 0 else l.ticks[s] / w - l.ticks[Fetch] / w)
  {
    LineIndexIs(l, l.ticks[s]);
    if l.ticks[s] != 0 {
      OnExactlyOneLine(l, s, i);
    }
  }

  lemma {:induction false} LineIndexIs(l: Layout, t: nat)
    requires l.Valid()
    ensures var w := l.width * l.cycle;
            && w > 0 && (t >= l.BaseTick() <==> t / w >= l.ticks[Fetch] / w)
            && (t >= l.BaseTick() ==>
                  LineIndex(l, t) == if l.LastTick() - l.ticks[Fetch] < w then 0 else t / w - l.ticks[Fetch] / w)
  {
    RowsFromFetch(l, t);
  }

  /**
   On line `i`, stage `s` leaves its letter in column `c` exactly when the stage was reached, not
   before the row of the fetch, its tick belongs to that line and that column, and it is not a
   dispatch at the tick of the issue.  No letter occurs twice.
   */
  lemma {:induction false} StageDrawnOnce(l: Layout, s: Stage, i: nat, c: nat)
    requires l.Valid() && s in StageList(l.stores) && i < l.NumLines()
    ensures var w := l.width * l.cycle;
            w > 0 &&
            (Mark(c, Shorthand(s)) in MarksOf(l, i) <==>
               && l.ticks[s] != 0 && l.ticks[s] / w >= l.ticks[Fetch] / w
               && i == (if l.LastTick() - l.ticks[Fetch] < w then 0 else l.ticks[s] / w - l.ticks[Fetch] / w)
               && c == l.ticks[s] % w / l.cycle
               && !(s == Dispatch && l.ticks[Dispatch] == l.ticks[Issue]))
    ensures DistinctLetters(MarksOf(l, i))
  {
    StageMarked(l, s, i, c);
    StageOnLine(l, s, i);
    EventsDistinct(l, i);
    MarksDistinct(l.cycle, l.HidesDispatch(), l.Events(i));
  }

  /** Nothing but the letters of stages is drawn. */
  lemma {:induction false} OnlyStagesDrawn(l: Layout, i: nat, m: Mark)
    requires l.Valid() && m in MarksOf(l, i)
    ensures exists s :: s in StageList(l.stores) && m.letter == Shorthand(s)
  {
    MarksFrom(l.cycle, l.HidesDispatch(), l.Events(i), m);
    var e :| e in l.Events(i) && Leaves(l.cycle, l.HidesDispatch(), e, m);
    EventsMember(l, i, e);
  }

  /** The stages shown and their letters, as the legend gives them. */
  lemma {:induction false} StageLetters(stores: bool)
    ensures Shorthand(Fetch) == 'f' && Shorthand(Decode) == 'd' && Shorthand(Rename) == 'n' && Shorthand(Dispatch) == 'p'
    ensures Shorthand(Issue) == 'i' && Shorthand(Complete) == 'c' && Shorthand(Retire) == 'r' && Shorthand(Store) == 's'
    ensures forall s: Stage :: s in StageList(stores) <==> s != Store || stores
  {
    var all := [Fetch, Decode, Rename, Dispatch, Issue, Complete, Retire];
    assert StageList(stores) == all + if stores then [Store] else [];
    forall s: Stage
      ensures s in all <==> s != Store
    {
      match s
      case Fetch => assert s == all[0];
      case Decode => assert s == all[1];
      case Rename => assert s == all[2];
      case Dispatch => assert s == all[3];
      case Issue => assert s == all[4];
      case Complete => assert s == all[5];
      case Retire => assert s == all[6];
      case Store =>
    }
  }

  /** A line is its letters, with `=` in the empty columns of an instruction that never retired and dots otherwise. */
  lemma {:induction false} LinePicture(l: Layout, i: nat)
    requires l.Valid()
    ensures l.Row(i) == Cells(MarksOf(l, i), if l.ticks[Retire] == 0 then '=' else '.', l.width)
  {
  }

  /** A cell holds the letters of its column, or else the filling character. */
  lemma {:induction false} CellHolds(marks: seq<Mark>, dot: char, c: nat, x: char)
    ensures x in Cell(marks, dot, c) <==>
              if exists k :: 0 <= k < |marks| && marks[k].column == c
              then exists k :: 0 <= k < |marks| && marks[k].column == c && marks[k].letter == x
              else x == dot
  {
    LettersHold(marks, c, x);
    LettersIff(marks, c);
  }

  lemma {:induction false} LettersHold(marks: seq<Mark>, c: nat, x: char)
    ensures x in Letters(marks, c) <==> exists k :: 0 <= k < |marks| && marks[k].column == c && marks[k].letter == x
  {
    if marks != [] {
      var front := marks[..|marks| - 1];
      LettersHold(front, c, x);
      assert forall k :: 0 <= k < |front| ==> front[k] == marks[k];
    }
  }

  lemma {:induction false} OffsetInRow(l: Layout, i: nat, e: Event)
    requires l.Valid() && e in l.Events(i)
    ensures e.offset < l.width * l.cycle
  {
    EventsMember(l, i, e);
  }

  /** Each uncoloured line has the length of the row plus one for every letter that shares a column. */
  lemma {:induction false} LineLength(l: Layout, i: nat)
    requires l.Valid()
    ensures |l.Row(i)| == l.width + |MarksOf(l, i)| - |Columns(MarksOf(l, i))|
  {
    var marks := MarksOf(l, i);
    forall m | m in marks
      ensures m.column < l.width
    {
      MarksFrom(l.cycle, l.HidesDispatch(), l.Events(i), m);
      var e :| e in l.Events(i) && Leaves(l.cycle, l.HidesDispatch(), e, m);
      OffsetInRow(l, i, e);
      ColumnInRow(l.cycle, l.width, e.offset);
    }
    RowLength(marks, l.Dot(), l.width);
  }

  // ---------- printing an instruction ----------

  method CollectEvents(l: Layout, i: nat) returns (evs: seq<Event>)
    requires l.Valid()
    ensures evs == l.Collect(StageList(l.stores), i)
  {
    var stages := StageList(l.stores);
    evs := [];
    for k := 0 to |stages|
      invariant evs == l.Collect(stages[..k], i)
    {
      var tick := l.ticks[stages[k]];
      assert stages[..k + 1][..k] == stages[..k];
      if tick != 0 && l.StartTick(i) <= tick < l.EndTick(i) {
        evs := evs + [Event(tick % l.TimeWidth(), stages[k])];
      }
    }
    assert stages[..|stages|] == stages;
  }

  lemma {:induction false} EventsOrdered(l: Layout, i: nat)
    requires l.Valid()
    ensures forall a, b :: 0 <= a < b < |l.Events(i)| ==> l.Events(i)[a].offset <= l.Events(i)[b].offset
    ensures forall a :: 0 <= a < |l.Events(i)| ==> l.Events(i)[a].offset < l.width * l.cycle
  {
    var evs := l.Events(i);
    SortIsStable(EventKey, l.Collect(StageList(l.stores), i));
    forall a, b | 0 <= a < b < |evs|
      ensures evs[a].offset <= evs[b].offset
    {
      assert EventKey(evs[a]) <= EventKey(evs[b]);
    }
    forall a | 0 <= a < |evs|
      ensures evs[a].offset < l.width * l.cycle
    {
      OffsetInRow(l, i, evs[a]);
    }
  }

  /** Events at the same offset are drawn in the alphabetical order of their stages. */
  lemma {:induction false} TiesAlphabetical(l: Layout, i: nat, a: nat, b: nat)
    requires l.Valid() && a < b < |l.Events(i)| && l.Events(i)[a].offset == l.Events(i)[b].offset
    ensures Precedes(StageName(l.Events(i)[a].stage), StageName(l.Events(i)[b].stage))
  {
    var evs := l.Events(i);
    SortIsStable(EventKey, l.Collect(StageList(l.stores), i));
    EventsDistinct(l, i);
    assert EventKey(evs[a]) <= EventKey(evs[b]) && evs[a].stage != evs[b].stage;
    RankIsAlphabetical(evs[a].stage, evs[b].stage);
    RankInjective(evs[a].stage, evs[b].stage);
  }

  lemma {:induction false} RankInjective(s: Stage, t: Stage)
    ensures NameRank(s) == NameRank(t) ==> s == t
  {
  }

  ghost predicate NeverStarted(l: Layout)
    requires l.Valid()
  {
    forall s :: s in StageList(l.stores) ==> l.ticks[s] == 0
  }

  /** A single line without events occurs for an instruction with no tick at all, and for no other. */
  lemma {:induction false} EmptyLineIff(l: Layout)
    requires l.Valid()
    ensures l.NumLines() == 1 && l.Events(0) == [] <==> NeverStarted(l)
  {
    OneLineIffCompact(l);
    BaseBounds(l);
    if NeverStarted(l) {
      assert l.LastTick() == 0;
      if l.Events(0) != [] {
        EventsMember(l, 0, l.Events(0)[0]);
      }
    } else if l.NumLines() == 1 {
      var s :| s in StageList(l.stores) && l.ticks[s] != 0;
      var t := if l.ticks[Fetch] != 0 then Fetch else s;
      assert l.ticks[t] >= l.BaseTick();
      OnExactlyOneLine(l, t, 0);
      EventsMember(l, 0, l.EventOf(t));
    }
  }

  method PrintLine(l: Layout, i: nat) returns (row: string, empty: bool)
    requires l.Valid()
    ensures row == l.Row(i) && (empty <==> l.Events(i) == [])
  {
    var evs := CollectEvents(l, i);
    evs := Sort(EventKey, evs);
    assert evs == l.Events(i);
    EventsOrdered(l, i);
    row := DrawRow(l.width, l.cycle, l.Dot(), l.HidesDispatch(), evs);
    empty := evs == [];
  }

  function Rows(l: Layout, n: nat): (rows: seq<string>)
    requires l.Valid()
    ensures |rows| == n
  {
    if n == 0 then [] else Rows(l, n - 1) + [l.Row(n - 1)]
  }

  lemma {:induction false} RowsAt(l: Layout, n: nat, i: nat)
    requires l.Valid() && i < n
    ensures Rows(l, n)[i] == l.Row(i)
  {
    if i < n - 1 {
      RowsAt(l, n - 1, i);
    }
  }

  /** Prints `n` rows; a lone row without events is an error. */
  method PrintLines(l: Layout, n: nat) returns (rows: Option<seq<string>>)
    requires l.Valid()
    ensures rows.None? <==> n == 1 && l.Events(0) == []
    ensures rows.Some? ==> rows.value == Rows(l, n)
  {
    var printed: seq<string> := [];
    for i := 0 to n
      invariant printed == Rows(l, i)
      invariant i > 0 ==> !(n == 1 && l.Events(0) == [])
    {
      var row, empty := PrintLine(l, i);
      if n == 1 && empty {
        return None;
      }
      printed := printed + [row];
    }
    rows := Some(printed);
  }

  /** Prints the rows; an instruction with no tick at all makes the printer fail. */
  method PrintInst(l: Layout) returns (rows: Option<seq<string>>)
    requires l.Valid()
    ensures rows.None? <==> NeverStarted(l)
    ensures rows.Some? ==> l.NumLines() >= 1 && rows.value == Rows(l, l.NumLines())
  {
    OneLineIffCompact(l);
    EmptyLineIff(l);
    rows := PrintLines(l, l.NumLines());
  }
}
