/**
 Finding the comment blocks at the head of a source file of the C family
 (`find_copyright_block` of util/find_copyrights.py): a scanner that carries a mode and a
 start line from line to line.
 */
module CommentBlocks {
  import opened Wrappers
  import opened Text

  // ---------- what a single line is ----------

  predicate StartsWith(s: string, p: string) {
    |p| <= |s| && s[..|p|] == p
  }

  /** The first place where `p` occurs in `s`, if there is one. */
  function Index(s: string, p: string): (r: Option<nat>)
    ensures r.Some? ==> r.value <= |s| && StartsWith(s[r.value..], p)
  {
    if StartsWith(s, p) then Some(0)
    else if s == "" then None
    else
      var r :- Index(s[1..], p);
      assert s[r + 1..] == s[1..][r..];
      Some(r + 1)
  }

  /** No earlier place fits, and nothing is found only where no place fits. */
  lemma {:induction false} IndexIs(s: string, p: string, k: nat)
    requires k <= |s| && StartsWith(s[k..], p)
    ensures Index(s, p).Some? && Index(s, p).value <= k
  {
    if k == 0 {
      assert s[0..] == s;
    } else {
      assert s[k..] == s[1..][k - 1..];
      IndexIs(s[1..], p, k - 1);
    }
  }

  predicate IsBlank(line: string) {
    Strip(line) == ""
  }

  predicate HasSlashes(line: string) {
    Index(line, "//").Some?
  }

  predicate Opens(line: string) {
    Index(line, "/*").Some?
  }

  predicate Closes(line: string) {
    Index(line, "*/").Some?
  }

  /** Something else stands in front of the slashes. */
  predicate CodeBeforeSlashes(line: string)
    requires HasSlashes(line)
  {
    !IsBlank(line[..Index(line, "//").value])
  }

  predicate StartsCopyright(line: string)
    requires HasSlashes(line)
  {
    StartsWith(StripLeft(line[Index(line, "//").value + 2..]), "Copyright")
  }

  predicate SkipsSpacesToMode(s: string) {
    if s != "" && s[0] == ' ' then SkipsSpacesToMode(s[1..])
    else StartsWith(s, "mode:") && Index(s[5..], "-*-").Some?
  }

  /** An editor mode line. */
  predicate IsModeLine(s: string) {
    s != "" && ((StartsWith(s, "-*-") && SkipsSpacesToMode(s[3..])) || IsModeLine(s[1..]))
  }

  /** What the scanner looks at in a line. */
  datatype Marks = Marks(slashes: bool, opens: bool, closes: bool, code: bool, copyright: bool, blank: bool, modeLine: bool)

  /** A blank line shows no comment marks. */
  type Line = m: Marks | m.blank ==> !m.slashes && !m.opens
    witness Marks(false, false, false, false, false, true, false)

  lemma {:induction false} BlankHasNoMarks(line: string)
    requires IsBlank(line)
    ensures !HasSlashes(line) && !Opens(line)
  {
    StripEmpty(line);
    NoMarkInSpaces(line, "//");
    NoMarkInSpaces(line, "/*");
  }

  lemma {:induction false} NoMarkInSpaces(line: string, p: string)
    requires p != "" && p[0] == '/' && forall i :: 0 <= i < |line| ==> IsSpace(line[i])
    ensures Index(line, p).None?
  {
    if line != "" {
      if |p| <= |line| {
        assert line[..|p|][0] == line[0];
      }
      NoMarkInSpaces(line[1..], p);
    }
  }

  function Describe(line: string): Line {
    assert IsBlank(line) ==> !HasSlashes(line) && !Opens(line) by {
      if IsBlank(line) {
        BlankHasNoMarks(line);
      }
    }
    Marks(HasSlashes(line), Opens(line), Closes(line), HasSlashes(line) && CodeBeforeSlashes(line),
          HasSlashes(line) && StartsCopyright(line), IsBlank(line), IsModeLine(line))
  }

  function Described(lines: seq<string>): (r: seq<Line>)
    ensures |r| == |lines|
  {
    if lines == [] then [] else [Describe(lines[0])] + Described(lines[1..])
  }

  lemma {:induction false} DescribedAt(lines: seq<string>, i: nat)
    requires i < |lines|
    ensures Described(lines)[i] == Describe(lines[i])
  {
    if i > 0 {
      DescribedAt(lines[1..], i - 1);
    }
  }

  datatype Block = Block(first: nat, last: nat)

  /** How a scan ends; `open` is the first line that belongs to no block found and may start one. */
  datatype End = Finished(open: nat) | Stopped(open: nat) | AssertionFailed(open: nat)

  datatype Scan = Scan(blocks: seq<Block>, end: End)

  function Prefixed(b: Block, s: Scan): Scan {
    Scan([b] + s.blocks, s.end)
  }

  // ---------- the blocks of a file, by recursive descent ----------

  /** The first line from `i` on that closes a comment. */
  function ClosingLine(lines: seq<Line>, i: nat): (j: nat)
    requires i <= |lines|
    ensures i <= j <= |lines| && (j < |lines| ==> lines[j].closes)
    ensures forall k :: i <= k < j ==> !lines[k].closes
    decreases |lines| - i
  {
    if i == |lines| || lines[i].closes then i else ClosingLine(lines, i + 1)
  }

  /** The blocks from line `i` on, outside any comment. */
  function Blocks(lines: seq<Line>, i: nat): Scan
    requires i <= |lines|
    decreases |lines| - i, 2
  {
    if i == |lines| then Scan([], Finished(i))
    else if i == 0 && lines[0].modeLine then Blocks(lines, 1)
    else if lines[i].slashes then
      if lines[i].opens then Scan([], AssertionFailed(i))
      else if lines[i].code then Scan([], Stopped(i))
      else SlashBlock(lines, i, i + 1)
    else if lines[i].opens then StarBlock(lines, i)
    else if lines[i].blank then Blocks(lines, i + 1)
    else Scan([], Stopped(i))
  }

  /** The block comment opened on line `i`: it ends on the first later line that closes one. */
  function StarBlock(lines: seq<Line>, i: nat): Scan
    requires i < |lines|
    decreases |lines| - i, 1
  {
    var j := ClosingLine(lines, i + 1);
    if j == |lines| then Scan([], Finished(i)) else Prefixed(Block(i, j), Blocks(lines, j + 1))
  }

  /** Inside a block of line comments that began on line `start`. */
  function SlashBlock(lines: seq<Line>, start: nat, i: nat): Scan
    requires start < i <= |lines|
    decreases |lines| - i, 2
  {
    if i == |lines| then Scan([], Finished(start))
    else if lines[i].slashes then
      if lines[i].opens then Scan([], AssertionFailed(start))
      else if lines[i].code then Scan([], Stopped(start))
      else if lines[i].copyright then Prefixed(Block(start, i - 1), SlashBlock(lines, i, i + 1))
      else SlashBlock(lines, start, i + 1)
    else if lines[i].blank then SlashBlock(lines, start, i + 1)
    else if lines[i].opens then Prefixed(Block(start, i - 1), StarBlock(lines, i))
    else Scan([Block(start, i - 1)], Stopped(i))
  }

  // ---------- the scanner ----------

  datatype Mode = Outside | InStar | InSlashes

  /** What is still to come, given the scanner's mode in front of line `i`. */
  ghost function Remaining(lines: seq<Line>, mode: Mode, start: Option<nat>, i: nat): Scan
    requires i <= |lines| && (mode != Outside ==> start.Some? && start.value < i)
  {
    match mode
    case Outside => Blocks(lines, i)
    case InSlashes => SlashBlock(lines, start.value, i)
    case InStar =>
      var j := ClosingLine(lines, i);
      if j == |lines| then Scan([], Finished(start.value)) else Prefixed(Block(start.value, j), Blocks(lines, j + 1))
  }

  /** `found` followed by what remains is the whole result. */
  ghost predicate Adds(found: seq<Block>, rest: Scan, all: Scan) {
    found + rest.blocks == all.blocks && rest.end == all.end
  }

  datatype Step = Step(mode: Mode, start: Option<nat>, found: seq<Block>, stop: Option<End>)

  /**
   One pass through the scanner's loop body.  The asserts about mode and start line are the
   scanner's own; only the one about two kinds of marks on a line can fail.
   */
  method ScanLine(ghost lines: seq<Line>, i: nat, line: Line, mode: Mode, start: Option<nat>) returns (s: Step)
    requires i < |lines| && lines[i] == line && (mode != Outside ==> start.Some? && start.value < i)
    requires i == 0 ==> mode == Outside
    ensures s.mode != Outside ==> s.start.Some? && s.start.value <= i
    ensures s.stop.Some? ==> Remaining(lines, mode, start, i) == Scan(s.found, s.stop.value)
    ensures s.stop.None? ==> Adds(s.found, Remaining(lines, s.mode, s.start, i + 1), Remaining(lines, mode, start, i))
  {
    if i == 0 && line.modeLine {
      return Step(mode, start, [], None);
    }
    if mode == InStar {
      assert start.Some?;
      if line.closes {
        return Step(Outside, start, [Block(start.value, i)], None);
      }
      return Step(mode, start, [], None);
    }
    if line.slashes {
      var open := if mode == Outside then i else start.value;
      if line.opens {
        return Step(mode, start, [], Some(AssertionFailed(open)));
      }
      if line.code {
        return Step(mode, start, [], Some(Stopped(open)));
      }
      if mode == Outside {
        return Step(InSlashes, Some(i), [], None);
      }
      if line.copyright {
        return Step(mode, Some(i), [Block(start.value, i - 1)], None);
      }
      return Step(mode, start, [], None);
    }
    var found: seq<Block>, mode' := [], mode;
    if mode == InSlashes {
      assert start.Some?;
      if line.blank {
        return Step(mode, start, [], None);
      }
      found, mode' := [Block(start.value, i - 1)], Outside;
      if !line.opens {
        return Step(mode', start, found, Some(Stopped(i)));
      }
    }
    if line.opens {
      assert mode' == Outside;
      assert Remaining(lines, InStar, Some(i), i + 1) == StarBlock(lines, i);
      return Step(InStar, Some(i), found, None);
    }
    if mode' == Outside && !line.blank {
      return Step(mode', start, found, Some(Stopped(i)));
    }
    return Step(mode', start, found, None);
  }

  method ScanText(text: seq<string>) returns (result: Scan)
    ensures result == Blocks(Described(text), 0)
  {
    ghost var lines := Described(text);
    var mode, start: Option<nat> := Outside, None;
    var found: seq<Block> := [];
    for i := 0 to |text|
      invariant mode != Outside ==> start.Some? && start.value < i
      invariant i == 0 ==> mode == Outside
      invariant Adds(found, Remaining(lines, mode, start, i), Blocks(lines, 0))
    {
      DescribedAt(text, i);
      var step := ScanLine(lines, i, Describe(text[i]), mode, start);
      if step.stop.Some? {
        return Scan(found + step.found, step.stop.value);
      }
      AddsMore(found, step.found, Remaining(lines, step.mode, step.start, i + 1), Remaining(lines, mode, start, i), Blocks(lines, 0));
      mode, start, found := step.mode, step.start, found + step.found;
    }
    NothingMore(lines, mode, start);
    result := Scan(found, Finished(if mode == Outside then |text| else start.value));
  }

  /** The blocks of a file of the C family, and how the scan ends. */
  method FindBlocks(text: seq<string>) returns (result: Scan)
    ensures result == Blocks(Described(text), 0) && IsScan(Described(text), 0, result)
    ensures forall k :: 0 <= k < |result.blocks| ==> BlockOfText(text, result.blocks[k])
  {
    result := ScanText(text);
    BlocksScan(Described(text), 0);
    forall k | 0 <= k < |result.blocks|
      ensures BlockOfText(text, result.blocks[k])
    {
      CommentOfText(text, result.blocks[k]);
    }
  }

  lemma {:induction false} NothingMore(lines: seq<Line>, mode: Mode, start: Option<nat>)
    requires mode != Outside ==> start.Some? && start.value < |lines|
    ensures Remaining(lines, mode, start, |lines|) == Scan([], Finished(if mode == Outside then |lines| else start.value))
  {
  }

  lemma {:induction false} AddsMore(found: seq<Block>, more: seq<Block>, later: Scan, rest: Scan, all: Scan)
    requires Adds(found, rest, all) && Adds(more, later, rest)
    ensures Adds(found + more, later, all)
  {
    assert found + more + later.blocks == found + (more + later.blocks);
  }

  // ---------- what a scan is ----------

  /** The first line is passed over when it sets an editor mode. */
  ghost predicate Skipped(lines: seq<Line>, k: nat)
    requires k < |lines|
  {
    k == 0 && lines[0].modeLine
  }

  /** A line of line comments: slashes with nothing in front of them and no block comment opened. */
  ghost predicate SlashLine(line: Line) {
    line.slashes && !line.opens && !line.code
  }

  /** A line that a running block of line comments takes in. */
  ghost predicate Continues(line: Line) {
    line.blank || (SlashLine(line) && !line.copyright)
  }

  /** A line in front of which a running block of line comments ends: a new notice, or no line comment. */
  ghost predicate Ends(line: Line) {
    (SlashLine(line) && line.copyright) || (!line.slashes && !line.blank)
  }

  ghost predicate BothMarks(line: Line) {
    line.slashes && line.opens
  }

  ghost predicate CodeInFront(line: Line) {
    line.slashes && !line.opens && line.code
  }

  /** A line without any comment mark that is not blank. */
  ghost predicate OnlyCode(line: Line) {
    !line.slashes && !line.opens && !line.blank
  }

  /** Line comments run from line `a` up to, not including, line `e`. */
  ghost predicate IsRun(lines: seq<Line>, a: nat, e: nat) {
    && a < e <= |lines|
    && SlashLine(lines[a]) && !Skipped(lines, a)
    && forall k :: a < k < e ==> Continues(lines[k])
  }

  ghost predicate OpensAt(lines: seq<Line>, a: nat) {
    a < |lines| && lines[a].opens && !lines[a].slashes && !Skipped(lines, a)
  }

  /** From an opening line to the first later line that closes. */
  ghost predicate IsStarBlock(lines: seq<Line>, b: Block) {
    && OpensAt(lines, b.first) && b.first < b.last < |lines| && lines[b.last].closes
    && forall k :: b.first < k < b.last ==> !lines[k].closes
  }

  /** A run of line comments that cannot be extended. */
  ghost predicate IsSlashBlock(lines: seq<Line>, b: Block) {
    IsRun(lines, b.first, b.last + 1) && b.last + 1 < |lines| && Ends(lines[b.last + 1])
  }

  ghost predicate IsComment(lines: seq<Line>, b: Block) {
    IsStarBlock(lines, b) || IsSlashBlock(lines, b)
  }

  /** Blocks lie between lines `from` and `to`, in order, without sharing lines. */
  ghost predicate Ordered(blocks: seq<Block>, from: nat, to: nat) {
    && (forall k :: 0 <= k < |blocks| ==> from <= blocks[k].first <= blocks[k].last < to)
    && (forall k, l :: 0 <= k < l < |blocks| ==> blocks[k].last < blocks[l].first)
  }

  ghost predicate Passed(lines: seq<Line>, k: nat)
    requires k < |lines|
  {
    lines[k].blank || Skipped(lines, k)
  }

  /** Line `k` is in a block, or one the scanner passes over between blocks. */
  ghost predicate Accounted(lines: seq<Line>, blocks: seq<Block>, k: nat)
    requires k < |lines|
  {
    Passed(lines, k) || exists j :: 0 <= j < |blocks| && blocks[j].first <= k <= blocks[j].last
  }

  /** The scanner meets line `k` outside block comments, with a run of line comments from `o` on or right at `o`. */
  ghost predicate Meets(lines: seq<Line>, o: nat, k: nat) {
    k < |lines| && (if k == o then !Skipped(lines, o) else IsRun(lines, o, k))
  }

  /** A block comment opened at `o` is never closed. */
  ghost predicate Unclosed(lines: seq<Line>, o: nat) {
    OpensAt(lines, o) && forall k :: o < k < |lines| ==> !lines[k].closes
  }

  /** Why a scan ends where it does. */
  ghost predicate Explained(lines: seq<Line>, end: End) {
    var o := end.open;
    match end
    case Finished(_) =>
      o == |lines| || Unclosed(lines, o) || IsRun(lines, o, |lines|)
    case Stopped(_) =>
      || (Meets(lines, o, o) && OnlyCode(lines[o]))
      || exists k: nat :: Meets(lines, o, k) && CodeInFront(lines[k])
    case AssertionFailed(_) =>
      exists k: nat :: Meets(lines, o, k) && BothMarks(lines[k])
  }

  /**
   The result of scanning from line `from` on, without reference to a scanner: ordered comments,
   every line in front of the end accounted for, and a reason for the end.
   */
  ghost predicate IsScan(lines: seq<Line>, from: nat, s: Scan) {
    && from <= s.end.open <= |lines|
    && Ordered(s.blocks, from, s.end.open)
    && (forall k :: 0 <= k < |s.blocks| ==> IsComment(lines, s.blocks[k]))
    && (forall k :: from <= k < s.end.open ==> Accounted(lines, s.blocks, k))
    && Explained(lines, s.end)
  }

  // ---------- the scanner's result is a scan ----------

  lemma {:induction false} ScanPrefixed(lines: seq<Line>, b: Block, s: Scan)
    requires IsScan(lines, b.last + 1, s) && IsComment(lines, b)
    ensures IsScan(lines, b.first, Prefixed(b, s))
  {
    var all := Prefixed(b, s).blocks;
    assert all[0] == b && forall k :: 0 < k < |all| ==> all[k] == s.blocks[k - 1];
    forall k | b.first <= k < s.end.open
      ensures Accounted(lines, all, k)
    {
      if k <= b.last {
        assert all[0].first <= k <= all[0].last;
      } else {
        assert Accounted(lines, s.blocks, k);
        if j :| 0 <= j < |s.blocks| && s.blocks[j].first <= k <= s.blocks[j].last {
          assert all[j + 1].first <= k <= all[j + 1].last;
        }
      }
    }
  }

  /** A line passed over in front of a scan leaves it a scan. */
  lemma {:induction false} ScanSkip(lines: seq<Line>, i: nat, s: Scan)
    requires i < |lines| && IsScan(lines, i + 1, s) && Passed(lines, i)
    ensures IsScan(lines, i, s)
  {
    forall k | i <= k < s.end.open
      ensures Accounted(lines, s.blocks, k)
    {
      if k > i {
        assert Accounted(lines, s.blocks, k);
      }
    }
  }

  /** In front of a line that ends a run, the run is a block and the scan goes on outside. */
  lemma {:induction false} RunEnds(lines: seq<Line>, start: nat, i: nat)
    requires start < i < |lines| && Ends(lines[i])
    ensures SlashBlock(lines, start, i) == Prefixed(Block(start, i - 1), Blocks(lines, i))
  {
    var b := Block(start, i - 1);
    assert [b] + [] == [b];
  }

  lemma {:induction false} BlocksScan(lines: seq<Line>, i: nat)
    requires i <= |lines|
    ensures IsScan(lines, i, Blocks(lines, i))
    decreases |lines| - i, 2
  {
    if i < |lines| {
      if Skipped(lines, i) || lines[i].blank {
        BlocksScan(lines, i + 1);
        ScanSkip(lines, i, Blocks(lines, i + 1));
      } else if lines[i].slashes {
        if SlashLine(lines[i]) {
          SlashBlockScan(lines, i, i + 1);
        } else {
          assert Meets(lines, i, i);
        }
      } else if lines[i].opens {
        StarBlockScan(lines, i);
      }
    }
  }

  lemma {:induction false} StarBlockScan(lines: seq<Line>, i: nat)
    requires OpensAt(lines, i)
    ensures IsScan(lines, i, StarBlock(lines, i))
    decreases |lines| - i, 1
  {
    var j := ClosingLine(lines, i + 1);
    if j < |lines| {
      BlocksScan(lines, j + 1);
      ScanPrefixed(lines, Block(i, j), Blocks(lines, j + 1));
    }
  }

  lemma {:induction false} SlashBlockScan(lines: seq<Line>, start: nat, i: nat)
    requires IsRun(lines, start, i)
    ensures IsScan(lines, start, SlashBlock(lines, start, i))
    decreases |lines| - i, 3
  {
    if i < |lines| {
      if Continues(lines[i]) {
        SlashBlockScan(lines, start, i + 1);
      } else if Ends(lines[i]) {
        RunEnds(lines, start, i);
        BlocksScan(lines, i);
        ScanPrefixed(lines, Block(start, i - 1), Blocks(lines, i));
      } else {
        assert Meets(lines, start, i);
      }
    }
  }

  // ---------- and the only one ----------

  /** What stands behind the first block of a scan is a scan. */
  lemma {:induction false} ScanRest(lines: seq<Line>, from: nat, s: Scan)
    requires IsScan(lines, from, s) && s.blocks != []
    ensures IsScan(lines, s.blocks[0].last + 1, Scan(s.blocks[1..], s.end))
    ensures s == Prefixed(s.blocks[0], Scan(s.blocks[1..], s.end))
  {
    var rest := s.blocks[1..];
    forall k | s.blocks[0].last < k < s.end.open
      ensures Accounted(lines, rest, k)
    {
      assert Accounted(lines, s.blocks, k);
      if j :| 0 <= j < |s.blocks| && s.blocks[j].first <= k <= s.blocks[j].last {
        assert rest[j - 1].first <= k <= rest[j - 1].last;
      }
    }
  }

  /** A line that is passed over belongs to no block and does not end a scan. */
  lemma {:induction false} ScanBehind(lines: seq<Line>, i: nat, s: Scan)
    requires i < |lines| && IsScan(lines, i, s) && Passed(lines, i)
    ensures IsScan(lines, i + 1, s)
  {
    forall k | 0 <= k < |s.blocks|
      ensures s.blocks[k].first != i
    {
      assert IsComment(lines, s.blocks[k]);
    }
    forall k | i + 1 <= k < s.end.open
      ensures Accounted(lines, s.blocks, k)
    {
      assert Accounted(lines, s.blocks, k);
    }
  }

  /** At any other line a scan either ends or has a block. */
  lemma {:induction false} ScanAt(lines: seq<Line>, i: nat, s: Scan)
    requires i < |lines| && IsScan(lines, i, s) && !Passed(lines, i)
    ensures if s.blocks == [] then s.end.open == i else s.blocks[0].first == i
  {
    if s.end.open > i {
      assert Accounted(lines, s.blocks, i);
      var j :| 0 <= j < |s.blocks| && s.blocks[j].first <= i <= s.blocks[j].last;
      assert s.blocks[0].first <= s.blocks[j].first;
    }
  }

  lemma {:induction false} HasRoom(blocks: seq<Block>, from: nat, to: nat)
    requires Ordered(blocks, from, to)
    ensures blocks != [] ==> from < to
  {
    if blocks != [] {
      assert from <= blocks[0].first <= blocks[0].last < to;
    }
  }

  lemma {:induction false} CommentsStart(lines: seq<Line>)
    ensures forall b :: IsComment(lines, b) ==> b.first < |lines| && (OpensAt(lines, b.first) || SlashLine(lines[b.first]))
  {
  }

  lemma {:induction false} OnlyBlocks(lines: seq<Line>, i: nat, s: Scan)
    requires i <= |lines| && IsScan(lines, i, s)
    ensures s == Blocks(lines, i)
    decreases |lines| - i, 2
  {
    if i == |lines| {
      HasRoom(s.blocks, i, s.end.open);
    } else if Passed(lines, i) {
      ScanBehind(lines, i, s);
      OnlyBlocks(lines, i + 1, s);
    } else if OpensAt(lines, i) {
      OnlyStarBlock(lines, i, s);
    } else if SlashLine(lines[i]) {
      OnlySlashBlock(lines, i, i + 1, s);
    } else {
      ScanAt(lines, i, s);
      CommentsStart(lines);
    }
  }

  lemma {:induction false} OnlyStarBlock(lines: seq<Line>, i: nat, s: Scan)
    requires OpensAt(lines, i) && IsScan(lines, i, s)
    ensures s == StarBlock(lines, i)
    decreases |lines| - i, 1
  {
    ScanAt(lines, i, s);
    if s.blocks != [] {
      var b := s.blocks[0];
      assert IsStarBlock(lines, b);
      assert b.last == ClosingLine(lines, i + 1);
      ScanRest(lines, i, s);
      OnlyBlocks(lines, b.last + 1, Scan(s.blocks[1..], s.end));
    }
  }

  /** A block of line comments is the whole run. */
  lemma {:induction false} RunIsMaximal(lines: seq<Line>, start: nat, i: nat, b: Block)
    requires IsRun(lines, start, i) && IsComment(lines, b) && b.first == start && (i < |lines| ==> !Continues(lines[i]))
    ensures i < |lines| && b.last + 1 == i && Ends(lines[i])
  {
    assert IsSlashBlock(lines, b);
    assert !Continues(lines[b.last + 1]);
  }

  /** Where a run breaks off decides how a scan that leaves it open ends. */
  lemma {:induction false} RunLeftOpen(lines: seq<Line>, start: nat, i: nat, end: End)
    requires IsRun(lines, start, i) && (i < |lines| ==> !Continues(lines[i])) && end.open == start && Explained(lines, end)
    ensures if i == |lines| then end == Finished(start)
            else !Ends(lines[i]) && end == if lines[i].opens then AssertionFailed(start) else Stopped(start)
  {
    assert forall k: nat :: Meets(lines, start, k) && (CodeInFront(lines[k]) || BothMarks(lines[k])) ==> k == i;
  }

  lemma {:induction false} OnlySlashBlock(lines: seq<Line>, start: nat, i: nat, s: Scan)
    requires IsRun(lines, start, i) && IsScan(lines, start, s)
    ensures s == SlashBlock(lines, start, i)
    decreases |lines| - i, 3
  {
    if i < |lines| && Continues(lines[i]) {
      OnlySlashBlock(lines, start, i + 1, s);
    } else {
      ScanAt(lines, start, s);
      if s.blocks == [] {
        RunLeftOpen(lines, start, i, s.end);
      } else {
        RunIsMaximal(lines, start, i, s.blocks[0]);
        RunEnds(lines, start, i);
        ScanRest(lines, start, s);
        OnlyBlocks(lines, i, Scan(s.blocks[1..], s.end));
      }
    }
  }

  /** The scanner delivers the one result that is a scan of the file. */
  lemma {:induction false} ScanIff(lines: seq<Line>, s: Scan)
    ensures IsScan(lines, 0, s) <==> s == Blocks(lines, 0)
  {
    BlocksScan(lines, 0);
    if IsScan(lines, 0, s) {
      OnlyBlocks(lines, 0, s);
    }
  }

  // ---------- how a scan ends ----------

  /** Line `k` is inside a block comment, or closes one. */
  ghost predicate Inside(lines: seq<Line>, k: nat)
    requires k <= |lines|
  {
    k > 0 && if Inside(lines, k - 1) then !lines[k - 1].closes else OpensAt(lines, k - 1)
  }

  /** Line `k`, outside block comments, has code in it or marks of both kinds. */
  ghost predicate Breaks(lines: seq<Line>, k: nat) {
    && k < |lines| && !Inside(lines, k) && !Skipped(lines, k)
    && (OnlyCode(lines[k]) || CodeInFront(lines[k]) || BothMarks(lines[k]))
  }

  ghost predicate NoBreak(lines: seq<Line>, i: nat, j: nat) {
    forall k :: i <= k < j ==> !Breaks(lines, k)
  }

  /** From line `i` on, `end` is of the kind that the first breaking line asks for. */
  ghost predicate EndsAs(lines: seq<Line>, i: nat, end: End) {
    match end
    case Finished(_) => NoBreak(lines, i, |lines|)
    case Stopped(_) => exists k: nat :: Breaks(lines, k) && i <= k && !BothMarks(lines[k]) && NoBreak(lines, i, k)
    case AssertionFailed(_) => exists k: nat :: Breaks(lines, k) && i <= k && BothMarks(lines[k]) && NoBreak(lines, i, k)
  }

  lemma {:induction false} EndsLater(lines: seq<Line>, i: nat, j: nat, end: End)
    requires i <= j <= |lines| && NoBreak(lines, i, j) && EndsAs(lines, j, end)
    ensures EndsAs(lines, i, end)
  {
    forall k: nat | j <= k && NoBreak(lines, j, k)
      ensures NoBreak(lines, i, k)
    {
    }
  }

  lemma {:induction false} InsideComment(lines: seq<Line>, i: nat, j: nat)
    requires OpensAt(lines, i) && !Inside(lines, i) && i < j <= |lines| && forall k :: i < k < j ==> !lines[k].closes
    ensures NoBreak(lines, i, j) && Inside(lines, j)
  {
    if j > i + 1 {
      InsideComment(lines, i, j - 1);
    }
  }

  lemma {:induction false} BlocksEnd(lines: seq<Line>, i: nat)
    requires i <= |lines| && !Inside(lines, i)
    ensures EndsAs(lines, i, Blocks(lines, i).end)
    decreases |lines| - i, 2
  {
    if i < |lines| {
      if OpensAt(lines, i) {
        StarBlockEnd(lines, i);
      } else if Passed(lines, i) {
        BlocksEnd(lines, i + 1);
        EndsLater(lines, i, i + 1, Blocks(lines, i).end);
      } else if SlashLine(lines[i]) {
        SlashBlockEnd(lines, i, i + 1);
        EndsLater(lines, i, i + 1, Blocks(lines, i).end);
      } else {
        assert Breaks(lines, i) && NoBreak(lines, i, i);
      }
    }
  }

  lemma {:induction false} StarBlockEnd(lines: seq<Line>, i: nat)
    requires OpensAt(lines, i) && !Inside(lines, i)
    ensures EndsAs(lines, i, StarBlock(lines, i).end)
    decreases |lines| - i, 1
  {
    var j := ClosingLine(lines, i + 1);
    InsideComment(lines, i, j);
    if j < |lines| {
      BlocksEnd(lines, j + 1);
      EndsLater(lines, i, j + 1, Blocks(lines, j + 1).end);
    }
  }

  lemma {:induction false} SlashBlockEnd(lines: seq<Line>, start: nat, i: nat)
    requires start < i <= |lines| && !Inside(lines, i)
    ensures EndsAs(lines, i, SlashBlock(lines, start, i).end)
    decreases |lines| - i, 3
  {
    if i < |lines| {
      if Continues(lines[i]) {
        SlashBlockEnd(lines, start, i + 1);
        EndsLater(lines, i, i + 1, SlashBlock(lines, start, i).end);
      } else if Ends(lines[i]) {
        RunEnds(lines, start, i);
        BlocksEnd(lines, i);
      } else {
        assert Breaks(lines, i) && NoBreak(lines, i, i);
      }
    }
  }

  /** Exactly when the scanner reads the whole file, stops at code, or trips over its own assertion. */
  lemma {:induction false} EndIff(lines: seq<Line>)
    ensures var end := Blocks(lines, 0).end;
            && (end.Finished? <==> NoBreak(lines, 0, |lines|))
            && (end.Stopped? <==> exists k: nat :: Breaks(lines, k) && !BothMarks(lines[k]) && NoBreak(lines, 0, k))
            && (end.AssertionFailed? <==> exists k: nat :: Breaks(lines, k) && BothMarks(lines[k]) && NoBreak(lines, 0, k))
  {
    BlocksEnd(lines, 0);
    forall j: nat, k: nat | Breaks(lines, j) && NoBreak(lines, 0, j) && Breaks(lines, k) && NoBreak(lines, 0, k)
      ensures j == k
    {
    }
  }

  function BothMarksLine(): string {
    "// /*"
  }

  /** A file on which the scanner's assertion about the two kinds of marks fails. */
  lemma {:induction false} AssertionCanFail()
    ensures Blocks(Described(["", BothMarksLine()]), 0).end == AssertionFailed(1)
  {
    var line := BothMarksLine();
    assert line[0..] == line && StartsWith(line[0..], "//");
    assert line[3..] == "/*" && StartsWith(line[3..], "/*");
    IndexIs(line, "//", 0);
    IndexIs(line, "/*", 3);
    assert HasSlashes(line) && Opens(line);
    var text := ["", line];
    var lines := Described(text);
    DescribedAt(text, 0);
    DescribedAt(text, 1);
    assert IsBlank("");
    assert lines[0].blank && !lines[0].modeLine && BothMarks(lines[1]);
  }

  // ---------- the marks of a line, character by character ----------

  /** The two characters stand next to each other somewhere in the line. */
  ghost predicate Holds(line: string, a: char, b: char) {
    exists k :: 0 <= k < |line| - 1 && line[k] == a && line[k + 1] == b
  }

  /** The first two slashes of the line stand at `k`. */
  ghost predicate FirstSlashes(line: string, k: nat) {
    && k + 2 <= |line| && line[k] == line[k + 1] == '/'
    && forall j :: 0 <= j < k ==> line[j] != '/' || line[j + 1] != '/'
  }

  lemma {:induction false} StartsWithTwo(line: string, k: nat, p: string)
    requires k <= |line| && |p| == 2
    ensures StartsWith(line[k..], p) <==> k + 2 <= |line| && line[k] == p[0] && line[k + 1] == p[1]
  {
    if k + 2 <= |line| {
      assert line[k..][..2] == [line[k], line[k + 1]] && p == [p[0], p[1]];
    }
  }

  lemma {:induction false} IndexOfTwo(line: string, p: string)
    requires |p| == 2
    ensures Index(line, p).Some? <==> Holds(line, p[0], p[1])
  {
    if Index(line, p).Some? {
      StartsWithTwo(line, Index(line, p).value, p);
    }
    if k :| 0 <= k < |line| - 1 && line[k] == p[0] && line[k + 1] == p[1] {
      StartsWithTwo(line, k, p);
      IndexIs(line, p, k);
    }
  }

  lemma {:induction false} IndexOfSlashes(line: string)
    ensures HasSlashes(line) ==> FirstSlashes(line, Index(line, "//").value)
    ensures forall k: nat :: FirstSlashes(line, k) ==> HasSlashes(line) && Index(line, "//").value == k
  {
    forall k: nat | k + 2 <= |line| && line[k] == '/' && line[k + 1] == '/'
      ensures HasSlashes(line) && Index(line, "//").value <= k
    {
      StartsWithTwo(line, k, "//");
      IndexIs(line, "//", k);
    }
    if HasSlashes(line) {
      StartsWithTwo(line, Index(line, "//").value, "//");
    }
  }

  lemma {:induction false} BlankIs(s: string)
    ensures IsBlank(s) <==> AllSpaces(s)
  {
    if IsBlank(s) {
      StripEmpty(s);
    } else if AllSpaces(s) {
      StripSpaces(s);
    }
  }

  /** Some text `p` stands in `s` behind nothing but whitespace. */
  ghost predicate BehindSpaces(s: string, p: string) {
    exists j: nat :: j <= |s| && AllSpaces(s[..j]) && StartsWith(s[j..], p)
  }

  lemma {:induction false} StrippedStart(s: string, p: string)
    requires p != "" && !IsSpace(p[0])
    ensures StartsWith(StripLeft(s), p) <==> BehindSpaces(s, p)
  {
    var n := StripLeftIs(s);
    if StartsWith(StripLeft(s), p) {
      assert AllSpaces(s[..n]) && StartsWith(s[n..], p);
    }
    forall j: nat | j <= |s| && AllSpaces(s[..j]) && StartsWith(s[j..], p)
      ensures j == n
    {
      assert s[j..][..|p|][0] == s[j];
      assert forall i :: 0 <= i < j ==> s[i] == s[..j][i];
    }
  }

  lemma {:induction false} CodeIs(line: string)
    ensures Describe(line).code <==> exists k: nat :: FirstSlashes(line, k) && !AllSpaces(line[..k])
  {
    IndexOfSlashes(line);
    if HasSlashes(line) {
      BlankIs(line[..Index(line, "//").value]);
    }
  }

  lemma {:induction false} CopyrightIs(line: string)
    ensures Describe(line).copyright <==> exists k: nat :: FirstSlashes(line, k) && BehindSpaces(line[k + 2..], "Copyright")
  {
    IndexOfSlashes(line);
    if HasSlashes(line) {
      StrippedStart(line[Index(line, "//").value + 2..], "Copyright");
    }
  }

  /**
   What the scanner sees of a line, in terms of its characters: the three kinds of marks, code in
   front of the first slashes, a copyright notice right behind them, and whether it is blank.
   */
  lemma {:induction false} MarksOfLine(line: string)
    ensures Describe(line).slashes <==> Holds(line, '/', '/')
    ensures Describe(line).opens <==> Holds(line, '/', '*')
    ensures Describe(line).closes <==> Holds(line, '*', '/')
    ensures Describe(line).blank <==> AllSpaces(line)
    ensures Describe(line).code <==> exists k: nat :: FirstSlashes(line, k) && !AllSpaces(line[..k])
    ensures Describe(line).copyright <==> exists k: nat :: FirstSlashes(line, k) && BehindSpaces(line[k + 2..], "Copyright")
  {
    IndexOfTwo(line, "//");
    IndexOfTwo(line, "/*");
    IndexOfTwo(line, "*/");
    BlankIs(line);
    CodeIs(line);
    CopyrightIs(line);
  }

  /** An end mark stands at `from` or behind it. */
  ghost predicate EndsMode(s: string, from: nat) {
    exists c: nat :: from <= c <= |s| && StartsWith(s[c..], "-*-")
  }

  /** Spaces up to `b` and then `mode:`, with an end mark somewhere behind it. */
  ghost predicate NamesMode(s: string, b: nat) {
    b <= |s| && (forall k :: 0 <= k < b ==> s[k] == ' ') && StartsWith(s[b..], "mode:") && EndsMode(s, b + 5)
  }

  lemma {:induction false} EndsModeBehind(s: string, from: nat)
    requires s != ""
    ensures EndsMode(s[1..], from) <==> EndsMode(s, from + 1)
  {
    if c: nat :| from <= c <= |s[1..]| && StartsWith(s[1..][c..], "-*-") {
      assert s[1..][c..] == s[c + 1..];
    }
    if c: nat :| from + 1 <= c <= |s| && StartsWith(s[c..], "-*-") {
      assert s[1..][c - 1..] == s[c..];
    }
  }

  lemma {:induction false} EndsModeIs(s: string, from: nat)
    requires from <= |s|
    ensures EndsMode(s, from) <==> Index(s[from..], "-*-").Some?
  {
    if Index(s[from..], "-*-").Some? {
      var c := Index(s[from..], "-*-").value;
      assert s[from..][c..] == s[from + c..];
    }
    if c: nat :| from <= c <= |s| && StartsWith(s[c..], "-*-") {
      assert s[from..][c - from..] == s[c..];
      IndexIs(s[from..], "-*-", c - from);
    }
  }

  lemma {:induction false} NamesModeHere(s: string)
    ensures NamesMode(s, 0) <==> StartsWith(s, "mode:") && Index(s[5..], "-*-").Some?
  {
    assert s[0..] == s;
    if StartsWith(s, "mode:") {
      EndsModeIs(s, 5);
    }
  }

  lemma {:induction false} NamesModeBehind(s: string, b: nat)
    requires s != "" && s[0] == ' '
    ensures NamesMode(s[1..], b) <==> NamesMode(s, b + 1)
  {
    EndsModeBehind(s, b + 5);
    if b + 1 <= |s| {
      assert s[1..][b..] == s[b + 1..];
      assert (forall k :: 0 <= k < b ==> s[1..][k] == ' ') <==> forall k :: 0 <= k < b + 1 ==> s[k] == ' ' by {
        assert forall k :: 0 <= k < b ==> s[1..][k] == s[k + 1];
        assert forall k :: 1 <= k < b + 1 ==> s[k] == s[1..][k - 1];
      }
    }
  }

  lemma {:induction false} SkipsSpacesIs(s: string)
    ensures SkipsSpacesToMode(s) <==> exists b: nat :: NamesMode(s, b)
  {
    NamesModeHere(s);
    if s != "" && s[0] == ' ' {
      SkipsSpacesIs(s[1..]);
      if b: nat :| NamesMode(s[1..], b) {
        NamesModeBehind(s, b);
        assert NamesMode(s, b + 1);
      }
      if b: nat :| NamesMode(s, b) && b > 0 {
        NamesModeBehind(s, b - 1);
        assert NamesMode(s[1..], b - 1);
      }
    } else {
      assert forall b: nat :: NamesMode(s, b) ==> b == 0;
    }
  }

  ghost predicate ModeAt(s: string, a: nat, b: nat) {
    a + 3 <= |s| && StartsWith(s[a..], "-*-") && NamesMode(s[a + 3..], b)
  }

  lemma {:induction false} ModeBehind(s: string, a: nat, b: nat)
    requires s != ""
    ensures ModeAt(s[1..], a, b) <==> ModeAt(s, a + 1, b)
  {
    if a + 4 <= |s| {
      assert s[1..][a..] == s[a + 1..] && s[1..][a + 3..] == s[a + 4..];
    }
  }

  /** An editor mode line: `-*-`, spaces, `mode:`, and `-*-` somewhere behind. */
  lemma {:induction false} ModeLineIs(s: string)
    ensures Describe(s).modeLine <==> exists a: nat, b: nat :: ModeAt(s, a, b)
  {
    if s != "" {
      ModeLineIs(s[1..]);
      assert s[0..] == s;
      if |s| >= 3 {
        SkipsSpacesIs(s[3..]);
      }
      if b: nat :| |s| >= 3 && NamesMode(s[3..], b) && StartsWith(s, "-*-") {
        assert ModeAt(s, 0, b);
      }
      if a: nat, b: nat :| ModeAt(s[1..], a, b) {
        ModeBehind(s, a, b);
        assert ModeAt(s, a + 1, b);
      }
      if a: nat, b: nat :| ModeAt(s, a, b) && a > 0 {
        ModeBehind(s, a - 1, b);
        assert ModeAt(s[1..], a - 1, b);
      }
    }
  }

  // ---------- the blocks of a text ----------

  /**
   A block whose first line opens a comment ends on the first later line that closes one; in any
   other block the first line has slashes and every line has slashes or is blank.
   */
  ghost predicate BlockOfText(text: seq<string>, b: Block) {
    && b.first <= b.last < |text|
    && if Holds(text[b.first], '/', '*')
       then b.first < b.last && Holds(text[b.last], '*', '/')
            && forall k :: b.first < k < b.last ==> !Holds(text[k], '*', '/')
       else Holds(text[b.first], '/', '/')
            && forall k :: b.first <= k <= b.last ==> Holds(text[k], '/', '/') || AllSpaces(text[k])
  }

  lemma {:induction false} LineOfText(text: seq<string>, k: nat)
    requires k < |text|
    ensures Described(text)[k].slashes <==> Holds(text[k], '/', '/')
    ensures Described(text)[k].opens <==> Holds(text[k], '/', '*')
    ensures Described(text)[k].closes <==> Holds(text[k], '*', '/')
    ensures Described(text)[k].blank <==> AllSpaces(text[k])
  {
    DescribedAt(text, k);
    MarksOfLine(text[k]);
  }

  lemma {:induction false} CommentOfText(text: seq<string>, b: Block)
    requires IsComment(Described(text), b)
    ensures BlockOfText(text, b)
  {
    LineOfText(text, b.first);
    if IsStarBlock(Described(text), b) {
      StarOfText(text, b);
    } else {
      SlashOfText(text, b);
    }
  }

  lemma {:induction false} StarOfText(text: seq<string>, b: Block)
    requires IsStarBlock(Described(text), b)
    ensures b.first < b.last < |text| && Holds(text[b.last], '*', '/')
    ensures forall k :: b.first < k < b.last ==> !Holds(text[k], '*', '/')
  {
    LineOfText(text, b.last);
    forall k | b.first < k < b.last
      ensures !Holds(text[k], '*', '/')
    {
      assert !Described(text)[k].closes;
      LineOfText(text, k);
    }
  }

  lemma {:induction false} SlashOfText(text: seq<string>, b: Block)
    requires IsSlashBlock(Described(text), b)
    ensures b.first <= b.last < |text|
    ensures forall k :: b.first <= k <= b.last ==> Holds(text[k], '/', '/') || AllSpaces(text[k])
  {
    forall k | b.first <= k <= b.last
      ensures Holds(text[k], '/', '/') || AllSpaces(text[k])
    {
      assert Described(text)[k].slashes || Described(text)[k].blank;
      LineOfText(text, k);
    }
  }

  /** A comment opened on the first line of a file is found, up to the first line that closes it. */
  lemma {:induction false} FirstComment(text: seq<string>, j: nat)
    requires 0 < j < |text| && Holds(text[0], '/', '*') && !Holds(text[0], '/', '/') && !IsModeLine(text[0])
    requires Holds(text[j], '*', '/') && forall k :: 0 < k < j ==> !Holds(text[k], '*', '/')
    ensures var found := Blocks(Described(text), 0).blocks; found != [] && found[0] == Block(0, j)
  {
    var lines := Described(text);
    forall k: nat | k < |text|
      ensures lines[k].closes <==> Holds(text[k], '*', '/')
    {
      LineOfText(text, k);
    }
    LineOfText(text, 0);
    DescribedAt(text, 0);
    assert ClosingLine(lines, 1) == j;
  }
}
