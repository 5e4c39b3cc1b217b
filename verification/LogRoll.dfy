/**
 The circular line buffer of util/logroll.py: it keeps the last `target` lines of a stream,
 and prints them when asked to and at the end.
 */
module LogRoll {
  /** The last `target` lines; all of them if the target is not positive. */
  function Last(seen: seq<string>, target: int): seq<string> {
    if 1 <= target < |seen| then seen[|seen| - target..] else seen
  }

  /** As many of the lines at the end as the target says, or all there are. */
  lemma {:induction false} LastIs(seen: seq<string>, target: int)
    ensures |Last(seen, target)| == if target < 1 || |seen| < target then |seen| else target
    ensures exists before :: seen == before + Last(seen, target)
  {
    var n := |seen| - |Last(seen, target)|;
    assert seen == seen[..n] + Last(seen, target);
  }

  function Rotated(lines: seq<string>, idx: nat): seq<string>
    requires idx <= |lines|
  {
    lines[idx..] + lines[..idx]
  }

  method DumpLines(lines: seq<string>, idx: nat) returns (printed: seq<string>)
    requires idx <= |lines|
    ensures printed == Rotated(lines, idx)
  {
    printed := [];
    for i := idx to |lines|
      invariant printed == lines[idx..i]
    {
      printed := printed + [lines[i]];
    }
    for i := 0 to idx
      invariant printed == lines[idx..] + lines[..i]
    {
      assert lines[..i + 1] == lines[..i] + [lines[i]];
      printed := printed + [lines[i]];
    }
  }

  class LineBuffer {
    const target: int
    var lines: seq<string>
    var idx: nat
    /** Every line read so far. */
    ghost var seen: seq<string>

    predicate IsFull()
      reads this
    {
      1 <= target == |lines|
    }

    ghost predicate Valid()
      reads this
    {
      && idx <= |lines| && Rotated(lines, idx) == Last(seen, target)
      && |lines| <= |seen| && (1 <= target ==> |lines| <= target)
      && (IsFull() ==> idx < |lines|)
      && (!IsFull() ==> idx == |lines| && lines == seen)
    }

    constructor (target: int)
      ensures this.target == target && Valid() && seen == []
    {
      this.target := target;
      lines, idx, seen := [], 0, [];
    }

    /** One pass of the filling loop. */
    method Append(line: string)
      requires Valid() && !IsFull()
      modifies this
      ensures Valid() && seen == old(seen) + [line]
    {
      lines := lines + [line];
      seen := seen + [line];
      if idx == target - 1 {
        idx := 0;
      } else {
        idx := idx + 1;
      }
    }

    /** One pass of the loop that overwrites the oldest line. */
    method Overwrite(line: string)
      requires Valid() && IsFull()
      modifies this
      ensures Valid() && IsFull() && seen == old(seen) + [line]
    {
      OldestReplaced(lines, idx, line);
      lines := lines[idx := line];
      seen := seen + [line];
      idx := if idx == target - 1 then 0 else idx + 1;
    }
  }

  /** Overwriting the oldest line and stepping on drops it and appends the new one. */
  lemma {:induction false} OldestReplaced(lines: seq<string>, idx: nat, line: string)
    requires idx < |lines|
    ensures Rotated(lines[idx := line], if idx == |lines| - 1 then 0 else idx + 1) == Rotated(lines, idx)[1..] + [line]
  {
    var lines' := lines[idx := line];
    if idx == |lines| - 1 {
      assert Rotated(lines', 0) == lines';
    }
  }

  /**
   Reads the whole stream.  `signals` holds the numbers of lines after which a request to print
   arrives; each gets the last lines read by then, and the end of the stream gets the last of all.
   */
  method Roll(target: int, incoming: seq<string>, signals: set<nat>) returns (dumps: map<nat, seq<string>>, final: seq<string>)
    ensures final == Last(incoming, target)
    ensures forall n :: n in dumps <==> n in signals && n <= |incoming|
    ensures forall n :: n in dumps ==> dumps[n] == Last(incoming[..n], target)
  {
    var buffer := new LineBuffer(target);
    dumps := map[];
    var n := 0;
    dumps := Answer(buffer, n, signals, incoming, dumps);
    while n < |incoming| && !buffer.IsFull()
      invariant Reading(buffer, n, signals, incoming, dumps) && fresh(buffer) && buffer.target == target
    {
      buffer.Append(incoming[n]);
      n := n + 1;
      assert incoming[..n] == incoming[..n - 1] + [incoming[n - 1]];
      dumps := Answer(buffer, n, signals, incoming, dumps);
    }
    while n < |incoming|
      invariant Reading(buffer, n, signals, incoming, dumps) && fresh(buffer) && buffer.target == target
      invariant n < |incoming| ==> buffer.IsFull()
    {
      buffer.Overwrite(incoming[n]);
      n := n + 1;
      assert incoming[..n] == incoming[..n - 1] + [incoming[n - 1]];
      dumps := Answer(buffer, n, signals, incoming, dumps);
    }
    assert incoming[..n] == incoming;
    final := DumpLines(buffer.lines, buffer.idx);
  }

  /** The buffer has read `n` lines, and every request up to then has been answered. */
  ghost predicate Reading(buffer: LineBuffer, n: nat, signals: set<nat>, incoming: seq<string>, dumps: map<nat, seq<string>>)
    reads buffer
  {
    && n <= |incoming| && buffer.Valid() && buffer.seen == incoming[..n]
    && (forall k :: k in dumps <==> k in signals && k <= n)
    && (forall k :: k in dumps ==> dumps[k] == Last(incoming[..k], buffer.target))
  }

  /** Prints the buffer if a request has arrived by now. */
  method Answer(buffer: LineBuffer, n: nat, signals: set<nat>, incoming: seq<string>, dumps: map<nat, seq<string>>)
    returns (dumps': map<nat, seq<string>>)
    requires n <= |incoming| && buffer.Valid() && buffer.seen == incoming[..n]
    requires forall k :: k in dumps <==> k in signals && k < n
    requires forall k :: k in dumps ==> dumps[k] == Last(incoming[..k], buffer.target)
    ensures Reading(buffer, n, signals, incoming, dumps')
  {
    dumps' := dumps;
    if n in signals {
      var printed := DumpLines(buffer.lines, buffer.idx);
      dumps' := dumps'[n := printed];
    }
  }
}
