/**
 Length-prefixed messages, as `encodeMessage` and `decodeMessage` of util/protolib.py frame
 them.  A message is its serialised bytes.
 */
module Framing {
  import opened Varint

  function Frame(m: seq<Byte>): seq<Byte> {
    Encode(|m|) + m
  }

  function Frames(ms: seq<seq<Byte>>): seq<Byte> {
    if ms == [] then [] else Frame(ms[0]) + Frames(ms[1..])
  }

  datatype Read = Nothing(rest: seq<Byte>) | Message(chunk: seq<Byte>, rest: seq<Byte>)

  /** One attempt to read a message from the bytes left in a file. */
  function ReadMessage(s: seq<Byte>): (r: Read)
    ensures r.Message? ==> |r.rest| < |s|
  {
    match Decode(s)
    case Decoded(size, n) =>
      if size == 0 then Nothing(s[n..]) else Message(Taken(s[n..], size), Dropped(s[n..], size))
    case _ => Nothing(s[Consumed(s)..])
  }

  /** The messages a reader collects until an attempt yields nothing. */
  function ReadAll(s: seq<Byte>): seq<seq<Byte>>
    decreases |s|
  {
    match ReadMessage(s)
    case Nothing(_) => []
    case Message(chunk, rest) => [chunk] + ReadAll(rest)
  }

  method EncodeMessage(out: OutFile, m: seq<Byte>)
    modifies out
    ensures out.data == old(out.data) + Frame(m)
  {
    EncodeVarint32(out, |m|);
    out.Write(m);
  }

  method DecodeMessage(file: InFile) returns (found: bool, chunk: seq<Byte>)
    requires file.Valid()
    modifies file
    ensures file.Valid()
    ensures ReadMessage(old(file.Rest())) == if found then Message(chunk, file.Rest()) else Nothing(file.Rest())
  {
    var r := DecodeVarint32(file);
    if !r.Decoded? || r.value == 0 {
      return false, [];
    }
    chunk := file.Read(r.value);
    found := true;
  }

  /** The reading loop of the decoders. */
  method DecodeMessages(file: InFile) returns (chunks: seq<seq<Byte>>)
    requires file.Valid()
    modifies file
    ensures chunks == ReadAll(old(file.Rest()))
  {
    chunks := [];
    ghost var all := ReadAll(file.Rest());
    var found := true;
    while found
      invariant file.Valid()
      invariant all == if found then chunks + ReadAll(file.Rest()) else chunks
      decreases found, |file.Rest()|
    {
      ReadAllStep(chunks, file.Rest());
      var chunk;
      found, chunk := DecodeMessage(file);
      if found {
        chunks := chunks + [chunk];
      }
    }
  }

  lemma {:induction false} ReadAllStep(before: seq<seq<Byte>>, s: seq<Byte>)
    ensures before + ReadAll(s) ==
            match ReadMessage(s)
            case Nothing(_) => before
            case Message(chunk, rest) => before + [chunk] + ReadAll(rest)
  {
  }

  ghost predicate Short(ms: seq<seq<Byte>>) {
    forall i :: 0 <= i < |ms| ==> |ms[i]| < TWO_32
  }

  /** The messages before the first empty one. */
  function NonEmptyPrefix(ms: seq<seq<Byte>>): seq<seq<Byte>> {
    if ms == [] || ms[0] == [] then [] else [ms[0]] + NonEmptyPrefix(ms[1..])
  }

  lemma {:induction false} ReadDecoded(s: seq<Byte>, size: nat, n: nat)
    requires size > 0 && n <= |s| && Decode(s) == Decoded(size, n)
    ensures ReadMessage(s) == Message(Taken(s[n..], size), Dropped(s[n..], size))
  {
  }

  lemma {:induction false} ReadHead(n: nat, tail: seq<Byte>)
    requires 0 < n < TWO_32
    ensures ReadMessage(Encode(n) + tail) == Message(Taken(tail, n), Dropped(tail, n))
  {
    RoundTripIff(n, tail);
    ReadDecoded(Encode(n) + tail, n, |Encode(n)|);
    assert (Encode(n) + tail)[|Encode(n)|..] == tail;
  }

  /** A negative length, as a prefix of ten bytes can give, reads everything that is left. */
  lemma {:induction false} NegativeLength(s: seq<Byte>, size: int, n: nat)
    requires Decode(s) == Decoded(size, n) && size < 0
    ensures n <= |s| && ReadMessage(s) == Message(s[n..], [])
  {
  }

  lemma {:induction false} ReadFrame(m: seq<Byte>, rest: seq<Byte>)
    requires 0 < |m| < TWO_32
    ensures ReadMessage(Frame(m) + rest) == Message(m, rest)
  {
    assert Frame(m) + rest == Encode(|m|) + (m + rest);
    ReadHead(|m|, m + rest);
    assert (m + rest)[..|m|] == m && (m + rest)[|m|..] == rest;
  }

  lemma {:induction false} ReadEmptyFrame(rest: seq<Byte>)
    ensures ReadMessage(Frame([]) + rest) == Nothing(rest)
  {
    assert Frame([]) + rest == Encode(0) + rest;
    DecodeEncode(0, rest);
    assert (Encode(0) + rest)[1..] == rest;
  }

  lemma {:induction false} FramesFirst(ms: seq<seq<Byte>>, rest: seq<Byte>)
    requires ms != [] && |ms[0]| < TWO_32
    ensures ReadAll(Frames(ms) + rest) ==
            if ms[0] == [] then [] else [ms[0]] + ReadAll(Frames(ms[1..]) + rest)
  {
    var tail := Frames(ms[1..]) + rest;
    assert Frames(ms) + rest == Frame(ms[0]) + tail;
    if ms[0] == [] {
      ReadEmptyFrame(tail);
    } else {
      ReadFrame(ms[0], tail);
    }
  }

  /** Reading back any list of messages gives exactly those before the first empty one. */
  lemma {:induction false} ReadAllFrames(ms: seq<seq<Byte>>)
    requires Short(ms)
    ensures ReadAll(Frames(ms)) == NonEmptyPrefix(ms)
  {
    if ms != [] {
      FramesFirst(ms, []);
      ReadAllFrames(ms[1..]);
      assert Frames(ms) + [] == Frames(ms) && Frames(ms[1..]) + [] == Frames(ms[1..]);
    }
  }

  // ---------- truncated files ----------

  /** What is read of a file cut after `c` bytes: whole messages, then at most one short chunk. */
  function CutAt(ms: seq<seq<Byte>>, c: nat): seq<seq<Byte>> {
    if ms == [] || ms[0] == [] || c < |Encode(|ms[0]|)| then []
    else if c < |Frame(ms[0])| then [ms[0][..c - |Encode(|ms[0]|)|]]
    else [ms[0]] + CutAt(ms[1..], c - |Frame(ms[0])|)
  }

  lemma {:induction false} CutInLength(m: seq<Byte>, c: nat)
    requires c < |Encode(|m|)| && |m| < TWO_32
    ensures ReadMessage(Frame(m)[..c]).Nothing?
  {
    var head := Encode(|m|);
    EncodeShape(|m|);
    EncodeLength(|m|, 10);
    TenBytes();
    assert Frame(m)[..c] == head[..c];
    TerminatorAt(head[..c], c);
  }

  lemma {:induction false} CutInMessage(m: seq<Byte>, c: nat)
    requires 0 < |m| < TWO_32 && |Encode(|m|)| <= c < |Frame(m)|
    ensures ReadMessage(Frame(m)[..c]) == Message(m[..c - |Encode(|m|)|], [])
  {
    var part := m[..c - |Encode(|m|)|];
    assert Frame(m)[..c] == Encode(|m|) + part;
    ReadHead(|m|, part);
  }

  lemma {:induction false} ReadNothingMore()
    ensures ReadAll([]) == []
  {
  }

  lemma {:induction false} ReadAllCut(ms: seq<seq<Byte>>, c: nat)
    requires Short(ms) && c <= |Frames(ms)|
    ensures ReadAll(Frames(ms)[..c]) == CutAt(ms, c)
  {
    ReadNothingMore();
    if ms != [] {
      var m, tail := ms[0], Frames(ms[1..]);
      if c < |Frame(m)| {
        assert Frames(ms)[..c] == Frame(m)[..c];
        if c < |Encode(|m|)| {
          CutInLength(m, c);
        } else {
          CutInMessage(m, c);
        }
      } else {
        var c' := c - |Frame(m)|;
        assert Frames(ms)[..c] == Frame(m) + tail[..c'];
        if m == [] {
          ReadEmptyFrame(tail[..c']);
        } else {
          ReadFrame(m, tail[..c']);
          ReadAllCut(ms[1..], c');
        }
      }
    }
  }

  /**
   Cutting the stream at any byte leaves a prefix of the messages, followed by at most one
   chunk, which is a proper prefix of the next message.
   */
  lemma {:induction false} CutIsPrefix(ms: seq<seq<Byte>>, c: nat) returns (k: nat)
    ensures var whole := NonEmptyPrefix(ms);
            && k <= |whole|
            && (CutAt(ms, c) == whole[..k] ||
                (k < |whole| && exists n: nat :: n < |whole[k]| && CutAt(ms, c) == whole[..k] + [whole[k][..n]]))
  {
    var whole := NonEmptyPrefix(ms);
    if ms == [] || ms[0] == [] || c < |Encode(|ms[0]|)| {
      k := 0;
    } else if c < |Frame(ms[0])| {
      k := 0;
      var n := c - |Encode(|ms[0]|)|;
      assert CutAt(ms, c) == whole[..0] + [whole[0][..n]];
    } else {
      var c', rest := c - |Frame(ms[0])|, NonEmptyPrefix(ms[1..]);
      var j := CutIsPrefix(ms[1..], c');
      k := j + 1;
      assert whole[..k] == [ms[0]] + rest[..j];
      if CutAt(ms[1..], c') != rest[..j] {
        var n: nat :| n < |rest[j]| && CutAt(ms[1..], c') == rest[..j] + [rest[j][..n]];
        assert whole[k] == rest[j];
        assert CutAt(ms, c) == whole[..k] + [whole[k][..n]];
      }
    }
  }
}
