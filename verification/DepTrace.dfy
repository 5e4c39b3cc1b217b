/**
 Converting a whole dependency trace between text and the framed binary stream
 (util/encode_inst_dep_trace.py and util/decode_inst_dep_trace.py).

 The generated protobuf classes are a pair of functions: `ser` serialises a record and `par`
 parses one.
 */
module DepTrace {
  import opened Wrappers
  import opened Text
  import opened Varint
  import opened Framing
  import opened DepRecord

  const MAGIC: seq<Byte> := [0x67, 0x65, 0x6d, 0x35]  // "gem5"

  type Serialiser = Record -> seq<Byte>
  type Parser = seq<Byte> -> Option<Record>

  /** Serialised records are not empty and parse to themselves. */
  ghost predicate InversePair(ser: Serialiser, par: Parser) {
    forall r: Record :: ser(r) != [] && par(ser(r)) == Some(r)
  }

  /** The length of each serialised record fits the 32 bits of its prefix. */
  ghost predicate Fit(ser: Serialiser, records: seq<Record>) {
    forall i :: 0 <= i < |records| ==> |ser(records[i])| < TWO_32
  }

  // ---------- reading a list of items ----------

  /** The records of the items in front of the first that does not parse. */
  function Leading<L, R>(parse: L -> Option<R>, items: seq<L>): (records: seq<R>)
    ensures |records| <= |items|
  {
    if items == [] || parse(items[0]).None? then [] else [parse(items[0]).value] + Leading(parse, items[1..])
  }

  /** The records of some items; an item that does not parse stops the conversion. */
  function ParseAll<L, R>(parse: L -> Option<R>, items: seq<L>): Option<seq<R>> {
    var records := Leading(parse, items);
    if |records| == |items| then Some(records) else None
  }

  /** One more item: it extends the records or ends them. */
  lemma {:induction false} LeadingCons<L, R>(parse: L -> Option<R>, before: seq<R>, item: L, items: seq<L>)
    ensures before + Leading(parse, [item] + items) ==
            if parse(item).None? then before else before + [parse(item).value] + Leading(parse, items)
  {
    assert ([item] + items)[1..] == items;
    if parse(item).Some? {
      var r, later := parse(item).value, Leading(parse, items);
      assert before + [r] + later == before + ([r] + later);
    } else {
      assert before + [] == before;
    }
  }

  /** Each record comes from the item at its place, and the item behind the last does not parse. */
  lemma {:induction false} LeadingItems<L, R>(parse: L -> Option<R>, items: seq<L>)
    ensures var records := Leading(parse, items);
            && (forall i :: 0 <= i < |records| ==> parse(items[i]) == Some(records[i]))
            && (|records| < |items| ==> parse(items[|records|]).None?)
  {
    if items != [] && parse(items[0]).Some? {
      LeadingItems(parse, items[1..]);
      var records, rest := Leading(parse, items), Leading(parse, items[1..]);
      assert records == [parse(items[0]).value] + rest;
      assert forall i :: 0 < i < |records| ==> items[i] == items[1..][i - 1] && records[i] == rest[i - 1];
    }
  }

  /** Items that all parse are parsed to the list of their records. */
  lemma {:induction false} ParsesTo<L, R>(parse: L -> Option<R>, items: seq<L>, records: seq<R>)
    requires |records| == |items| && forall i :: 0 <= i < |items| ==> parse(items[i]) == Some(records[i])
    ensures ParseAll(parse, items) == Some(records)
  {
    if items != [] {
      ParsesTo(parse, items[1..], records[1..]);
      assert records == [records[0]] + records[1..];
    }
  }

  // ---------- text to binary ----------

  function SerialiseAll(ser: Serialiser, records: seq<Record>): seq<seq<Byte>> {
    seq(|records|, i requires 0 <= i < |records| => ser(records[i]))
  }

  function Encoded(ser: Serialiser, header: seq<Byte>, records: seq<Record>): seq<Byte> {
    MAGIC + Frame(header) + Frames(SerialiseAll(ser, records))
  }

  lemma {:induction false} FramesSnoc(ms: seq<seq<Byte>>, m: seq<Byte>)
    ensures Frames(ms + [m]) == Frames(ms) + Frame(m)
  {
    if ms == [] {
      assert ms + [m] == [m] && [m][1..] == [];
    } else {
      assert (ms + [m])[1..] == ms[1..] + [m];
      FramesSnoc(ms[1..], m);
    }
  }

  lemma {:induction false} EncodedSnoc(ser: Serialiser, header: seq<Byte>, records: seq<Record>, r: Record)
    ensures Encoded(ser, header, records + [r]) == Encoded(ser, header, records) + Frame(ser(r))
  {
    assert SerialiseAll(ser, records + [r]) == SerialiseAll(ser, records) + [ser(r)];
    FramesSnoc(SerialiseAll(ser, records), ser(r));
  }

  lemma {:induction false} NextLine(lines: seq<string>, before: seq<Record>, i: nat)
    requires i < |lines|
    ensures before + Leading(Parse, lines[i..]) ==
            if Parse(lines[i]).None? then before
            else before + [Parse(lines[i]).value] + Leading(Parse, lines[i + 1..])
  {
    assert lines[i..] == [lines[i]] + lines[i + 1..];
    LeadingCons(Parse, before, lines[i], lines[i + 1..]);
  }

  /** The first line in error stops the conversion; the records in front of it have been written. */
  method EncodeTrace(out: OutFile, ser: Serialiser, header: seq<Byte>, lines: seq<string>) returns (ok: bool)
    requires out.data == []
    modifies out
    ensures ok <==> ParseAll(Parse, lines).Some?
    ensures out.data == Encoded(ser, header, Leading(Parse, lines))
    ensures |out.data| >= 4 && forall k :: 0 <= k < 4 ==> out.data[k] == "gem5"[k] as int
  {
    out.Write(MAGIC);
    EncodeMessage(out, header);
    ok := EncodeLines(out, ser, header, lines);
  }

  method EncodeLines(out: OutFile, ser: Serialiser, ghost header: seq<Byte>, lines: seq<string>) returns (ok: bool)
    requires out.data == Encoded(ser, header, [])
    modifies out
    ensures ok <==> ParseAll(Parse, lines).Some?
    ensures out.data == Encoded(ser, header, Leading(Parse, lines))
  {
    ghost var all := Leading(Parse, lines);
    ghost var records: seq<Record> := [];
    assert lines[0..] == lines && records + all == all;
    for i := 0 to |lines|
      invariant |records| == i && records + Leading(Parse, lines[i..]) == all
      invariant out.data == Encoded(ser, header, records)
    {
      NextLine(lines, records, i);
      var r := ParseLine(lines[i]);
      if r.None? {
        return false;
      }
      EncodeMessage(out, ser(r.value));
      EncodedSnoc(ser, header, records, r.value);
      records := records + [r.value];
    }
    assert records + [] == records;
    ok := true;
  }

  // ---------- binary to text ----------

  /** The chunks of a binary file: none without the magic number; the header is read and passed over. */
  function Chunks(data: seq<Byte>): Option<seq<seq<Byte>>> {
    if Taken(data, 4) != MAGIC then None else Some(ReadAll(ReadMessage(Dropped(data, 4)).rest))
  }

  function LineTexts(records: seq<Record>): seq<string> {
    seq(|records|, i requires 0 <= i < |records| => LineText(records[i]))
  }

  /** The text a binary file decodes to. */
  function Decoded(par: Parser, data: seq<Byte>): Option<seq<string>> {
    var chunks :- Chunks(data);
    var records :- ParseAll(par, chunks);
    Some(LineTexts(records))
  }

  /** The lines that get printed, also if the file turns out not to be decodable. */
  function Printed(par: Parser, data: seq<Byte>): seq<string> {
    if Chunks(data).None? then [] else LineTexts(Leading(par, Chunks(data).value))
  }

  lemma {:induction false} ChunkStep<R>(par: seq<Byte> -> Option<R>, before: seq<R>, s: seq<Byte>)
    ensures before + Leading(par, ReadAll(s)) ==
            match ReadMessage(s)
            case Nothing(_) => before
            case Message(chunk, rest) =>
              if par(chunk).None? then before else before + [par(chunk).value] + Leading(par, ReadAll(rest))
    ensures |ReadAll(s)| == if ReadMessage(s).Nothing? then 0 else 1 + |ReadAll(ReadMessage(s).rest)|
  {
    match ReadMessage(s)
    case Nothing(_) =>
      assert ReadAll(s) == [] && before + [] == before;
    case Message(chunk, rest) =>
      assert ReadAll(s) == [chunk] + ReadAll(rest);
      LeadingCons(par, before, chunk, ReadAll(rest));
  }

  /** A chunk that does not parse stops the conversion; the lines in front of it have been printed. */
  method DecodeTrace(file: InFile, par: Parser) returns (ok: bool, lines: seq<string>)
    requires file.Valid()
    modifies file
    ensures ok <==> Decoded(par, old(file.Rest())).Some?
    ensures lines == Printed(par, old(file.Rest()))
    ensures ok ==> Decoded(par, old(file.Rest())) == Some(lines)
  {
    var magic := file.Read(4);
    if magic != MAGIC {
      return false, [];
    }
    var found, chunk := DecodeMessage(file);
    ok, lines := PrintMessages(file, par);
  }

  method PrintMessages(file: InFile, par: Parser) returns (ok: bool, lines: seq<string>)
    requires file.Valid()
    modifies file
    ensures ok <==> ParseAll(par, ReadAll(old(file.Rest()))).Some?
    ensures lines == LineTexts(Leading(par, ReadAll(old(file.Rest()))))
  {
    ghost var all, total := Leading(par, ReadAll(file.Rest())), |ReadAll(file.Rest())|;
    ghost var records: seq<Record> := [];
    lines := [];
    assert records + all == all;
    var found := true;
    while found
      invariant file.Valid() && lines == LineTexts(records)
      invariant all == if found then records + Leading(par, ReadAll(file.Rest())) else records
      invariant total == |records| + if found then |ReadAll(file.Rest())| else 0
      decreases found, |file.Rest()|
    {
      ChunkStep(par, records, file.Rest());
      var chunk;
      found, chunk := DecodeMessage(file);
      if found {
        var r := par(chunk);
        if r.None? {
          return false, lines;
        }
        lines := AppendLine(lines, records, r.value);
        records := records + [r.value];
      }
    }
    ok := true;
  }

  method AppendLine(text: seq<string>, ghost records: seq<Record>, r: Record) returns (text': seq<string>)
    requires text == LineTexts(records)
    ensures text' == LineTexts(records + [r])
  {
    var line := PrintRecord(r);
    text' := text + [line];
  }

  // ---------- there and back ----------

  lemma {:induction false} AllNonEmpty(ms: seq<seq<Byte>>)
    requires forall i :: 0 <= i < |ms| ==> ms[i] != []
    ensures NonEmptyPrefix(ms) == ms
  {
    if ms != [] {
      AllNonEmpty(ms[1..]);
      assert ms == [ms[0]] + ms[1..];
    }
  }

  /** Decoding an encoded list of records prints the record of each, in order. */
  lemma {:induction false} DecodedOfEncoded(ser: Serialiser, par: Parser, header: seq<Byte>, records: seq<Record>)
    requires InversePair(ser, par) && Fit(ser, records) && |header| < TWO_32
    ensures Decoded(par, Encoded(ser, header, records)) == Some(LineTexts(records))
  {
    var data, ms := Encoded(ser, header, records), SerialiseAll(ser, records);
    assert data[..4] == MAGIC && data[4..] == Frame(header) + Frames(ms);
    if header == [] {
      ReadEmptyFrame(Frames(ms));
    } else {
      ReadFrame(header, Frames(ms));
    }
    forall i | 0 <= i < |ms|
      ensures 0 < |ms[i]| < TWO_32
    {
      assert ser(records[i]) != [] && |ser(records[i])| < TWO_32;
    }
    ReadAllFrames(ms);
    AllNonEmpty(ms);
    ParsesTo(par, ms, records);
  }

  lemma {:induction false} CanonicalLinesParse(lines: seq<string>)
    requires forall i :: 0 <= i < |lines| ==> Canonical(lines[i])
    ensures ParseAll(Parse, lines).Some?
  {
    if lines != [] {
      CanonicalLinesParse(lines[1..]);
      PrintOfParseIff(lines[0]);
    }
  }

  lemma {:induction false} SameLinesIff(lines: seq<string>, records: seq<Record>)
    requires |records| == |lines| && forall i :: 0 <= i < |lines| ==> Parse(lines[i]) == Some(records[i])
    ensures LineTexts(records) == lines <==> forall i :: 0 <= i < |lines| ==> Canonical(lines[i])
  {
    forall i | 0 <= i < |lines|
      ensures LineTexts(records)[i] == lines[i] <==> Canonical(lines[i])
    {
      PrintOfParseIff(lines[i]);
    }
  }

  /**
   Encoding a text trace and decoding the result reproduces the file line for line exactly when
   every line is canonical.
   */
  lemma {:induction false} TraceRoundTripIff(ser: Serialiser, par: Parser, header: seq<Byte>, lines: seq<string>)
    requires InversePair(ser, par) && |header| < TWO_32
    requires ParseAll(Parse, lines).Some? ==> Fit(ser, ParseAll(Parse, lines).value)
    ensures (ParseAll(Parse, lines).Some? && Decoded(par, Encoded(ser, header, ParseAll(Parse, lines).value)) == Some(lines))
            <==> forall i :: 0 <= i < |lines| ==> Canonical(lines[i])
  {
    if ParseAll(Parse, lines).Some? {
      LeadingItems(Parse, lines);
      DecodedOfEncoded(ser, par, header, ParseAll(Parse, lines).value);
      SameLinesIff(lines, ParseAll(Parse, lines).value);
    } else if forall i :: 0 <= i < |lines| ==> Canonical(lines[i]) {
      CanonicalLinesParse(lines);
    }
  }
}
