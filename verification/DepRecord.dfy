/**
 One record of the instruction dependency trace and its line of text, as
 util/decode_inst_dep_trace.py prints it and util/encode_inst_dep_trace.py parses it.
 Field widths are those of src/proto/inst_dep_record.proto.
 */
module DepRecord {
  import opened Wrappers
  import opened Text

  type U32 = n: nat | n < 0x1_0000_0000
  type U64 = n: nat | n < 0x1_0000_0000_0000_0000

  datatype RecordType = INVALID | LOAD | STORE | COMP

  datatype Record = Record(
    seqNum: U64, kind: RecordType, pAddr: Option<U64>, size: Option<U32>, flags: Option<U32>,
    robDep: seq<U64>, compDelay: U64, regDep: seq<U64>, weight: Option<U32>, pc: Option<U64>,
    vAddr: Option<U64>, asid: Option<U32>)

  function TypeName(kind: RecordType): string {
    match kind
    case INVALID => "INVALID"
    case LOAD => "LOAD"
    case STORE => "STORE"
    case COMP => "COMP"
  }

  function TypeOfName(name: string): Option<RecordType> {
    if name == "INVALID" then Some(INVALID)
    else if name == "LOAD" then Some(LOAD)
    else if name == "STORE" then Some(STORE)
    else if name == "COMP" then Some(COMP)
    else None
  }

  predicate HasAddress(kind: RecordType) {
    kind == LOAD || kind == STORE
  }

  // ---------- printing ----------

  function Decimals(ns: seq<U64>): seq<string> {
    seq(|ns|, i requires 0 <= i < |ns| => Decimal(ns[i]))
  }

  function OptionalField(n: Option<nat>): seq<string> {
    if n.Some? then [Decimal(n.value)] else []
  }

  function HeadFields(r: Record): seq<string> {
    [Decimal(r.seqNum),
     Decimal(if r.pc.Some? then r.pc.value else 0),
     Decimal(if r.weight.Some? then r.weight.value else 1),
     TypeName(r.kind)]
  }

  /** The comma-separated fields in front of the first colon. */
  function Fields(r: Record): seq<string> {
    HeadFields(r) + OptionalField(r.pAddr) + OptionalField(r.size) + OptionalField(r.flags) + [Decimal(r.compDelay)]
  }

  /** A dependency list: every entry with a comma in front. */
  function DepText(deps: seq<U64>): string {
    Join([""] + Decimals(deps), ',')
  }

  function LineText(r: Record): string {
    Join([Join(Fields(r), ','), DepText(r.robDep), DepText(r.regDep)], ':') + "\n"
  }

  lemma {:induction false} JoinSnoc(parts: seq<string>, last: string, sep: char)
    requires |parts| >= 1
    ensures Join(parts + [last], sep) == Join(parts, sep) + [sep] + last
  {
    assert (parts + [last])[0] == parts[0];
    if |parts| == 1 {
      assert (parts + [last])[1..] == [last];
    } else {
      assert (parts + [last])[1..] == parts[1..] + [last];
      JoinSnoc(parts[1..], last, sep);
      assert parts[0] + [sep] + (Join(parts[1..], sep) + [sep] + last) == parts[0] + [sep] + Join(parts[1..], sep) + [sep] + last;
    }
  }

  method PrintDeps(deps: seq<U64>) returns (text: string)
    ensures text == DepText(deps)
  {
    text := "";
    for i := 0 to |deps|
      invariant text == DepText(deps[..i])
    {
      text := text + "," + Decimal(deps[i]);
      assert [""] + Decimals(deps[..i + 1]) == [""] + Decimals(deps[..i]) + [Decimal(deps[i])];
      JoinSnoc([""] + Decimals(deps[..i]), Decimal(deps[i]), ',');
    }
    assert deps[..|deps|] == deps;
  }

  /** Writes the fields every record has: number, pc (0 by default), weight (1 by default) and type. */
  method PrintHead(r: Record) returns (text: string)
    ensures text == Join(HeadFields(r), ',')
  {
    ghost var fields := HeadFields(r);
    text := Decimal(r.seqNum);
    text := text + "," + if r.pc.Some? then Decimal(r.pc.value) else "0";
    text := text + "," + if r.weight.Some? then Decimal(r.weight.value) else "1";
    text := text + "," + TypeName(r.kind);
    JoinSnoc([fields[0]], fields[1], ',');
    JoinSnoc([fields[0], fields[1]], fields[2], ',');
    JoinSnoc([fields[0], fields[1], fields[2]], fields[3], ',');
    assert [fields[0]] + [fields[1]] == [fields[0], fields[1]];
    assert [fields[0], fields[1]] + [fields[2]] == [fields[0], fields[1], fields[2]];
    assert [fields[0], fields[1], fields[2]] + [fields[3]] == fields;
  }

  /** Appends a field with its comma, if the record has it. */
  method PrintOptional(text: string, ghost before: seq<string>, n: Option<nat>) returns (text': string)
    requires |before| >= 1 && text == Join(before, ',')
    ensures text' == Join(before + OptionalField(n), ',')
  {
    text' := text;
    assert before + [] == before;
    if n.Some? {
      JoinSnoc(before, Decimal(n.value), ',');
      text' := text' + "," + Decimal(n.value);
    }
  }

  /** Writes a record's line piece by piece. */
  method PrintRecord(r: Record) returns (text: string)
    ensures text == LineText(r)
  {
    text := PrintHead(r);
    ghost var done := HeadFields(r);
    text := PrintOptional(text, done, r.pAddr);
    done := done + OptionalField(r.pAddr);
    text := PrintOptional(text, done, r.size);
    done := done + OptionalField(r.size);
    text := PrintOptional(text, done, r.flags);
    done := done + OptionalField(r.flags);
    text := PrintOptional(text, done, Some(r.compDelay));
    var rob := PrintDeps(r.robDep);
    var reg := PrintDeps(r.regDep);
    ThreeParts(text, rob, reg);
    text := text + ":" + rob + ":" + reg + "\n";
  }

  lemma {:induction false} ThreeParts(a: string, b: string, c: string)
    ensures Join([a, b, c], ':') == a + ":" + b + ":" + c
  {
    JoinSnoc([a], b, ':');
    JoinSnoc([a, b], c, ':');
    assert [a] + [b] == [a, b] && [a, b] + [c] == [a, b, c];
  }

  // ---------- parsing ----------

  function U32Of(s: string): Option<U32> {
    var v :- ParseInt(s);
    if 0 <= v < 0x1_0000_0000 then Some(v) else None
  }

  function U64Of(s: string): Option<U64> {
    var v :- ParseInt(s);
    if 0 <= v < 0x1_0000_0000_0000_0000 then Some(v) else None
  }

  /** The numbers of a dependency list; empty items are passed over. */
  function ParseDeps(items: seq<string>): Option<seq<U64>> {
    if items == [] then Some([]) else
      var deps :- ParseDeps(items[..|items| - 1]);
      var item := items[|items| - 1];
      if item == "" then Some(deps) else
        var d :- U64Of(item);
        Some(deps + [d])
  }

  /** What the first four fields give; no record is of the invalid type. */
  function ParseHead(f: seq<string>, rob: seq<U64>, reg: seq<U64>): (h: Option<Record>)
    ensures h.Some? ==>
              && h.value.kind != INVALID && h.value.pc.Some? && h.value.weight.Some?
              && h.value.pAddr.None? && h.value.size.None? && h.value.flags.None? && h.value.vAddr.None? && h.value.asid.None?
  {
    if |f| < 4 then None else
      var seqNum :- U64Of(f[0]);
      var pc :- U64Of(f[1]);
      var weight :- U32Of(f[2]);
      var kind :- TypeOfName(f[3]);
      if kind == INVALID then None
      else Some(Record(seqNum, kind, None, None, None, rob, 0, reg, Some(weight), Some(pc), None, None))
  }

  /** The record of the given fields; fields beyond those its type has are passed over. */
  function ParseFields(f: seq<string>, rob: seq<U64>, reg: seq<U64>): Option<Record> {
    var r :- ParseHead(f, rob, reg);
    if HasAddress(r.kind) then WithAddress(f, r) else WithDelay(f, r)
  }

  /** The fields of a load or a store. */
  function WithAddress(f: seq<string>, r: Record): (t: Option<Record>)
    ensures t.Some? ==> t.value.pAddr.Some? && t.value.size.Some? && t.value.flags.Some?
    ensures t.Some? ==> t.value == r.(pAddr := t.value.pAddr, size := t.value.size, flags := t.value.flags, compDelay := t.value.compDelay)
  {
    if |f| < 8 then None else
      var pAddr :- U64Of(f[4]);
      var size :- U32Of(f[5]);
      var flags :- U32Of(f[6]);
      var delay :- U64Of(f[7]);
      Some(r.(pAddr := Some(pAddr), size := Some(size), flags := Some(flags), compDelay := delay))
  }

  function WithDelay(f: seq<string>, r: Record): (t: Option<Record>)
    ensures t.Some? ==> t.value == r.(compDelay := t.value.compDelay)
  {
    if |f| < 5 then None else
      var delay :- U64Of(f[4]);
      Some(r.(compDelay := delay))
  }

  /** The record of a line of the file, or nothing where the script stops with an error. */
  function Parse(line: string): Option<Record> {
    var parts := Split(Strip(line), ':');
    if |parts| != 3 then None else
      var rob :- ParseDeps(Split(Strip(parts[1]), ','));
      var reg :- ParseDeps(Split(parts[2], ','));
      ParseFields(Split(parts[0], ','), rob, reg)
  }

  method ParseDepList(items: seq<string>) returns (deps: Option<seq<U64>>)
    ensures deps == ParseDeps(items)
  {
    var found: seq<U64> := [];
    for i := 0 to |items|
      invariant ParseDeps(items[..i]) == Some(found)
    {
      assert items[..i + 1][..i] == items[..i];
      if items[i] != "" {
        var d := U64Of(items[i]);
        if d.None? {
          DepsFail(items, i + 1);
          return None;
        }
        found := found + [d.value];
      }
    }
    assert items[..|items|] == items;
    deps := Some(found);
  }

  lemma {:induction false} DepsFail(items: seq<string>, i: nat)
    requires i <= |items| && ParseDeps(items[..i]).None?
    ensures ParseDeps(items).None?
    decreases |items| - i
  {
    if i < |items| {
      assert items[..i + 1][..i] == items[..i];
      DepsFail(items, i + 1);
    } else {
      assert items[..i] == items;
    }
  }

  /** Reads one line into a record, field by field. */
  method ParseLine(line: string) returns (r: Option<Record>)
    ensures r == Parse(line)
  {
    var parts := Split(Strip(line), ':');
    if |parts| != 3 {
      return None;
    }
    var rob := ParseDepList(Split(Strip(parts[1]), ','));
    var reg := ParseDepList(Split(parts[2], ','));
    if rob.None? || reg.None? {
      return None;
    }
    r := ParseFields(Split(parts[0], ','), rob.value, reg.value);
  }

  // ---------- parsing what was printed ----------

  /** The record with the defaults the printer writes for an absent pc and an absent weight. */
  function Normalised(r: Record): Record {
    r.(pc := Some(if r.pc.Some? then r.pc.value else 0),
       weight := Some(if r.weight.Some? then r.weight.value else 1))
  }

  /** Loads and stores carry address, size and flags; other types carry none; nothing unprintable is set. */
  ghost predicate Printable(r: Record) {
    && (HasAddress(r.kind) ==> r.pAddr.Some? && r.size.Some? && r.flags.Some?)
    && (!HasAddress(r.kind) ==> r.pAddr.None? && r.size.None? && r.flags.None?)
    && r.vAddr.None? && r.asid.None?
  }

  lemma {:induction false} ParseU64(n: U64)
    ensures U64Of(Decimal(n)) == Some(n)
  {
    ParseDecimal(Decimal(n));
    ValueOfDecimal(n);
  }

  lemma {:induction false} ParseU32(n: U32)
    ensures U32Of(Decimal(n)) == Some(n)
  {
    ParseDecimal(Decimal(n));
    ValueOfDecimal(n);
  }

  lemma {:induction false} ParseDecimals(deps: seq<U64>)
    ensures ParseDeps([""] + Decimals(deps)) == Some(deps)
  {
    if deps == [] {
      assert [""] + Decimals(deps) == [""];
      assert [""][..0] == [];
    } else {
      var front, last := deps[..|deps| - 1], deps[|deps| - 1];
      ParseDecimals(front);
      DecimalsSplit(deps);
      ParseU64(last);
      ParseOneMore([""] + Decimals(front), Decimal(last));
    }
  }

  lemma {:induction false} DecimalsSplit(deps: seq<U64>)
    requires deps != []
    ensures var front, last := deps[..|deps| - 1], deps[|deps| - 1];
            deps == front + [last] && [""] + Decimals(deps) == [""] + Decimals(front) + [Decimal(last)]
  {
  }

  lemma {:induction false} ParseOneMore(items: seq<string>, item: string)
    requires item != "" && ParseDeps(items).Some? && U64Of(item).Some?
    ensures ParseDeps(items + [item]) == Some(ParseDeps(items).value + [U64Of(item).value])
  {
    assert (items + [item])[..|items|] == items;
  }

  /** The fields `f` begin like those of `r`. */
  ghost predicate HeadIs(f: seq<string>, r: Record) {
    && |f| >= 4
    && U64Of(f[0]) == Some(r.seqNum) && U64Of(f[1]) == Normalised(r).pc && U32Of(f[2]) == Normalised(r).weight
    && TypeOfName(f[3]) == Some(r.kind)
  }

  lemma {:induction false} ParseAddressed(f: seq<string>, r: Record)
    requires HeadIs(f, r) && HasAddress(r.kind)
    ensures |f| < 8 ==> ParseFields(f, r.robDep, r.regDep).None?
    ensures |f| == 8 && U64Of(f[4]) == r.pAddr && U32Of(f[5]) == r.size && U32Of(f[6]) == r.flags
            && U64Of(f[7]) == Some(r.compDelay) && r.pAddr.Some? && r.size.Some? && r.flags.Some? ==>
              ParseFields(f, r.robDep, r.regDep) == Some(Normalised(r).(vAddr := None, asid := None))
  {
  }

  lemma {:induction false} ParsePlain(f: seq<string>, r: Record)
    requires HeadIs(f, r) && r.kind == COMP
    ensures var p := ParseFields(f, r.robDep, r.regDep);
            p.Some? ==> p.value.pAddr.None? && p.value.size.None? && p.value.flags.None?
    ensures |f| == 5 && U64Of(f[4]) == Some(r.compDelay) ==>
              ParseFields(f, r.robDep, r.regDep) ==
              Some(Normalised(r).(pAddr := None, size := None, flags := None, vAddr := None, asid := None))
  {
  }

  lemma {:induction false} FieldsAt(r: Record)
    ensures var f := Fields(r);
            && |f| >= 5 && f[..4] == HeadFields(r)
            && (r.pAddr.Some? && r.size.Some? && r.flags.Some? ==>
                  f[4..] == [Decimal(r.pAddr.value), Decimal(r.size.value), Decimal(r.flags.value), Decimal(r.compDelay)])
  {
  }

  lemma {:induction false} HeadAt(r: Record)
    ensures var f := Fields(r);
            && |f| >= 4 && f[0] == Decimal(r.seqNum) && f[1] == Decimal(Normalised(r).pc.value)
            && f[2] == Decimal(Normalised(r).weight.value) && f[3] == TypeName(r.kind)
  {
    FieldsAt(r);
    var f := Fields(r);
    assert f[0] == f[..4][0] && f[1] == f[..4][1] && f[2] == f[..4][2] && f[3] == f[..4][3];
  }

  lemma {:induction false} HeadOfFields(r: Record)
    ensures HeadIs(Fields(r), r)
  {
    HeadAt(r);
    ParseU64(r.seqNum);
    ParseU64(Normalised(r).pc.value);
    ParseU32(Normalised(r).weight.value);
  }

  lemma {:induction false} AllFields(r: Record)
    requires r.pAddr.Some? && r.size.Some? && r.flags.Some?
    ensures var f := Fields(r);
            && |f| == 8
            && U64Of(f[4]) == r.pAddr && U32Of(f[5]) == r.size && U32Of(f[6]) == r.flags
            && U64Of(f[7]) == Some(r.compDelay)
  {
    FieldsAt(r);
    var f := Fields(r);
    assert f[4] == f[4..][0] && f[5] == f[4..][1] && f[6] == f[4..][2] && f[7] == f[4..][3];
    ParseU64(r.pAddr.value);
    ParseU32(r.size.value);
    ParseU32(r.flags.value);
    ParseU64(r.compDelay);
  }

  lemma {:induction false} ParseFieldsOf(r: Record)
    requires r.kind != INVALID
    ensures ParseFields(Fields(r), r.robDep, r.regDep) == Some(Normalised(r)) <==> Printable(r)
  {
    HeadOfFields(r);
    if HasAddress(r.kind) {
      ParseAddressed(Fields(r), r);
      if r.pAddr.Some? && r.size.Some? && r.flags.Some? {
        AllFields(r);
      }
    } else {
      ParsePlain(Fields(r), r);
      ParseU64(r.compDelay);
    }
  }

  lemma {:induction false} JoinEnds(parts: seq<string>, sep: char)
    requires |parts| >= 1 && !IsSpace(sep) && forall k :: 0 <= k < |parts| ==> Tight(parts[k])
    ensures Tight(Join(parts, sep))
    ensures |parts| > 1 || parts[0] != "" ==> Join(parts, sep) != ""
  {
    assert Tight(parts[0]);
    if |parts| > 1 {
      JoinEnds(parts[1..], sep);
    }
  }

  lemma {:induction false} DecimalClean(n: nat, sep: char)
    requires !IsDigit(sep)
    ensures Free(Decimal(n), sep) && Tight(Decimal(n))
  {
    assert forall i :: 0 <= i < |Decimal(n)| ==> IsDigit(Decimal(n)[i]);
  }

  /** No field contains a separator or begins or ends with whitespace. */
  lemma {:induction false} FieldsClean(r: Record, sep: char)
    requires sep == ',' || sep == ':'
    ensures AllFree(Fields(r), sep) && forall k :: 0 <= k < |Fields(r)| ==> Tight(Fields(r)[k])
  {
    forall f | f in Fields(r)
      ensures Free(f, sep) && Tight(f)
    {
      if f != TypeName(r.kind) {
        var n :| f == Decimal(n);
        DecimalClean(n, sep);
      }
    }
  }

  lemma {:induction false} DepTextClean(deps: seq<U64>)
    ensures Split(DepText(deps), ',') == [""] + Decimals(deps)
    ensures Free(DepText(deps), ':') && Tight(DepText(deps))
  {
    var items := [""] + Decimals(deps);
    forall k | 0 <= k < |items|
      ensures Free(items[k], ',') && Free(items[k], ':') && Tight(items[k])
    {
      if k > 0 {
        DecimalClean(deps[k - 1], ',');
        DecimalClean(deps[k - 1], ':');
      }
    }
    SplitJoin(items, ',');
    JoinFree(items, ',', ':');
    JoinEnds(items, ',');
  }

  /** Splitting a printed line finds the three printed parts. */
  lemma {:induction false} JoinedClean(r: Record)
    ensures Split(Join(Fields(r), ','), ',') == Fields(r)
    ensures var text := Join(Fields(r), ','); Free(text, ':') && Tight(text) && text != ""
  {
    FieldsClean(r, ',');
    FieldsClean(r, ':');
    SplitJoin(Fields(r), ',');
    JoinFree(Fields(r), ',', ':');
    JoinEnds(Fields(r), ',');
  }

  lemma {:induction false} LineParts(r: Record)
    ensures Split(Strip(LineText(r)), ':') == [Join(Fields(r), ','), DepText(r.robDep), DepText(r.regDep)]
    ensures Split(Join(Fields(r), ','), ',') == Fields(r)
  {
    var a, b, c := Join(Fields(r), ','), DepText(r.robDep), DepText(r.regDep);
    JoinedClean(r);
    DepTextClean(r.robDep);
    DepTextClean(r.regDep);
    SplitJoin([a, b, c], ':');
    JoinEnds([a, b, c], ':');
    StripNewline(Join([a, b, c], ':'));
  }

  lemma {:induction false} ParsePrinted(r: Record)
    ensures Parse(LineText(r)) == ParseFields(Fields(r), r.robDep, r.regDep)
  {
    LineParts(r);
    DepTextClean(r.robDep);
    DepTextClean(r.regDep);
    StripTight(DepText(r.robDep));
    ParseDecimals(r.robDep);
    ParseDecimals(r.regDep);
  }

  /**
   Parsing a printed record gives the record back, up to the defaults for pc and weight, exactly
   when it is printable.
   */
  lemma {:induction false} ParseOfPrint(r: Record)
    ensures r.kind != INVALID ==> (Parse(LineText(r)) == Some(Normalised(r)) <==> Printable(r))
    ensures r.kind == INVALID ==> Parse(LineText(r)) == None
  {
    ParsePrinted(r);
    if r.kind != INVALID {
      ParseFieldsOf(r);
    } else {
      HeadOfFields(r);
    }
  }

  /**
   The same field by field: a missing pc is read as 0 and a missing weight as 1, and all else is
   as it was, exactly when a load or store has address, size and flags, a record of another type
   has none of them, and neither has a virtual address or an address space.
   */
  lemma {:induction false} ReadBack(r: Record)
    requires r.kind != INVALID
    ensures Parse(LineText(r)) == Some(r.(pc := Some(if r.pc.None? then 0 else r.pc.value),
                                          weight := Some(if r.weight.None? then 1 else r.weight.value)))
            <==> && r.vAddr.None? && r.asid.None?
                 && if r.kind == LOAD || r.kind == STORE then r.pAddr.Some? && r.size.Some? && r.flags.Some?
                    else r.pAddr.None? && r.size.None? && r.flags.None?
  {
    ParseOfPrint(r);
  }

  /** The head of a printed line: number, pc, weight and the name of the type. */
  lemma {:induction false} PrintedHead(r: Record)
    ensures var parts := Split(Strip(LineText(r)), ':');
            |parts| == 3 &&
            var f := Split(parts[0], ',');
            && |f| >= 5 && f[0] == Decimal(r.seqNum)
            && f[1] == Decimal(if r.pc.None? then 0 else r.pc.value)
            && f[2] == Decimal(if r.weight.None? then 1 else r.weight.value)
            && f[3] == match r.kind case INVALID => "INVALID" case LOAD => "LOAD" case STORE => "STORE" case COMP => "COMP"
  {
    LineParts(r);
    HeadAt(r);
    FieldsAt(r);
  }

  // ---------- printing what was parsed ----------

  ghost predicate IsU32(s: string) {
    IsDecimal(s) && Value(s) < 0x1_0000_0000
  }

  ghost predicate IsU64(s: string) {
    IsDecimal(s) && Value(s) < 0x1_0000_0000_0000_0000
  }

  ghost predicate CanonicalFields(f: seq<string>) {
    && |f| >= 5
    && IsU64(f[0]) && IsU64(f[1]) && IsU32(f[2])
    && (f[3] == "COMP" ==> |f| == 5 && IsU64(f[4]))
    && (f[3] != "COMP" ==>
          && (f[3] == "LOAD" || f[3] == "STORE")
          && |f| == 8 && IsU64(f[4]) && IsU32(f[5]) && IsU32(f[6]) && IsU64(f[7]))
  }

  ghost predicate CanonicalDeps(s: string) {
    var items := Split(s, ',');
    items[0] == "" && forall k :: 1 <= k < |items| ==> IsU64(items[k])
  }

  /** A line in the documented format: plain numbers, the fields of its type, every dependency behind a comma. */
  ghost predicate Canonical(line: string) {
    && line != "" && line[|line| - 1] == '\n'
    && var parts := Split(line[..|line| - 1], ':');
       && |parts| == 3
       && CanonicalFields(Split(parts[0], ',')) && CanonicalDeps(parts[1]) && CanonicalDeps(parts[2])
  }

  lemma {:induction false} DecimalsCanonical(n: nat)
    ensures IsDecimal(Decimal(n)) && Value(Decimal(n)) == n
  {
    DecimalIsDecimal(n);
    ValueOfDecimal(n);
  }

  lemma {:induction false} DepTextCanonical(deps: seq<U64>)
    ensures CanonicalDeps(DepText(deps))
  {
    DepTextClean(deps);
    forall k | 0 <= k < |deps|
      ensures IsU64(Decimals(deps)[k])
    {
      DecimalsCanonical(deps[k]);
    }
  }

  lemma {:induction false} FieldsCanonical(r: Record)
    requires Printable(r) && r.kind != INVALID
    ensures CanonicalFields(Fields(r))
  {
    var f := Fields(r);
    FieldsAt(r);
    assert f[0] == f[..4][0] && f[1] == f[..4][1] && f[2] == f[..4][2] && f[3] == f[..4][3];
    DecimalsCanonical(r.seqNum);
    DecimalsCanonical(Normalised(r).pc.value);
    DecimalsCanonical(Normalised(r).weight.value);
    DecimalsCanonical(r.compDelay);
    if HasAddress(r.kind) {
      assert f[4] == f[4..][0] && f[5] == f[4..][1] && f[6] == f[4..][2] && f[7] == f[4..][3];
      DecimalsCanonical(r.pAddr.value);
      DecimalsCanonical(r.size.value);
      DecimalsCanonical(r.flags.value);
    } else {
      assert f == HeadFields(r) + [Decimal(r.compDelay)];
    }
  }

  lemma {:induction false} PrintedCanonical(r: Record)
    requires Printable(r) && r.kind != INVALID
    ensures Canonical(LineText(r))
  {
    var a, b, c := Join(Fields(r), ','), DepText(r.robDep), DepText(r.regDep);
    var body := Join([a, b, c], ':');
    assert LineText(r)[..|LineText(r)| - 1] == body;
    LineParts(r);
    FieldsClean(r, ':');
    JoinFree(Fields(r), ',', ':');
    DepTextClean(r.robDep);
    DepTextClean(r.regDep);
    SplitJoin([a, b, c], ':');
    FieldsCanonical(r);
    DepTextCanonical(r.robDep);
    DepTextCanonical(r.regDep);
  }

  /** Whatever is parsed can be printed. */
  lemma {:induction false} ParsedPrintable(line: string)
    requires Parse(line).Some?
    ensures var r := Parse(line).value;
            Printable(r) && r.kind != INVALID && r.pc.Some? && r.weight.Some?
  {
    var parts := Split(Strip(line), ':');
    var rob, reg := ParseDeps(Split(Strip(parts[1]), ',')).value, ParseDeps(Split(parts[2], ',')).value;
    FieldsGivePrintable(Split(parts[0], ','), rob, reg);
  }

  lemma {:induction false} FieldsGivePrintable(f: seq<string>, rob: seq<U64>, reg: seq<U64>)
    requires ParseFields(f, rob, reg).Some?
    ensures var r := ParseFields(f, rob, reg).value;
            Printable(r) && r.kind != INVALID && r.pc.Some? && r.weight.Some?
  {
  }

  ghost function Values(items: seq<string>): seq<U64>
    requires forall k :: 0 <= k < |items| ==> IsU64(items[k])
  {
    seq(|items|, k requires 0 <= k < |items| && IsU64(items[k]) => Value(items[k]))
  }

  lemma {:induction false} DepsOfCanonical(s: string) returns (deps: seq<U64>)
    requires CanonicalDeps(s)
    ensures DepText(deps) == s
  {
    var items := Split(s, ',');
    JoinSplit(s, ',');
    deps := Values(items[1..]);
    forall k | 0 <= k < |deps|
      ensures Decimals(deps)[k] == items[k + 1]
    {
      assert IsU64(items[k + 1]);
      DecimalOfValue(items[k + 1]);
    }
    assert [""] + Decimals(deps) == items;
  }

  lemma {:induction false} FieldsOfPlain(f: seq<string>, rob: seq<U64>, reg: seq<U64>) returns (r: Record)
    requires CanonicalFields(f) && f[3] == "COMP"
    ensures Fields(r) == f && r.robDep == rob && r.regDep == reg
    ensures Printable(r) && r.kind != INVALID && r == Normalised(r)
  {
    r := Record(Value(f[0]), COMP, None, None, None, rob, Value(f[4]), reg, Some(Value(f[2])), Some(Value(f[1])), None, None);
    HeadOfCanonical(f, r);
    DecimalOfValue(f[4]);
    assert Fields(r) == HeadFields(r) + [Decimal(r.compDelay)];
    assert f[4..] == [f[4]];
    SameHalves(Fields(r), f, 4);
  }

  lemma {:induction false} FieldsOfAddressed(f: seq<string>, rob: seq<U64>, reg: seq<U64>) returns (r: Record)
    requires CanonicalFields(f) && f[3] != "COMP"
    ensures Fields(r) == f && r.robDep == rob && r.regDep == reg
    ensures Printable(r) && r.kind != INVALID && r == Normalised(r)
  {
    r := Record(Value(f[0]), if f[3] == "LOAD" then LOAD else STORE, Some(Value(f[4])), Some(Value(f[5])), Some(Value(f[6])),
                rob, Value(f[7]), reg, Some(Value(f[2])), Some(Value(f[1])), None, None);
    HeadOfCanonical(f, r);
    FieldsAt(r);
    TailOfCanonical(f);
    SameHalves(Fields(r), f, 4);
  }

  lemma {:induction false} TailOfCanonical(f: seq<string>)
    requires CanonicalFields(f) && f[3] != "COMP"
    ensures f[4..] == [Decimal(Value(f[4])), Decimal(Value(f[5])), Decimal(Value(f[6])), Decimal(Value(f[7]))]
  {
    DecimalOfValue(f[4]);
    DecimalOfValue(f[5]);
    DecimalOfValue(f[6]);
    DecimalOfValue(f[7]);
  }

  lemma {:induction false} SameHalves<T>(a: seq<T>, b: seq<T>, k: nat)
    requires k <= |a| && k <= |b| && a[..k] == b[..k] && a[k..] == b[k..]
    ensures a == b
  {
    assert a == a[..k] + a[k..] && b == b[..k] + b[k..];
  }

  lemma {:induction false} HeadOfCanonical(f: seq<string>, r: Record)
    requires CanonicalFields(f) && f[3] == TypeName(r.kind)
    requires r.seqNum == Value(f[0]) && r.pc == Some(Value(f[1])) && r.weight == Some(Value(f[2]))
    ensures HeadFields(r) == f[..4]
  {
    DecimalOfValue(f[0]);
    DecimalOfValue(f[1]);
    DecimalOfValue(f[2]);
  }

  lemma {:induction false} FieldsOfCanonical(f: seq<string>, rob: seq<U64>, reg: seq<U64>) returns (r: Record)
    requires CanonicalFields(f)
    ensures Fields(r) == f && r.robDep == rob && r.regDep == reg
    ensures Printable(r) && r.kind != INVALID && r == Normalised(r)
  {
    if f[3] == "COMP" {
      r := FieldsOfPlain(f, rob, reg);
    } else {
      r := FieldsOfAddressed(f, rob, reg);
    }
  }

  lemma {:induction false} LineOfParts(r: Record, parts: seq<string>)
    requires |parts| == 3
    requires parts[0] == Join(Fields(r), ',') && parts[1] == DepText(r.robDep) && parts[2] == DepText(r.regDep)
    ensures LineText(r) == Join(parts, ':') + "\n"
  {
    assert parts == [parts[0], parts[1], parts[2]];
  }

  /** Every canonical line is the line of a record. */
  lemma {:induction false} CanonicalIsPrinted(line: string) returns (r: Record)
    requires Canonical(line)
    ensures LineText(r) == line && Printable(r) && r.kind != INVALID && r == Normalised(r)
  {
    var body := line[..|line| - 1];
    r := RecordOfParts(Split(body, ':'));
    JoinSplit(body, ':');
    LineOfParts(r, Split(body, ':'));
  }

  lemma {:induction false} RecordOfParts(parts: seq<string>) returns (r: Record)
    requires |parts| == 3 && CanonicalFields(Split(parts[0], ',')) && CanonicalDeps(parts[1]) && CanonicalDeps(parts[2])
    ensures parts[0] == Join(Fields(r), ',') && parts[1] == DepText(r.robDep) && parts[2] == DepText(r.regDep)
    ensures Printable(r) && r.kind != INVALID && r == Normalised(r)
  {
    var rob := DepsOfCanonical(parts[1]);
    var reg := DepsOfCanonical(parts[2]);
    r := FieldsOfCanonical(Split(parts[0], ','), rob, reg);
    JoinSplit(parts[0], ',');
  }

  /** A line survives being parsed and printed again exactly when it is canonical. */
  lemma {:induction false} PrintOfParseIff(line: string)
    ensures Parse(line).Some? && LineText(Parse(line).value) == line <==> Canonical(line)
  {
    if Canonical(line) {
      var r := CanonicalIsPrinted(line);
      ParseOfPrint(r);
    }
    if Parse(line).Some? {
      ParsedPrintable(line);
      PrintedCanonical(Parse(line).value);
    }
  }

  // ---------- lines that parse without being canonical ----------

  /** A line reads the same with and without a newline at its end. */
  lemma {:induction false} ParseNewline(line: string)
    ensures Parse(line + "\n") == Parse(line)
  {
    assert "" + line + "\n" == line + "\n";
    StripAround("", line, "\n");
  }

  /** Fields beyond those its type has are passed over. */
  lemma {:induction false} ExtraFields(f: seq<string>, extra: seq<string>, rob: seq<U64>, reg: seq<U64>)
    requires |f| >= 8 || (|f| >= 5 && f[3] == "COMP")
    ensures ParseFields(f + extra, rob, reg) == ParseFields(f, rob, reg)
  {
    ExtraHead(f, extra, rob, reg);
    if ParseHead(f, rob, reg).Some? {
      ExtraTail(f, extra, ParseHead(f, rob, reg).value);
    }
  }

  lemma {:induction false} ExtraTail(f: seq<string>, extra: seq<string>, r: Record)
    ensures |f| >= 8 ==> WithAddress(f + extra, r) == WithAddress(f, r)
    ensures |f| >= 5 ==> WithDelay(f + extra, r) == WithDelay(f, r)
  {
    var g := f + extra;
    assert forall k :: 0 <= k < |f| ==> g[k] == f[k];
  }

  lemma {:induction false} ExtraHead(f: seq<string>, extra: seq<string>, rob: seq<U64>, reg: seq<U64>)
    requires |f| >= 4
    ensures ParseHead(f + extra, rob, reg) == ParseHead(f, rob, reg)
    ensures f[3] == "COMP" && ParseHead(f, rob, reg).Some? ==> ParseHead(f, rob, reg).value.kind == COMP
  {
    var g := f + extra;
    assert g[0] == f[0] && g[1] == f[1] && g[2] == f[2] && g[3] == f[3];
  }

  /** What the first four fields of a parsed line stand for. */
  lemma {:induction false} HeadFieldsAre(f: seq<string>, rob: seq<U64>, reg: seq<U64>)
    requires ParseHead(f, rob, reg).Some?
    ensures var r := ParseHead(f, rob, reg).value;
            && |f| >= 4
            && ParseInt(f[0]) == Some(r.seqNum) && ParseInt(f[1]) == Some(r.pc.value) && ParseInt(f[2]) == Some(r.weight.value)
            && f[3] == TypeName(r.kind) && r.robDep == rob && r.regDep == reg
  {
  }

  /** What the remaining fields of a parsed line stand for. */
  lemma {:induction false} TailFieldsAre(f: seq<string>, rob: seq<U64>, reg: seq<U64>)
    requires ParseFields(f, rob, reg).Some?
    ensures var h, r := ParseHead(f, rob, reg).value, ParseFields(f, rob, reg).value;
            if HasAddress(h.kind)
            then |f| >= 8 && r.pAddr.Some? && r.size.Some? && r.flags.Some?
                 && ParseInt(f[4]) == Some(r.pAddr.value) && ParseInt(f[5]) == Some(r.size.value)
                 && ParseInt(f[6]) == Some(r.flags.value) && ParseInt(f[7]) == Some(r.compDelay)
                 && r == h.(pAddr := r.pAddr, size := r.size, flags := r.flags, compDelay := r.compDelay)
            else |f| >= 5 && ParseInt(f[4]) == Some(r.compDelay) && r == h.(compDelay := r.compDelay)
  {
  }

  /** One more item of a dependency list: passed over if empty, otherwise a number of 64 bits or an error. */
  lemma {:induction false} DependencyItem(items: seq<string>, item: string)
    ensures ParseDeps(items + [item]) ==
            if ParseDeps(items).None? || item == "" then ParseDeps(items)
            else if ParseInt(item).None? || !(0 <= ParseInt(item).value <= 0xFFFF_FFFF_FFFF_FFFF) then None
            else Some(ParseDeps(items).value + [ParseInt(item).value])
  {
    assert (items + [item])[..|items|] == items;
  }
}
