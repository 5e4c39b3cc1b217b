/**
 Merging checkpoints of single-program runs into one (util/checkpoint_aggregator.py): the
 processor sections of all of them under new names, the remaining sections of the last, and
 their memory images laid behind each other.
 */
module Aggregator {
  import opened Wrappers
  import opened Text
  import opened Varint
  import opened SectionNames
  import opened MemoryImage

  datatype Value = Num(n: int) | Str(s: string)

  datatype Section = Section(name: string, items: map<string, Value>)

  /** A checkpoint's sections, the page count of its `system` section if it has one, and its memory image. */
  datatype Checkpoint = Checkpoint(sections: seq<Section>, pagePtr: Option<nat>, image: seq<Byte>)

  datatype Merged = Merged(config: seq<Section>, image: seq<Byte>)

  /** A configuration file names every section once. */
  ghost predicate UniqueNames(sections: seq<Section>) {
    forall k, l :: 0 <= k < l < |sections| ==> sections[k].name != sections[l].name
  }

  function Find(sections: seq<Section>, name: string): Option<Section> {
    if sections == [] then None
    else if sections[|sections| - 1].name == name then Some(sections[|sections| - 1])
    else Find(sections[..|sections| - 1], name)
  }

  function MemoryOf(c: Checkpoint): Memory {
    Memory(c.image, if c.pagePtr.Some? then c.pagePtr.value else 0)
  }

  function Memories(cs: seq<Checkpoint>): (ms: seq<Memory>)
    ensures |ms| == |cs| && forall i :: 0 <= i < |cs| ==> ms[i] == MemoryOf(cs[i])
  {
    if cs == [] then [] else Memories(cs[..|cs| - 1]) + [MemoryOf(cs[|cs| - 1])]
  }

  /** A section name that ends in `workload`, one character, `FdMap256`. */
  predicate IsFdMap(name: string) {
    |name| >= 17 && name[|name| - 8..] == "FdMap256" && name[|name| - 17..|name| - 9] == "workload"
  }

  /** The items of a processor section, its physical address moved by `base` pages. */
  function MovedItems(s: Section, i: nat, base: nat): map<string, Value> {
    var items := if "paddr" in s.items && s.items["paddr"].Num?
                 then s.items["paddr" := Num(s.items["paddr"].n + base * PAGE)] else s.items;
    if IsFdMap(s.name) then items["M5_pid" := Num(i)] else items
  }

  predicate IsKept(s: Section, i: nat, count: nat) {
    HasCpu(s.name) || (s.name != "system" && s.name != "Globals" && i == count - 1)
  }

  /** What becomes of one section of checkpoint `i`. */
  function MergedSection(s: Section, i: nat, count: nat, base: nat): Section
    requires i < count
  {
    if HasCpu(s.name) then Section(Renamed(s.name, i, count), MovedItems(s, i, base)) else s
  }

  /** The sections merged from all checkpoints before `i` and the first `k` sections of checkpoint `i`. */
  function MergedUpTo(cs: seq<Checkpoint>, i: nat, k: nat): seq<Section>
    requires i < |cs| && k <= |cs[i].sections|
    decreases i, k
  {
    if k > 0 then
      var s := cs[i].sections[k - 1];
      MergedUpTo(cs, i, k - 1) +
      if IsKept(s, i, |cs|) then [MergedSection(s, i, |cs|, TotalPages(Memories(cs)[..i]))] else []
    else if i == 0 then []
    else MergedUpTo(cs, i - 1, |cs[i - 1].sections|)
  }

  function MergedSections(cs: seq<Checkpoint>): seq<Section>
    requires |cs| >= 1
  {
    MergedUpTo(cs, |cs| - 1, |cs[|cs| - 1].sections|)
  }

  // ---------- renamed sections are distinct ----------

  /** Section `l` of checkpoint `j` gives rise to a section called `name`. */
  ghost predicate GivesName(cs: seq<Checkpoint>, j: nat, l: nat, name: string) {
    && j < |cs| && l < |cs[j].sections|
    && IsKept(cs[j].sections[l], j, |cs|)
    && name == MergedSection(cs[j].sections[l], j, |cs|, 0).name
  }

  ghost predicate Before(j: nat, l: nat, i: nat, k: nat) {
    j < i || (j == i && l < k)
  }

  lemma {:induction false} GivesNameOnce(cs: seq<Checkpoint>, j: nat, l: nat, j': nat, l': nat, name: string)
    requires forall i :: 0 <= i < |cs| ==> UniqueNames(cs[i].sections)
    requires GivesName(cs, j, l, name) && GivesName(cs, j', l', name)
    ensures j == j' && l == l'
  {
    var s, t := cs[j].sections[l], cs[j'].sections[l'];
    if HasCpu(s.name) {
      RenamedHasCpu(s.name, j, |cs|);
    }
    if HasCpu(t.name) {
      RenamedHasCpu(t.name, j', |cs|);
    }
    if HasCpu(s.name) && HasCpu(t.name) {
      RenamedInjective(s.name, j, t.name, j', |cs|);
    }
    assert s.name == t.name && j == j';
    assert UniqueNames(cs[j].sections);
  }

  lemma {:induction false} MergedOrigin(cs: seq<Checkpoint>, i: nat, k: nat, p: nat) returns (j: nat, l: nat)
    requires i < |cs| && k <= |cs[i].sections| && p < |MergedUpTo(cs, i, k)|
    ensures Before(j, l, i, k) && GivesName(cs, j, l, MergedUpTo(cs, i, k)[p].name)
    ensures MergedUpTo(cs, i, k)[p] == MergedSection(cs[j].sections[l], j, |cs|, TotalPages(Memories(cs)[..j]))
    decreases i, k
  {
    if k > 0 {
      if p < |MergedUpTo(cs, i, k - 1)| {
        j, l := MergedOrigin(cs, i, k - 1, p);
      } else {
        j, l := i, k - 1;
      }
    } else {
      j, l := MergedOrigin(cs, i - 1, |cs[i - 1].sections|, p);
    }
  }

  /** No name is given twice, in all checkpoints together, so adding a section never fails. */
  lemma {:induction false} MergedUnique(cs: seq<Checkpoint>, i: nat, k: nat)
    requires i < |cs| && k <= |cs[i].sections|
    requires forall i :: 0 <= i < |cs| ==> UniqueNames(cs[i].sections)
    ensures UniqueNames(MergedUpTo(cs, i, k))
    decreases i, k
  {
    if k > 0 {
      MergedUnique(cs, i, k - 1);
      var before, all := MergedUpTo(cs, i, k - 1), MergedUpTo(cs, i, k);
      if |all| > |before| {
        var name := all[|before|].name;
        assert GivesName(cs, i, k - 1, name);
        forall p | 0 <= p < |before|
          ensures before[p].name != name
        {
          var j, l := MergedOrigin(cs, i, k - 1, p);
          if before[p].name == name {
            GivesNameOnce(cs, j, l, i, k - 1, name);
          }
        }
      }
    } else if i > 0 {
      MergedUnique(cs, i - 1, |cs[i - 1].sections|);
    }
  }

  /** Every processor section of every checkpoint is there, with its address moved. */
  lemma {:induction false} MergedContains(cs: seq<Checkpoint>, i: nat, k: nat, j: nat, l: nat)
    requires i < |cs| && k <= |cs[i].sections|
    requires j < |cs| && l < |cs[j].sections| && Before(j, l, i, k) && IsKept(cs[j].sections[l], j, |cs|)
    ensures MergedSection(cs[j].sections[l], j, |cs|, TotalPages(Memories(cs)[..j])) in MergedUpTo(cs, i, k)
    decreases i, k
  {
    if k > 0 {
      if j == i && l == k - 1 {
      } else {
        MergedContains(cs, i, k - 1, j, l);
      }
    } else {
      MergedContains(cs, i - 1, |cs[i - 1].sections|, j, l);
    }
  }

  // ---------- the whole merge ----------

  function StoreName(): string {
    "system.physmem.store0"
  }

  function SystemSection(pages: nat, count: nat): Section {
    Section("system", map["pagePtr" := Num(pages), "nextPID" := Num(count)])
  }

  function GlobalsSection(tick: int): Section {
    Section("Globals", map["curTick" := Num(tick)])
  }

  /** The merged sections with the counts that are known at the end. */
  function Finished(merged: seq<Section>, system: Section, globals: Section, rangeSize: nat): seq<Section> {
    SetIn(merged + [system], StoreName(), "range_size", Num(rangeSize)) + [globals]
  }

  /** Addresses and ticks are numbers where they are read as numbers. */
  predicate SectionOk(s: Section) {
    && (HasCpu(s.name) && "paddr" in s.items ==> s.items["paddr"].Num?)
    && (!HasCpu(s.name) && s.name == "Globals" ==> "curTick" in s.items && s.items["curTick"].Num?)
  }

  predicate SectionsOk(sections: seq<Section>) {
    sections == [] || (SectionsOk(sections[..|sections| - 1]) && SectionOk(sections[|sections| - 1]))
  }

  predicate CheckpointsOk(cs: seq<Checkpoint>) {
    cs == [] ||
    (CheckpointsOk(cs[..|cs| - 1]) && cs[|cs| - 1].pagePtr.Some? && SectionsOk(cs[|cs| - 1].sections))
  }

  /** The merge ends without an error: there is something to merge, and all that is looked up is there. */
  predicate Aggregatable(cs: seq<Checkpoint>) {
    && |cs| >= 1 && CheckpointsOk(cs)
    && Find(cs[|cs| - 1].sections, StoreName()).Some?
  }

  /** The tick recorded by a `Globals` section. */
  function TickOf(s: Section): Option<int> {
    if !HasCpu(s.name) && s.name == "Globals" && "curTick" in s.items && s.items["curTick"].Num?
    then Some(s.items["curTick"].n) else None
  }

  /** The larger of `tick` and the current ticks of the sections. */
  function LatestIn(sections: seq<Section>, tick: int): int {
    if sections == [] then tick else
      var before, t := LatestIn(sections[..|sections| - 1], tick), TickOf(sections[|sections| - 1]);
      if t.Some? && t.value > before then t.value else before
  }

  function Latest(cs: seq<Checkpoint>): int {
    if cs == [] then 0 else LatestIn(cs[|cs| - 1].sections, Latest(cs[..|cs| - 1]))
  }

  function SetIn(sections: seq<Section>, name: string, key: string, v: Value): (r: seq<Section>)
    ensures |r| == |sections|
    ensures forall k :: 0 <= k < |sections| ==>
              r[k] == if sections[k].name == name then sections[k].(items := sections[k].items[key := v]) else sections[k]
  {
    if sections == [] then [] else
      var s := sections[|sections| - 1];
      SetIn(sections[..|sections| - 1], name, key, v) + [if s.name == name then s.(items := s.items[key := v]) else s]
  }

  function MergedConfig(cs: seq<Checkpoint>, padded: nat): seq<Section>
    requires |cs| >= 1
  {
    Finished(MergedSections(cs), SystemSection(TotalPages(Memories(cs)), |cs|), GlobalsSection(Latest(cs)), padded * PAGE)
  }

  function FinalPages(cs: seq<Checkpoint>, memorySize: nat): nat {
    PaddedPages(TotalPages(Memories(cs)), memorySize)
  }

  function MergedImage(cs: seq<Checkpoint>, memorySize: nat): seq<Byte> {
    PaddedData(Body(Memories(cs)), TotalPages(Memories(cs)), memorySize)
  }

  lemma {:induction false} SectionsFail(sections: seq<Section>, k: nat)
    requires k <= |sections| && !SectionsOk(sections[..k])
    ensures !SectionsOk(sections)
    decreases |sections| - k
  {
    if k < |sections| {
      assert sections[..k + 1][..k] == sections[..k];
      SectionsFail(sections, k + 1);
    } else {
      assert sections[..k] == sections;
    }
  }

  lemma {:induction false} CheckpointsFail(cs: seq<Checkpoint>, i: nat)
    requires i <= |cs| && !CheckpointsOk(cs[..i])
    ensures !CheckpointsOk(cs)
    decreases |cs| - i
  {
    if i < |cs| {
      assert cs[..i + 1][..i] == cs[..i];
      CheckpointsFail(cs, i + 1);
    } else {
      assert cs[..i] == cs;
    }
  }

  /** What happens to one section: renamed and moved, dropped, looked at for its tick, or kept as it is. */
  method MergeOne(s: Section, i: nat, count: nat, pagePtr: nat, before: seq<Section>, tick: int)
    returns (config: seq<Section>, latest: int)
    requires i < count && SectionOk(s)
    ensures config == before + if IsKept(s, i, count) then [MergedSection(s, i, count, pagePtr)] else []
    ensures latest == if TickOf(s).Some? && TickOf(s).value > tick then TickOf(s).value else tick
  {
    config, latest := before, tick;
    if HasCpu(s.name) {
      config := config + [Section(Renamed(s.name, i, count), MovedItems(s, i, pagePtr))];
    } else if s.name == "system" {
    } else if s.name == "Globals" {
      if s.items["curTick"].n > latest {
        latest := s.items["curTick"].n;
      }
    } else if i == count - 1 {
      config := config + [s];
    }
  }

  /** Goes through the sections of checkpoint `i`, adding those that are kept. */
  method MergeSections(cs: seq<Checkpoint>, i: nat, pagePtr: nat, before: seq<Section>, tick: int)
    returns (ok: bool, config: seq<Section>, latest: int)
    requires i < |cs| && pagePtr == TotalPages(Memories(cs)[..i]) && before == MergedUpTo(cs, i, 0)
    ensures ok <==> SectionsOk(cs[i].sections)
    ensures ok ==> config == MergedUpTo(cs, i, |cs[i].sections|) && latest == LatestIn(cs[i].sections, tick)
  {
    var sections := cs[i].sections;
    config, latest := before, tick;
    for k := 0 to |sections|
      invariant SectionsOk(sections[..k])
      invariant config == MergedUpTo(cs, i, k) && latest == LatestIn(sections[..k], tick)
    {
      var s := sections[k];
      assert sections[..k + 1][..k] == sections[..k];
      if !SectionOk(s) {
        SectionsFail(sections, k + 1);
        return false, config, latest;
      }
      config, latest := MergeOne(s, i, |cs|, pagePtr, config, latest);
    }
    assert sections[..|sections|] == sections;
    ok := true;
  }

  /** The configuration merged in front of checkpoint `i`. */
  ghost predicate ConfigBefore(cs: seq<Checkpoint>, i: nat, config: seq<Section>, latest: int)
    requires i <= |cs|
  {
    config == (if i == 0 then [] else MergedUpTo(cs, i - 1, |cs[i - 1].sections|)) && latest == Latest(cs[..i])
  }

  /** The memory copied in front of checkpoint `i`. */
  ghost predicate MemoryBefore(ms: seq<Memory>, i: nat, pagePtr: nat, data: seq<Byte>)
    requires i <= |ms|
  {
    pagePtr == TotalPages(ms[..i]) && data == Body(ms[..i])
  }

  /** What the loop over the checkpoints carries along. */
  datatype Progress = Progress(config: seq<Section>, pagePtr: nat, latest: int)

  /** All checkpoints in front of `i` have been merged without an error. */
  ghost predicate Merging(cs: seq<Checkpoint>, i: nat, p: Progress, data: seq<Byte>) {
    && i <= |cs| && CheckpointsOk(cs[..i])
    && ConfigBefore(cs, i, p.config, p.latest) && MemoryBefore(Memories(cs), i, p.pagePtr, data)
  }

  /** Merges one checkpoint: sections, latest tick, page count and memory pages. */
  method MergeCheckpoint(cs: seq<Checkpoint>, i: nat, out: OutFile, p: Progress) returns (r: Option<Progress>)
    requires i < |cs| && Merging(cs, i, p, out.data)
    modifies out
    ensures r.Some? <==> cs[i].pagePtr.Some? && SectionsOk(cs[i].sections)
    ensures r.Some? ==> Merging(cs, i + 1, r.value, out.data)
    ensures r.None? ==> !CheckpointsOk(cs)
  {
    var ok, config, latest := MergeSections(cs, i, p.pagePtr, p.config, p.latest);
    OneMoreOk(cs, i);
    if !ok || cs[i].pagePtr.None? {
      CheckpointsFail(cs, i + 1);
      return None;
    }
    CopyPages(out, MemoryOf(cs[i]));
    OneMoreMemory(Memories(cs), i);
    assert cs[..i + 1][..i] == cs[..i];
    r := Some(Progress(config, p.pagePtr + cs[i].pagePtr.value, latest));
  }

  lemma {:induction false} OneMoreMemory(ms: seq<Memory>, i: nat)
    requires i < |ms|
    ensures TotalPages(ms[..i + 1]) == TotalPages(ms[..i]) + ms[i].pages
    ensures Body(ms[..i + 1]) == Body(ms[..i]) + Copied(ms[i])
  {
    assert ms[..i + 1][..i] == ms[..i];
  }

  /** Merges the checkpoints one by one. */
  method MergeCheckpoints(cs: seq<Checkpoint>, out: OutFile) returns (r: Option<Progress>)
    requires out.data == []
    modifies out
    ensures r.Some? <==> CheckpointsOk(cs)
    ensures r.Some? ==> Merging(cs, |cs|, r.value, out.data)
  {
    var p := Progress([], 0, 0);
    NothingBefore(cs);
    for i := 0 to |cs|
      invariant Merging(cs, i, p, out.data)
    {
      r := MergeCheckpoint(cs, i, out, p);
      if r.None? {
        return;
      }
      p := r.value;
    }
    AllMerged(cs, p, out.data);
    r := Some(p);
  }

  lemma {:induction false} AllMerged(cs: seq<Checkpoint>, p: Progress, data: seq<Byte>)
    requires Merging(cs, |cs|, p, data)
    ensures CheckpointsOk(cs)
  {
    assert cs[..|cs|] == cs;
  }

  lemma {:induction false} NothingBefore(cs: seq<Checkpoint>)
    ensures Merging(cs, 0, Progress([], 0, 0), [])
  {
  }

  lemma {:induction false} OneMoreOk(cs: seq<Checkpoint>, i: nat)
    requires i < |cs|
    ensures CheckpointsOk(cs[..i + 1]) <==> CheckpointsOk(cs[..i]) && cs[i].pagePtr.Some? && SectionsOk(cs[i].sections)
  {
    assert cs[..i + 1][..i] == cs[..i];
  }

  /** The same, with the results in terms of all checkpoints. */
  method MergeAll(cs: seq<Checkpoint>, out: OutFile) returns (r: Option<Progress>)
    requires |cs| >= 1 && out.data == []
    modifies out
    ensures r.Some? <==> CheckpointsOk(cs)
    ensures r.Some? ==> r.value == Progress(MergedSections(cs), TotalPages(Memories(cs)), Latest(cs))
    ensures r.Some? ==> out.data == Body(Memories(cs))
  {
    r := MergeCheckpoints(cs, out);
    if r.Some? {
      ConfigAtEnd(cs, r.value.config, r.value.latest);
      MemoryAtEnd(Memories(cs), r.value.pagePtr, out.data);
    }
  }

  lemma {:induction false} ConfigAtEnd(cs: seq<Checkpoint>, config: seq<Section>, latest: int)
    requires |cs| >= 1 && ConfigBefore(cs, |cs|, config, latest)
    ensures config == MergedSections(cs) && latest == Latest(cs)
  {
    assert cs[..|cs|] == cs;
  }

  lemma {:induction false} MemoryAtEnd(ms: seq<Memory>, pagePtr: nat, data: seq<Byte>)
    requires MemoryBefore(ms, |ms|, pagePtr, data)
    ensures pagePtr == TotalPages(ms) && data == Body(ms)
  {
    assert ms[..|ms|] == ms;
  }

  /** Enters the final counts, and the size into the memory's own section. */
  method FinishConfig(merged: seq<Section>, count: nat, pagePtr: nat, padded: nat, latest: int)
    returns (config: seq<Section>)
    ensures config == Finished(merged, SystemSection(pagePtr, count), GlobalsSection(latest), padded * PAGE)
  {
    config := merged + [SystemSection(pagePtr, count)];
    config := SetIn(config, StoreName(), "range_size", Num(padded * PAGE));
    config := config + [GlobalsSection(latest)];
  }

  method Aggregate(cs: seq<Checkpoint>, memorySize: nat) returns (r: Option<Merged>)
    ensures r.Some? <==> Aggregatable(cs)
    ensures r.Some? ==> r.value.config == MergedConfig(cs, FinalPages(cs, memorySize))
    ensures r.Some? ==> r.value.image == MergedImage(cs, memorySize)
  {
    if cs == [] {
      return None;
    }
    var out := new OutFile();
    var p := MergeAll(cs, out);
    if p.None? || Find(cs[|cs| - 1].sections, StoreName()).None? {
      return None;
    }
    var merged := Complete(cs, p.value, out, memorySize);
    r := Some(merged);
  }

  /** Pads the memory and finishes the configuration. */
  method Complete(cs: seq<Checkpoint>, p: Progress, out: OutFile, memorySize: nat) returns (m: Merged)
    requires |cs| >= 1 && p == Progress(MergedSections(cs), TotalPages(Memories(cs)), Latest(cs))
    requires out.data == Body(Memories(cs))
    modifies out
    ensures m == Merged(MergedConfig(cs, FinalPages(cs, memorySize)), MergedImage(cs, memorySize))
  {
    var padded := Pad(out, p.pagePtr, memorySize);
    var config := FinishConfig(p.config, |cs|, p.pagePtr, padded, p.latest);
    m := Merged(config, out.data);
  }

  // ---------- what the merged checkpoint holds ----------

  lemma {:induction false} ReservedNames()
    ensures !HasCpu("system") && !HasCpu("Globals") && !HasCpu(StoreName())
  {
    NoCpuByLetters("system");
    NoCpuByLetters("Globals");
    NoCpuByLetters(StoreName());
  }

  lemma {:induction false} NoCpuByLetters(s: string)
    requires forall i :: 0 <= i < |s| ==> s[i] != 'c'
    ensures !HasCpu(s)
  {
    if s != "" {
      NoCpuByLetters(s[1..]);
    }
  }

  lemma {:induction false} NotReserved(cs: seq<Checkpoint>, p: nat)
    requires |cs| >= 1 && p < |MergedSections(cs)|
    ensures MergedSections(cs)[p].name != "system" && MergedSections(cs)[p].name != "Globals"
  {
    var j, l := MergedOrigin(cs, |cs| - 1, |cs[|cs| - 1].sections|, p);
    if HasCpu(cs[j].sections[l].name) {
      RenamedHasCpu(cs[j].sections[l].name, j, |cs|);
      CpuNotReserved(MergedSections(cs)[p].name);
    }
  }

  lemma {:induction false} CpuNotReserved(name: string)
    requires HasCpu(name)
    ensures name != "system" && name != "Globals" && name != StoreName()
  {
    ReservedNames();
  }

  lemma {:induction false} FinishedUnique(merged: seq<Section>, system: Section, globals: Section, rangeSize: nat)
    requires UniqueNames(merged) && system.name == "system" && globals.name == "Globals"
    requires forall p :: 0 <= p < |merged| ==> merged[p].name != "system" && merged[p].name != "Globals"
    ensures UniqueNames(Finished(merged, system, globals, rangeSize))
  {
    var all := merged + [system];
    var set' := SetIn(all, StoreName(), "range_size", Num(rangeSize));
    assert forall p :: 0 <= p < |all| ==> set'[p].name == all[p].name;
  }

  /** All sections of the merged configuration have different names. */
  lemma {:induction false} MergedNamesUnique(cs: seq<Checkpoint>, padded: nat)
    requires |cs| >= 1 && forall i :: 0 <= i < |cs| ==> UniqueNames(cs[i].sections)
    ensures UniqueNames(MergedConfig(cs, padded))
  {
    MergedUnique(cs, |cs| - 1, |cs[|cs| - 1].sections|);
    forall p | 0 <= p < |MergedSections(cs)|
      ensures MergedSections(cs)[p].name != "system" && MergedSections(cs)[p].name != "Globals"
    {
      NotReserved(cs, p);
    }
    FinishedUnique(MergedSections(cs), SystemSection(TotalPages(Memories(cs)), |cs|), GlobalsSection(Latest(cs)), padded * PAGE);
  }

  lemma {:induction false} SetInKeeps(sections: seq<Section>, s: Section, name: string, key: string, v: Value)
    requires s in sections && s.name != name
    ensures s in SetIn(sections, name, key, v)
  {
    var k :| 0 <= k < |sections| && sections[k] == s;
    assert SetIn(sections, name, key, v)[k] == s;
  }

  lemma {:induction false} FinishedKeeps(merged: seq<Section>, s: Section, system: Section, globals: Section, rangeSize: nat)
    requires s in merged && s.name != StoreName()
    ensures s in Finished(merged, system, globals, rangeSize)
  {
    assert s in merged + [system];
    SetInKeeps(merged + [system], s, StoreName(), "range_size", Num(rangeSize));
  }

  /** The section a processor section of checkpoint `i` becomes. */
  function MovedSection(cs: seq<Checkpoint>, i: nat, l: nat): Section
    requires i < |cs| && l < |cs[i].sections|
  {
    MergedSection(cs[i].sections[l], i, |cs|, TotalPages(Memories(cs)[..i]))
  }

  lemma {:induction false} MovedSectionKept(cs: seq<Checkpoint>, i: nat, l: nat, padded: nat)
    requires i < |cs| && l < |cs[i].sections| && HasCpu(cs[i].sections[l].name)
    ensures MovedSection(cs, i, l) in MergedConfig(cs, padded)
  {
    MergedContains(cs, |cs| - 1, |cs[|cs| - 1].sections|, i, l);
    RenamedHasCpu(cs[i].sections[l].name, i, |cs|);
    CpuNotReserved(MovedSection(cs, i, l).name);
    FinishedKeeps(MergedSections(cs), MovedSection(cs, i, l),
                  SystemSection(TotalPages(Memories(cs)), |cs|), GlobalsSection(Latest(cs)), padded * PAGE);
  }

  /** A processor section of checkpoint `i` gives a physical address in use. */
  ghost predicate Maps(cs: seq<Checkpoint>, i: nat, l: nat, addr: nat) {
    && i < |cs| && l < |cs[i].sections|
    && HasCpu(cs[i].sections[l].name)
    && "paddr" in cs[i].sections[l].items && cs[i].sections[l].items["paddr"] == Num(addr)
    && addr < MemoryOf(cs[i]).pages * PAGE
  }

  /** The section's address is moved like the memory it points to. */
  lemma {:induction false} MovedAddress(cs: seq<Checkpoint>, i: nat, l: nat, addr: nat)
    requires Maps(cs, i, l, addr)
    ensures var s := MovedSection(cs, i, l);
            && s.name == Renamed(cs[i].sections[l].name, i, |cs|)
            && "paddr" in s.items && s.items["paddr"] == Num(Relocated(Memories(cs), i, addr))
  {
  }

  /**
   Every page mapped by a processor section is found in the merged checkpoint: the section is
   there under its new name, and from the address it gives now on the merged memory holds the
   bytes that the original memory held from the address it gave before.
   */
  lemma {:induction false} MappedMemoryPreserved(cs: seq<Checkpoint>, memorySize: nat, i: nat, l: nat, addr: nat, off: nat)
    requires Maps(cs, i, l, addr) && addr + off < MemoryOf(cs[i]).pages * PAGE
    requires Full(MemoryOf(cs[i])) && forall j :: 0 <= j < i ==> Full(MemoryOf(cs[j]))
    ensures MovedTo(cs, FinalPages(cs, memorySize), i, l, Relocated(Memories(cs), i, addr))
    ensures SameByte(cs, memorySize, i, addr + off, Relocated(Memories(cs), i, addr) + off)
  {
    SectionMoved(cs, FinalPages(cs, memorySize), i, l, addr);
    MergedByte(cs, memorySize, i, addr, off);
  }

  lemma {:induction false} SectionMoved(cs: seq<Checkpoint>, padded: nat, i: nat, l: nat, addr: nat)
    requires Maps(cs, i, l, addr)
    ensures MovedTo(cs, padded, i, l, Relocated(Memories(cs), i, addr))
  {
    MovedSectionKept(cs, i, l, padded);
    MovedAddress(cs, i, l, addr);
  }

  /** In the merged configuration, section `l` of checkpoint `i` is there under its new name with address `addr'`. */
  ghost predicate MovedTo(cs: seq<Checkpoint>, padded: nat, i: nat, l: nat, addr': nat)
    requires i < |cs| && l < |cs[i].sections|
  {
    var s := MovedSection(cs, i, l);
    && s in MergedConfig(cs, padded) && s.name == Renamed(cs[i].sections[l].name, i, |cs|)
    && "paddr" in s.items && s.items["paddr"] == Num(addr')
  }

  /** The merged memory holds at `a'` what the memory of checkpoint `i` held at `a`. */
  ghost predicate SameByte(cs: seq<Checkpoint>, memorySize: nat, i: nat, a: nat, a': nat)
    requires i < |cs|
  {
    && a < |cs[i].image| && a' < |MergedImage(cs, memorySize)|
    && MergedImage(cs, memorySize)[a'] == cs[i].image[a]
  }

  lemma {:induction false} MergedByte(cs: seq<Checkpoint>, memorySize: nat, i: nat, addr: nat, off: nat)
    requires i < |cs| && addr + off < MemoryOf(cs[i]).pages * PAGE
    requires Full(MemoryOf(cs[i])) && forall j :: 0 <= j < i ==> Full(MemoryOf(cs[j]))
    ensures SameByte(cs, memorySize, i, addr + off, Relocated(Memories(cs), i, addr) + off)
  {
    RelocatedByte(Memories(cs), i, addr + off);
  }

  /** All of a page in use is in use. */
  lemma {:induction false} PageInUse(addr: nat, off: nat, pages: nat)
    requires addr % PAGE == 0 && addr < pages * PAGE && off < PAGE
    ensures addr + off < pages * PAGE
  {
  }

  // ---------- the counts entered at the end ----------

  lemma {:induction false} FindGives(sections: seq<Section>, name: string) returns (l: nat)
    requires Find(sections, name).Some?
    ensures l < |sections| && sections[l].name == name
  {
    if sections[|sections| - 1].name == name {
      l := |sections| - 1;
    } else {
      l := FindGives(sections[..|sections| - 1], name);
    }
  }

  lemma {:induction false} SetInSets(sections: seq<Section>, s: Section, name: string, key: string, v: Value)
    requires s in sections && s.name == name
    ensures s.(items := s.items[key := v]) in SetIn(sections, name, key, v)
  {
    var k :| 0 <= k < |sections| && sections[k] == s;
    assert SetIn(sections, name, key, v)[k] == s.(items := s.items[key := v]);
  }

  /** The last checkpoint's memory section is in the merged configuration, with the final size. */
  lemma {:induction false} StoreKept(cs: seq<Checkpoint>, padded: nat) returns (s: Section)
    requires Aggregatable(cs)
    ensures s in MergedConfig(cs, padded) && s.name == StoreName()
    ensures "range_size" in s.items && s.items["range_size"] == Num(padded * PAGE)
  {
    var last := |cs| - 1;
    var l := FindGives(cs[last].sections, StoreName());
    ReservedNames();
    var t := cs[last].sections[l];
    MergedContains(cs, last, |cs[last].sections|, last, l);
    var system := SystemSection(TotalPages(Memories(cs)), |cs|);
    SetInSets(MergedSections(cs) + [system], t, StoreName(), "range_size", Num(padded * PAGE));
    s := t.(items := t.items["range_size" := Num(padded * PAGE)]);
  }

  /** Padding completes the last page: the image has the announced size iff no image was short. */
  lemma {:induction false} ImageLength(cs: seq<Checkpoint>, memorySize: nat)
    ensures |MergedImage(cs, memorySize)| <= FinalPages(cs, memorySize) * PAGE
    ensures |MergedImage(cs, memorySize)| == FinalPages(cs, memorySize) * PAGE <==>
              forall i :: 0 <= i < |cs| ==> Full(MemoryOf(cs[i]))
  {
    var ms := Memories(cs);
    BodyLength(ms);
    PaddedLength(Body(ms), TotalPages(ms), memorySize);
    forall i | 0 <= i < |cs|
      ensures Full(ms[i]) <==> Full(MemoryOf(cs[i]))
    {
    }
  }

  /**
   The size announced for the memory is the length of the image written exactly when no
   checkpoint's image is shorter than its page count says.
   */
  lemma {:induction false} RangeSizeIff(cs: seq<Checkpoint>, memorySize: nat) returns (s: Section)
    requires Aggregatable(cs)
    ensures s in MergedConfig(cs, FinalPages(cs, memorySize)) && s.name == StoreName() && "range_size" in s.items
    ensures s.items["range_size"] == Num(|MergedImage(cs, memorySize)|) <==>
              forall i :: 0 <= i < |cs| ==> Full(MemoryOf(cs[i]))
  {
    s := StoreKept(cs, FinalPages(cs, memorySize));
    ImageLength(cs, memorySize);
  }

  /** The tick of a section: that of the global one. */
  lemma {:induction false} TickOfIs(s: Section, n: int)
    ensures TickOf(s) == Some(n) <==> s.name == "Globals" && "curTick" in s.items && s.items["curTick"] == Num(n)
  {
    ReservedNames();
  }

  lemma {:induction false} LatestInIsLargest(sections: seq<Section>, tick: int)
    ensures LatestIn(sections, tick) >= tick
    ensures forall l, n :: 0 <= l < |sections| && TickOf(sections[l]) == Some(n) ==> n <= LatestIn(sections, tick)
    ensures LatestIn(sections, tick) == tick ||
            exists l :: 0 <= l < |sections| && TickOf(sections[l]) == Some(LatestIn(sections, tick))
  {
    if sections != [] {
      var front := sections[..|sections| - 1];
      LatestInIsLargest(front, tick);
      assert forall l :: 0 <= l < |front| ==> front[l] == sections[l];
    }
  }

  /** The tick of the merged checkpoint is the largest of any checkpoint, or zero if none is positive. */
  lemma {:induction false} LatestIsLargest(cs: seq<Checkpoint>)
    ensures Latest(cs) >= 0
    ensures forall i, l, n :: 0 <= i < |cs| && 0 <= l < |cs[i].sections| && TickOf(cs[i].sections[l]) == Some(n) ==> n <= Latest(cs)
    ensures Latest(cs) == 0 ||
            exists i, l :: 0 <= i < |cs| && 0 <= l < |cs[i].sections| && TickOf(cs[i].sections[l]) == Some(Latest(cs))
  {
    if cs != [] {
      var front, c := cs[..|cs| - 1], cs[|cs| - 1];
      LatestIsLargest(front);
      LatestInIsLargest(c.sections, Latest(front));
      assert forall i :: 0 <= i < |front| ==> front[i] == cs[i];
    }
  }

  /** The section on the pages in use and the number of programs. */
  lemma {:induction false} SystemKept(cs: seq<Checkpoint>, padded: nat) returns (s: Section)
    requires |cs| >= 1
    ensures s in MergedConfig(cs, padded) && s.name == "system"
    ensures s.items == map["pagePtr" := Num(TotalPages(Memories(cs))), "nextPID" := Num(|cs|)]
  {
    var merged := MergedSections(cs);
    s := SystemSection(TotalPages(Memories(cs)), |cs|);
    assert (merged + [s])[|merged|] == s;
    SetInKeeps(merged + [s], s, StoreName(), "range_size", Num(padded * PAGE));
  }

  /** The tick written is the latest. */
  lemma {:induction false} FinalTick(cs: seq<Checkpoint>, padded: nat)
    requires |cs| >= 1
    ensures MergedConfig(cs, padded)[|MergedConfig(cs, padded)| - 1] == Section("Globals", map["curTick" := Num(Latest(cs))])
  {
    ReservedNames();
  }

  // ---------- what becomes of the items of a section ----------

  ghost predicate SameItem(a: map<string, Value>, b: map<string, Value>, key: string) {
    (key in a <==> key in b) && (key in a ==> a[key] == b[key])
  }

  /** A descriptor table: `workload`, one character and `FdMap256` at the end of the name. */
  lemma {:induction false} IsFdMapIs(name: string)
    ensures IsFdMap(name) <==> exists front: string, c: char :: name == front + "workload" + [c] + "FdMap256"
  {
    if IsFdMap(name) {
      var n := |name| - 17;
      assert name == name[..n] + name[n..n + 8] + [name[n + 8]] + name[n + 9..];
    }
    forall front: string, c: char | name == front + "workload" + [c] + "FdMap256"
      ensures IsFdMap(name)
    {
      FdMapEnd(front, c);
    }
  }

  lemma {:induction false} FdMapEnd(front: string, c: char)
    ensures IsFdMap(front + "workload" + [c] + "FdMap256")
  {
    var name := front + "workload" + [c] + "FdMap256";
    assert name[|name| - 8..] == "FdMap256" && name[|name| - 17..|name| - 9] == "workload";
  }

  /** Moving a section changes nothing but its address and, in a descriptor table, the process number. */
  lemma {:induction false} MovedItemsAre(s: Section, i: nat, base: nat, key: string)
    ensures key != "paddr" && key != "M5_pid" ==> SameItem(s.items, MovedItems(s, i, base), key)
    ensures IsFdMap(s.name) ==> "M5_pid" in MovedItems(s, i, base) && MovedItems(s, i, base)["M5_pid"] == Num(i)
    ensures !IsFdMap(s.name) ==> SameItem(s.items, MovedItems(s, i, base), "M5_pid")
    ensures "paddr" in s.items <==> "paddr" in MovedItems(s, i, base)
    ensures "paddr" in s.items && s.items["paddr"].Num? ==>
              MovedItems(s, i, base)["paddr"] == Num(s.items["paddr"].n + 4096 * base)
  {
    assert "paddr" != "M5_pid";
  }

  /**
   Every processor section of every checkpoint is in the merged configuration under its new name:
   its address is moved, a descriptor table gets the number of its process, and all other items
   are the same.
   */
  lemma {:induction false} ProcessorSectionKept(cs: seq<Checkpoint>, padded: nat, i: nat, l: nat, key: string) returns (s: Section)
    requires i < |cs| && l < |cs[i].sections| && HasCpu(cs[i].sections[l].name)
    ensures s in MergedConfig(cs, padded) && s.name == Renamed(cs[i].sections[l].name, i, |cs|)
    ensures var items := cs[i].sections[l].items;
            && (key != "paddr" && key != "M5_pid" ==> SameItem(items, s.items, key))
            && ("paddr" in items <==> "paddr" in s.items)
            && ("paddr" in items && items["paddr"].Num? ==>
                  s.items["paddr"] == Num(items["paddr"].n + 4096 * TotalPages(Memories(cs)[..i])))
    ensures if exists front: string, c: char :: cs[i].sections[l].name == front + "workload" + [c] + "FdMap256"
            then "M5_pid" in s.items && s.items["M5_pid"] == Num(i)
            else SameItem(cs[i].sections[l].items, s.items, "M5_pid")
  {
    s := MovedSection(cs, i, l);
    MovedSectionKept(cs, i, l, padded);
    MovedItemsAre(cs[i].sections[l], i, TotalPages(Memories(cs)[..i]), key);
    IsFdMapIs(cs[i].sections[l].name);
  }

  /**
   Every other section of the last checkpoint, but for the two that are written anew, is there
   with its items; only the size of the memory is replaced.
   */
  lemma {:induction false} OtherSectionKept(cs: seq<Checkpoint>, padded: nat, l: nat, key: string) returns (s: Section)
    requires |cs| >= 1 && l < |cs[|cs| - 1].sections|
    requires var name := cs[|cs| - 1].sections[l].name; !HasCpu(name) && name != "system" && name != "Globals"
    ensures s in MergedConfig(cs, padded) && s.name == cs[|cs| - 1].sections[l].name
    ensures !(s.name == "system.physmem.store0" && key == "range_size") ==>
              SameItem(cs[|cs| - 1].sections[l].items, s.items, key)
  {
    var last := |cs| - 1;
    MergedContains(cs, last, |cs[last].sections|, last, l);
    s := FinishedHas(MergedSections(cs), cs[last].sections[l],
                     SystemSection(TotalPages(Memories(cs)), |cs|), GlobalsSection(Latest(cs)), padded * PAGE, key);
  }

  lemma {:induction false} FinishedHas(merged: seq<Section>, t: Section, system: Section, globals: Section, rangeSize: nat, key: string)
    returns (s: Section)
    requires t in merged
    ensures s in Finished(merged, system, globals, rangeSize) && s.name == t.name
    ensures !(t.name == "system.physmem.store0" && key == "range_size") ==> SameItem(t.items, s.items, key)
  {
    assert t in merged + [system];
    if t.name == StoreName() {
      SetInSets(merged + [system], t, StoreName(), "range_size", Num(rangeSize));
      s := t.(items := t.items["range_size" := Num(rangeSize)]);
    } else {
      SetInKeeps(merged + [system], t, StoreName(), "range_size", Num(rangeSize));
      s := t;
    }
  }

  // ---------- when a merge fails ----------

  lemma {:induction false} SectionsOkIs(sections: seq<Section>)
    ensures SectionsOk(sections) <==> forall l :: 0 <= l < |sections| ==> SectionOk(sections[l])
  {
    if sections != [] {
      SectionsOkIs(sections[..|sections| - 1]);
    }
  }

  lemma {:induction false} CheckpointsOkIs(cs: seq<Checkpoint>)
    ensures CheckpointsOk(cs) <==> forall i :: 0 <= i < |cs| ==> cs[i].pagePtr.Some? && SectionsOk(cs[i].sections)
  {
    if cs != [] {
      CheckpointsOkIs(cs[..|cs| - 1]);
    }
  }

  ghost predicate HasSection(sections: seq<Section>, name: string) {
    exists l :: 0 <= l < |sections| && sections[l].name == name
  }

  lemma {:induction false} FindIs(sections: seq<Section>, name: string)
    ensures Find(sections, name).Some? <==> HasSection(sections, name)
  {
    if sections != [] {
      FindIs(sections[..|sections| - 1], name);
      assert forall l :: 0 <= l < |sections| - 1 ==> sections[..|sections| - 1][l] == sections[l];
    }
  }

  /** What a section must hold: a processor's address and a global tick are numbers. */
  lemma {:induction false} SectionOkIs(s: Section)
    ensures SectionOk(s) <==>
              && (HasCpu(s.name) && "paddr" in s.items ==> s.items["paddr"].Num?)
              && (s.name == "Globals" ==> "curTick" in s.items && s.items["curTick"].Num?)
  {
    ReservedNames();
  }

  /** The merge succeeds if and only if there is something to merge and all that is looked up is there. */
  lemma {:induction false} AggregatableIs(cs: seq<Checkpoint>)
    ensures Aggregatable(cs) <==>
              && |cs| >= 1
              && (forall i :: 0 <= i < |cs| ==> cs[i].pagePtr.Some?)
              && (forall i, l :: 0 <= i < |cs| && 0 <= l < |cs[i].sections| ==> SectionOk(cs[i].sections[l]))
              && HasSection(cs[|cs| - 1].sections, "system.physmem.store0")
  {
    CheckpointsOkIs(cs);
    forall i | 0 <= i < |cs|
      ensures SectionsOk(cs[i].sections) <==> forall l :: 0 <= l < |cs[i].sections| ==> SectionOk(cs[i].sections[l])
    {
      SectionsOkIs(cs[i].sections);
    }
    if cs != [] {
      FindIs(cs[|cs| - 1].sections, StoreName());
    }
  }
}
