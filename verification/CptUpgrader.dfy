/**
 The upgrader registry and `process_file` of util/cpt_upgrader.py: tables that are filled and
 rewritten while the upgrader files are loaded, and the apply loop over a mutable tag set.

 Running a migration on the checkpoint contents is recorded by listing its tag.
 */
module CptUpgrader {
  import opened Wrappers
  import opened MigrationGraph
  import opened UpgraderFiles

  /** The three places a checkpoint's version is looked for, in this order. */
  datatype VersionInfo = VersionInfo(cptVer: Option<int>, globalsTags: Option<set<Tag>>, rootTags: Option<set<Tag>>)

  datatype Outcome =
    | Unversioned
    | UnknownLegacyVersion
    | Stuck(remaining: set<Tag>)
    | NothingToDo
    | NoGlobalsSection
    | Written(tags: set<Tag>, applied: seq<seq<Tag>>)

  /** `order` lists every tag of `batch` once and no other. */
  ghost predicate Enumerates(order: seq<Tag>, batch: set<Tag>) {
    && (forall i, j :: 0 <= i < j < |order| ==> order[i] != order[j])
    && (forall t :: t in order <==> t in batch)
  }

  /** Each list of `applied` is its round's batch, in some order. */
  ghost predicate RunsAs(g: Graph, start: set<Tag>, applied: seq<seq<Tag>>) {
    forall k :: 0 <= k < |applied| ==> Enumerates(applied[k], Batch(g, After(g, start, k)))
  }

  /** What the apply loop must deliver from the tags `start`; `changed` says they were just converted. */
  ghost predicate OutcomeFor(g: Graph, start: set<Tag>, changed: bool, out: Outcome) {
    match out
    case Stuck(remaining) =>
      !Succeeds(g, start) && remaining != {} &&
      exists k: nat :: remaining == After(g, start, k).pending && Batch(g, After(g, start, k)) == {}
    case NothingToDo =>
      !changed && Pending(g, start) == {}
    case Written(tags, applied) =>
      && (changed || Pending(g, start) != {})
      && Succeeds(g, start)
      && RunsAs(g, start, applied) && After(g, start, |applied|).pending == {}
      && tags == (start + g.up) - g.down
    case _ =>
      false
  }

  /** The same for the whole file: the new tags can only be recorded in a section that is there. */
  ghost predicate FileOutcome(g: Graph, start: set<Tag>, changed: bool, hasGlobals: bool, out: Outcome) {
    if out.NoGlobalsSection? then !hasGlobals && Succeeds(g, start) && (changed || Pending(g, start) != {})
    else OutcomeFor(g, start, changed, out) && (out.Written? ==> hasGlobals)
  }

  ghost predicate Applies(applied: seq<seq<Tag>>, t: Tag) {
    exists k :: 0 <= k < |applied| && t in applied[k]
  }

  /** No tag is listed twice, in one round or in two. */
  ghost predicate NoRepeats(applied: seq<seq<Tag>>) {
    && (forall k, i, j :: 0 <= k < |applied| && 0 <= i < j < |applied[k]| ==> applied[k][i] != applied[k][j])
    && (forall k, l, t :: 0 <= k < l < |applied| && t in applied[k] ==> t !in applied[l])
  }

  /** A complete run lists the tags that were pending, and those alone. */
  lemma {:induction false} AppliesPending(g: Graph, start: set<Tag>, applied: seq<seq<Tag>>, t: Tag)
    requires g.Valid() && RunsAs(g, start, applied) && After(g, start, |applied|).pending == {}
    ensures Applies(applied, t) <==> t in Pending(g, start)
  {
    if t in Pending(g, start) {
      var k := AppliedInSomeRound(g, start, t, |applied|);
      assert t in applied[k];
    } else if k :| 0 <= k < |applied| && t in applied[k] {
      StateInvariant(g, start, k);
    }
  }

  lemma {:induction false} RunsWithoutRepeats(g: Graph, start: set<Tag>, applied: seq<seq<Tag>>)
    requires g.Valid() && RunsAs(g, start, applied) && After(g, start, |applied|).pending == {}
    ensures NoRepeats(applied)
  {
    forall k, l, t | 0 <= k < l < |applied| && t in applied[k]
      ensures t !in applied[l]
    {
      assert Enumerates(applied[k], Batch(g, After(g, start, k))) && Enumerates(applied[l], Batch(g, After(g, start, l)));
      PendingShrinks(g, start, k + 1, l);
    }
  }

  lemma {:induction false} NothingPending(g: Graph, start: set<Tag>)
    ensures Pending(g, start) == {} <==> g.up <= start && g.down !! start
  {
    if t :| t in g.up && t !in start {
      assert t in Pending(g, start);
    } else if t :| t in g.down && t in start {
      assert t in Pending(g, start);
    } else {
      assert Pending(g, start) == {};
    }
  }

  /**
   What the outcome of a file means, from the tags it starts with: which outcome there is, which
   migrations are applied, and which tags are recorded.
   */
  lemma {:induction false} OutcomeMeans(g: Graph, start: set<Tag>, changed: bool, hasGlobals: bool, out: Outcome)
    requires g.Valid() && FileOutcome(g, start, changed, hasGlobals, out)
    ensures out.Stuck? <==> !Schedulable(g, start)
    ensures out.NothingToDo? <==> !changed && g.up <= start && g.down !! start
    ensures out.NoGlobalsSection? || out.Written? ==> (out.Written? <==> hasGlobals)
    ensures out.Written? ==> forall t :: t in out.tags <==> t !in g.down && (t in start || t in g.up)
    ensures out.Written? ==> forall t :: Applies(out.applied, t) <==> if t in start then t in g.down else t in g.up
    ensures out.Written? ==> NoRepeats(out.applied)
  {
    SucceedsIffSchedulable(g, start);
    NothingPending(g, start);
    if Pending(g, start) == {} {
      assert After(g, start, 0).pending == {};
    }
    if out.Written? {
      forall t
        ensures Applies(out.applied, t) <==> if t in start then t in g.down else t in g.up
      {
        AppliesPending(g, start, out.applied, t);
      }
      RunsWithoutRepeats(g, start, out.applied);
    }
  }

  lemma {:induction false} RoundRecorded(g: Graph, start: set<Tag>, applied: seq<seq<Tag>>, order: seq<Tag>)
    requires RunsAs(g, start, applied) && Enumerates(order, Batch(g, After(g, start, |applied|)))
    ensures RunsAs(g, start, applied + [order])
  {
  }

  lemma {:induction false} StuckOutcome(g: Graph, start: set<Tag>, changed: bool, k: nat)
    requires g.Valid() && After(g, start, k).pending != {} && Batch(g, After(g, start, k)) == {}
    ensures OutcomeFor(g, start, changed, Stuck(After(g, start, k).pending))
  {
    StuckDecides(g, start, k);
  }

  lemma {:induction false} DoneOutcome(g: Graph, start: set<Tag>, changed: bool, applied: seq<seq<Tag>>)
    requires g.Valid() && RunsAs(g, start, applied) && After(g, start, |applied|).pending == {}
    requires applied != [] ==> Pending(g, start) != {}
    ensures OutcomeFor(g, start, changed,
                       if changed || applied != [] then Written(After(g, start, |applied|).tags, applied) else NothingToDo)
  {
    FinalTags(g, start, |applied|);
  }

  class Registry {
    var tagSet: set<Tag>
    var untagSet: set<Tag>
    var byTag: map<Tag, Upgrader>
    var legacy: map<int, Tag>

    ghost predicate Valid()
      reads this
    {
      && tagSet !! untagSet
      && byTag.Keys == tagSet + untagSet
      && Injective(legacy) && legacy.Values <= byTag.Keys
      && (forall t :: t in byTag ==> byTag[t].tag == t && (byTag[t].kind == Upgrades <==> t in tagSet))
    }

    ghost function ToGraph(): Graph
      reads this
    {
      Graph(tagSet, untagSet, map t | t in byTag :: byTag[t].depends)
    }

    constructor ()
      ensures tagSet == untagSet == {} && byTag == map[] && legacy == map[]
    {
      tagSet, untagSet, byTag, legacy := {}, {}, map[], map[];
    }

    /** Registers the files one by one; a file that defines no migration is an error. */
    method LoadFiles(files: seq<Upgrader>) returns (ok: bool)
      requires tagSet == untagSet == {} && byTag == map[] && legacy == map[] && UniqueTags(files)
      modifies this
      ensures ok <==> forall i :: 0 <= i < |files| ==> files[i].kind != Neither
      ensures ok ==> Valid() && byTag == ByTag(files) && legacy == LegacyTags(files)
      ensures ok ==> tagSet == TagsOf(files, Upgrades) && untagSet == TagsOf(files, Downgrades)
    {
      for k := 0 to |files|
        invariant byTag == ByTag(files[..k]) && legacy == LegacyTags(files[..k])
        invariant tagSet == TagsOf(files[..k], Upgrades) && untagSet == TagsOf(files[..k], Downgrades)
        invariant forall i :: 0 <= i < k ==> files[i].kind != Neither
      {
        var file := files[k];
        assert files[..k + 1][..k] == files[..k];
        TagsOfStep(files, k, Upgrades);
        TagsOfStep(files, k, Downgrades);
        match file.kind {
          case Upgrades =>
            tagSet := tagSet + {file.tag};
          case Downgrades =>
            untagSet := untagSet + {file.tag};
          case Neither =>
            return false;
        }
        if file.legacyVersion.Some? {
          legacy := legacy[file.legacyVersion.value := file.tag];
        }
        byTag := byTag[file.tag := file];
      }
      assert files[..|files|] == files;
      LoadedValid(files);
      ok := true;
    }

    lemma {:induction false} LoadedValid(files: seq<Upgrader>)
      requires byTag == ByTag(files) && legacy == LegacyTags(files) && UniqueTags(files)
      requires tagSet == TagsOf(files, Upgrades) && untagSet == TagsOf(files, Downgrades)
      requires forall i :: 0 <= i < |files| ==> files[i].kind != Neither
      ensures Valid()
    {
      LegacyInjective(files);
      forall i | 0 <= i < |files|
        ensures files[i].tag in byTag && byTag[files[i].tag] == files[i]
      {
        Registered(files, i);
      }
      forall t | t in byTag
        ensures exists i :: 0 <= i < |files| && files[i].tag == t
      {
        var i := RegisteredFrom(files, t);
      }
    }

    /** Makes each legacy version depend on its predecessor alone; version 3 without 2 is an error. */
    method ChainLegacy() returns (ok: bool)
      requires Valid()
      modifies this`byTag
      ensures ok <==> (3 in legacy ==> 2 in legacy)
      ensures ok ==> Valid() && IsChained(legacy, old(byTag), byTag)
    {
      var i := 3;
      ghost var left := legacy.Keys;
      while i in legacy
        invariant ChainUpTo(legacy, i) && byTag == Rechained(legacy, old(byTag), i)
        invariant forall v :: v in legacy && v >= i ==> v in left
        decreases left
      {
        if i - 1 !in legacy {
          return false;
        }
        RechainedSame(legacy, old(byTag), i);
        assert legacy[i] in legacy.Values;
        byTag := byTag[legacy[i] := byTag[legacy[i]].(depends := [legacy[i - 1]])];
        left := left - {i};
        i := i + 1;
      }
      RechainedSame(legacy, old(byTag), i);
      RechainedIsChained(legacy, old(byTag), i);
      ok := true;
    }

    /** Resolves forward dependencies and audits the lists, whatever order the tags are visited in. */
    method LinkForward() returns (ok: bool)
      requires Valid()
      modifies this`byTag
      ensures ok <==> NamesResolve(byTag.Keys, old(byTag))
      ensures ok ==> Valid() && IsLinked(byTag.Keys, old(byTag), byTag)
    {
      var todo := byTag.Keys;
      while todo != {}
        invariant Valid() && todo <= byTag.Keys == old(byTag).Keys
        invariant IsLinked(byTag.Keys - todo, old(byTag), byTag)
        invariant NamesResolve(byTag.Keys - todo, old(byTag))
        decreases todo
      {
        ghost var mid, done := byTag, byTag.Keys - todo;
        var tag :| tag in todo;
        assert mid[tag].fwdDepends == old(byTag)[tag].fwdDepends;
        var linked := AddForward(tag);
        if !linked {
          return false;
        }
        LinkOneMore(done, tag, old(byTag), mid, byTag);
        AuditOneMore(done, tag, old(byTag), byTag);
        var audited := Audit(tag);
        if !audited {
          return false;
        }
        todo := todo - {tag};
        assert byTag.Keys - todo == done + {tag};
      }
      assert byTag.Keys - todo == byTag.Keys;
      ok := true;
    }

    /** Appends `tag` to the list of every tag it forward-depends on. */
    method AddForward(tag: Tag) returns (ok: bool)
      requires Valid() && tag in byTag
      modifies this`byTag
      ensures ok <==> forall d :: d in old(byTag)[tag].fwdDepends ==> d in byTag
      ensures byTag.Keys == old(byTag).Keys
      ensures ok ==> Valid() && IsLinked({tag}, old(byTag), byTag)
    {
      var forward := byTag[tag].fwdDepends;
      for j := 0 to |forward|
        invariant Valid() && SameBut(old(byTag), byTag)
        invariant forall d :: d in forward[..j] ==> d in byTag
        invariant forall t, d :: t in byTag ==>
                    (d in byTag[t].depends <==> d in old(byTag)[t].depends || (d == tag && t in forward[..j]))
      {
        var fd := forward[j];
        if fd !in byTag {
          return false;
        }
        assert forward[..j + 1] == forward[..j] + [fd];
        byTag := byTag[fd := byTag[fd].(depends := byTag[fd].depends + [tag])];
      }
      ok := true;
    }

    method Audit(tag: Tag) returns (ok: bool)
      requires tag in byTag
      ensures ok <==> forall d :: d in byTag[tag].depends ==> d in byTag
    {
      var depends := byTag[tag].depends;
      for j := 0 to |depends|
        invariant forall d :: d in depends[..j] ==> d in byTag
      {
        if depends[j] !in byTag {
          return false;
        }
      }
      ok := true;
    }

    /** Loads every file and links the dependencies; it ends normally exactly on loadable files. */
    method LoadAll(files: seq<Upgrader>) returns (ok: bool)
      requires tagSet == untagSet == {} && byTag == map[] && legacy == map[] && UniqueTags(files)
      modifies this
      ensures ok <==> Loadable(files)
      ensures ok ==> Valid() && legacy == LegacyTags(files)
      ensures ok ==> Describes(files, ToGraph()) && ToGraph().Valid() && ToGraph().Audited()
    {
      ok := LoadFiles(files);
      if !ok {
        return;
      }
      ok := ChainLegacy();
      if !ok {
        return;
      }
      ghost var chained := byTag;
      ChainedNames(files, chained);
      ok := LinkForward();
      if ok {
        LinkingDescribes(files, chained, byTag, ToGraph());
        LoadedGraphAudited(files, ToGraph());
      }
    }

    method IsReady(tag: Tag, tags: set<Tag>) returns (ready: bool)
      requires tag in byTag
      ensures ready <==> Ready(ToGraph(), tag, tags)
    {
      var depends := byTag[tag].depends;
      for i := 0 to |depends|
        invariant forall d | d in depends[..i] :: d in tags
      {
        if depends[i] !in tags {
          return false;
        }
      }
      ready := true;
    }

    /** Removing a tag that is absent would raise an error, so a downgrader must find its tag. */
    method Update(tag: Tag, tags: set<Tag>) returns (tags': set<Tag>)
      requires Valid() && tag in byTag
      requires tag in untagSet ==> tag in tags
      ensures tags' == ApplyAll(ToGraph(), tags, {tag})
    {
      if byTag[tag].kind == Upgrades {
        tags' := tags + {tag};
      } else {
        tags' := tags - {tag};
      }
    }

    method ReadyTags(pending: set<Tag>, tags: set<Tag>) returns (ready: set<Tag>)
      requires Valid() && pending <= byTag.Keys
      ensures ready == Batch(ToGraph(), State(pending, tags))
    {
      ready := {};
      var todo := pending;
      while todo != {}
        invariant todo <= pending
        invariant ready == Batch(ToGraph(), State(pending - todo, tags))
        decreases todo
      {
        var t :| t in todo;
        var isReady := IsReady(t, tags);
        if isReady {
          ready := ready + {t};
        }
        todo := todo - {t};
      }
      assert pending - todo == pending;
    }

    /** Applies one round's migrations, in some order, listing them as they run. */
    method ApplyRound(ready: set<Tag>, tags: set<Tag>) returns (tags': set<Tag>, order: seq<Tag>)
      requires Valid() && ready <= byTag.Keys
      requires ready * untagSet <= tags
      ensures tags' == ApplyAll(ToGraph(), tags, ready)
      ensures Enumerates(order, ready)
    {
      tags', order := tags, [];
      var todo := ready;
      while todo != {}
        invariant todo <= ready && todo * untagSet <= tags'
        invariant tags' == ApplyAll(ToGraph(), tags, ready - todo)
        invariant Enumerates(order, ready - todo)
        decreases todo
      {
        var t :| t in todo;
        tags' := Update(t, tags');
        order := order + [t];
        todo := todo - {t};
      }
      assert ready - todo == ready;
    }

    /**
     Brings a checkpoint up to date: works out its tags, applies rounds until none is left or none
     is ready, and records the new tags.  `hasGlobals` says whether the section for them is there
     once the migrations have run.
     */
    method ProcessFile(version: VersionInfo, hasGlobals: bool) returns (out: Outcome)
      requires Valid()
      ensures out == Unversioned <==> version.cptVer.None? && version.globalsTags.None? && version.rootTags.None?
      ensures out == UnknownLegacyVersion <==>
                version.cptVer.Some? && exists v :: 2 <= v <= version.cptVer.value && v !in legacy
      ensures version.cptVer.Some? && (forall v :: 2 <= v <= version.cptVer.value ==> v in legacy) ==>
                FileOutcome(ToGraph(), set v | 2 <= v <= version.cptVer.value && v in legacy :: legacy[v], true, hasGlobals, out)
      ensures version.cptVer.None? && version.globalsTags.Some? ==>
                FileOutcome(ToGraph(), version.globalsTags.value, false, hasGlobals, out)
      ensures version.cptVer.None? && version.globalsTags.None? && version.rootTags.Some? ==>
                FileOutcome(ToGraph(), version.rootTags.value, false, hasGlobals, out)
      ensures version.cptVer.Some? && out.Written? ==>
                forall t :: Applies(out.applied, t) <==>
                  if exists v :: 2 <= v <= version.cptVer.value && v in legacy && legacy[v] == t
                  then t in untagSet else t in tagSet
      ensures out.Written? ==> NoRepeats(out.applied)
    {
      if version.cptVer.Some? {
        out := ProcessLegacy(version.cptVer.value, hasGlobals);
      } else if version.globalsTags.Some? {
        out := MigrateAndRecord(version.globalsTags.value, false, hasGlobals);
      } else if version.rootTags.Some? {
        out := MigrateAndRecord(version.rootTags.value, false, hasGlobals);
      } else {
        out := Unversioned;
      }
    }

    /** A checkpoint of legacy version `ver`: its tags are those of the versions from 2 to `ver`. */
    method ProcessLegacy(ver: int, hasGlobals: bool) returns (out: Outcome)
      requires Valid()
      ensures out != Unversioned
      ensures out == UnknownLegacyVersion <==> exists v :: 2 <= v <= ver && v !in legacy
      ensures (forall v :: 2 <= v <= ver ==> v in legacy) ==>
                FileOutcome(ToGraph(), set v | 2 <= v <= ver && v in legacy :: legacy[v], true, hasGlobals, out)
      ensures out.Written? ==>
                forall t :: Applies(out.applied, t) <==>
                  if exists v :: 2 <= v <= ver && v in legacy && legacy[v] == t then t in untagSet else t in tagSet
      ensures out.Written? ==> NoRepeats(out.applied)
    {
      var tags := {};
      for i := 2 to if ver < 2 then 2 else ver + 1
        invariant forall v :: 2 <= v < i ==> v in legacy
        invariant tags == set v | 2 <= v < i && v in legacy :: legacy[v]
      {
        if i !in legacy {
          return UnknownLegacyVersion;
        }
        tags := tags + {legacy[i]};
      }
      assert tags == set v | 2 <= v <= ver && v in legacy :: legacy[v];
      out := MigrateAndRecord(tags, true, hasGlobals);
    }

    /** Applies the migrations and records the new tags, if there are any and there is a place for them. */
    method MigrateAndRecord(start: set<Tag>, changed: bool, hasGlobals: bool) returns (out: Outcome)
      requires Valid()
      ensures FileOutcome(ToGraph(), start, changed, hasGlobals, out)
      ensures out.Written? ==> forall t :: Applies(out.applied, t) <==> if t in start then t in untagSet else t in tagSet
      ensures out.Written? ==> NoRepeats(out.applied)
    {
      out := Migrate(start, changed);
      if out.Written? && !hasGlobals {
        out := NoGlobalsSection;
      }
      OutcomeMeans(ToGraph(), start, changed, hasGlobals, out);
    }

    /** One round: finds the migrations that are ready and applies them. */
    method RunRound(ghost start: set<Tag>, ghost k: nat, pending: set<Tag>, tags: set<Tag>)
      returns (ready: set<Tag>, tags': set<Tag>, order: seq<Tag>)
      requires Valid() && State(pending, tags) == After(ToGraph(), start, k)
      ensures ready <= pending && ready == Batch(ToGraph(), After(ToGraph(), start, k))
      ensures State(pending - ready, tags') == After(ToGraph(), start, k + 1)
      ensures Enumerates(order, ready)
    {
      StateInvariant(ToGraph(), start, k);
      ready := ReadyTags(pending, tags);
      forall d | d in ready * untagSet
        ensures d in tags
      {
        HeldIff(ToGraph(), start, k, d);
      }
      tags', order := ApplyRound(ready, tags);
    }

    method Migrate(start: set<Tag>, changed: bool) returns (out: Outcome)
      requires Valid()
      ensures OutcomeFor(ToGraph(), start, changed, out)
    {
      ghost var g := ToGraph();
      var tags, change, applied := start, changed, [];
      var pending := (tagSet - tags) + (untagSet * tags);
      while pending != {}
        invariant State(pending, tags) == After(g, start, |applied|)
        invariant RunsAs(g, start, applied)
        invariant change == (changed || applied != [])
        invariant applied != [] ==> Pending(g, start) != {}
        decreases pending
      {
        var ready, order;
        ready, tags, order := RunRound(start, |applied|, pending, tags);
        if ready == {} {
          StuckOutcome(g, start, changed, |applied|);
          return Stuck(pending);
        }
        RoundRecorded(g, start, applied, order);
        applied := applied + [order];
        pending := pending - ready;
        change := true;
      }
      DoneOutcome(g, start, changed, applied);
      out := if change then Written(tags, applied) else NothingToDo;
    }
  }
}
