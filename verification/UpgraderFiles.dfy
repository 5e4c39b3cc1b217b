/**
 What a list of upgrader files means: the dependency graph after the legacy chain and the
 forward dependencies have been linked in.
 */
module UpgraderFiles {
  import opened Wrappers
  import opened MigrationGraph

  datatype Kind = Upgrades | Downgrades | Neither

  datatype Upgrader = Upgrader(tag: Tag, kind: Kind, depends: seq<Tag>, fwdDepends: seq<Tag>, legacyVersion: Option<int>)

  ghost predicate UniqueTags(files: seq<Upgrader>) {
    forall i, j :: 0 <= i < j < |files| ==> files[i].tag != files[j].tag
  }

  function ByTag(files: seq<Upgrader>): map<Tag, Upgrader> {
    if files == [] then map[]
    else ByTag(files[..|files| - 1])[files[|files| - 1].tag := files[|files| - 1]]
  }

  /** The tag registered for each legacy version; of two files claiming one, the later wins. */
  function LegacyTags(files: seq<Upgrader>): map<int, Tag> {
    if files == [] then map[] else
      var f := files[|files| - 1];
      var before := LegacyTags(files[..|files| - 1]);
      if f.legacyVersion.Some? then before[f.legacyVersion.value := f.tag] else before
  }

  function TagsOf(files: seq<Upgrader>, kind: Kind): set<Tag> {
    set i | 0 <= i < |files| && files[i].kind == kind :: files[i].tag
  }

  lemma {:induction false} TagsOfStep(files: seq<Upgrader>, k: nat, kind: Kind)
    requires k < |files|
    ensures TagsOf(files[..k + 1], kind) == TagsOf(files[..k], kind) + if files[k].kind == kind then {files[k].tag} else {}
  {
    assert forall i :: 0 <= i < k ==> files[..k + 1][i] == files[..k][i];
  }

  /** Version `v` lies on the unbroken run of legacy versions that starts at 3. */
  ghost predicate OnChain(legacy: map<int, Tag>, v: int) {
    v >= 3 && forall i :: 3 <= i <= v ==> i in legacy
  }

  ghost predicate ChainedTag(legacy: map<int, Tag>, t: Tag) {
    exists v :: OnChain(legacy, v) && legacy[v] == t
  }

  /** `d` is a dependency of `u` before forward dependencies: the chain replaces the file's own list. */
  ghost predicate BaseDependency(legacy: map<int, Tag>, u: Upgrader, d: Tag) {
    if ChainedTag(legacy, u.tag)
    then exists v :: OnChain(legacy, v) && legacy[v] == u.tag && v - 1 in legacy && d == legacy[v - 1]
    else d in u.depends
  }

  /** `d` names `t` among its forward dependencies. */
  ghost predicate ForwardDependency(registered: map<Tag, Upgrader>, t: Tag, d: Tag) {
    d in registered && t in registered[d].fwdDepends
  }

  ghost predicate SameBut(before: map<Tag, Upgrader>, after: map<Tag, Upgrader>) {
    && after.Keys == before.Keys
    && forall t :: t in after ==> after[t] == before[t].(depends := after[t].depends)
  }

  /** `after` is `before` with every chained version depending on its predecessor alone. */
  ghost predicate IsChained(legacy: map<int, Tag>, before: map<Tag, Upgrader>, after: map<Tag, Upgrader>) {
    && SameBut(before, after)
    && forall t, d :: t in after ==> (d in after[t].depends <==> BaseDependency(legacy, before[t], d))
  }

  ghost predicate ChainUpTo(legacy: map<int, Tag>, stop: int) {
    stop >= 3 && (forall v :: 3 <= v < stop ==> v in legacy) && (stop > 3 ==> 2 in legacy)
  }

  /** The table after the chain loop has handled the versions from 3 up to, not including, `stop`. */
  function Rechained(legacy: map<int, Tag>, registered: map<Tag, Upgrader>, stop: int): map<Tag, Upgrader>
    requires ChainUpTo(legacy, stop) && legacy.Values <= registered.Keys
    decreases stop
  {
    if stop == 3 then registered else
      assert stop - 1 in legacy && stop - 2 in legacy;
      assert legacy[stop - 1] in legacy.Values;
      Rechained(legacy, registered, stop - 1)
        [legacy[stop - 1] := registered[legacy[stop - 1]].(depends := [legacy[stop - 2]])]
  }

  lemma {:induction false} RechainedSame(legacy: map<int, Tag>, registered: map<Tag, Upgrader>, stop: int)
    requires ChainUpTo(legacy, stop) && legacy.Values <= registered.Keys && Injective(legacy)
    ensures SameBut(registered, Rechained(legacy, registered, stop))
    decreases stop
  {
    if stop > 3 {
      RechainedSame(legacy, registered, stop - 1);
    }
  }

  /** A list is the predecessor's tag when its version has been handled, and untouched otherwise. */
  lemma {:induction false} RechainedAt(legacy: map<int, Tag>, registered: map<Tag, Upgrader>, stop: int, t: Tag)
    requires ChainUpTo(legacy, stop) && legacy.Values <= registered.Keys && Injective(legacy) && t in registered
    ensures t in Rechained(legacy, registered, stop)
    ensures (forall v :: 3 <= v < stop ==> legacy[v] != t) ==> Rechained(legacy, registered, stop)[t] == registered[t]
    ensures forall v, w :: 3 <= v < stop && w == v - 1 && legacy[v] == t ==>
              w in legacy && Rechained(legacy, registered, stop)[t].depends == [legacy[w]]
    decreases stop
  {
    if stop > 3 {
      RechainedAt(legacy, registered, stop - 1, t);
    }
  }

  lemma {:induction false} RechainedIsChained(legacy: map<int, Tag>, registered: map<Tag, Upgrader>, stop: int)
    requires ChainUpTo(legacy, stop) && legacy.Values <= registered.Keys && Injective(legacy) && stop !in legacy
    requires forall t :: t in registered ==> registered[t].tag == t
    ensures IsChained(legacy, registered, Rechained(legacy, registered, stop))
  {
    RechainedSame(legacy, registered, stop);
    forall t, d | t in registered
      ensures d in Rechained(legacy, registered, stop)[t].depends <==> BaseDependency(legacy, registered[t], d)
    {
      RechainedAt(legacy, registered, stop, t);
      if v :| 3 <= v < stop && legacy[v] == t {
        var w := v - 1;
        assert OnChain(legacy, v) && w in legacy;
        assert ChainedTag(legacy, t);
      } else {
        assert forall v :: OnChain(legacy, v) ==> v < stop;
        assert !ChainedTag(legacy, t);
      }
    }
  }

  /** `after` is `before` with the forward dependencies of the tags in `done` turned round and added. */
  ghost predicate IsLinked(done: set<Tag>, before: map<Tag, Upgrader>, after: map<Tag, Upgrader>) {
    && SameBut(before, after)
    && forall t, d :: t in after ==>
         (d in after[t].depends <==> d in before[t].depends || (d in done && ForwardDependency(before, t, d)))
  }

  lemma {:induction false} LinkOneMore(done: set<Tag>, tag: Tag, before: map<Tag, Upgrader>, mid: map<Tag, Upgrader>, after: map<Tag, Upgrader>)
    requires IsLinked(done, before, mid) && IsLinked({tag}, mid, after)
    ensures IsLinked(done + {tag}, before, after)
  {
    assert SameBut(before, after);
    forall t, d | t in after
      ensures d in after[t].depends <==> d in before[t].depends || (d in done + {tag} && ForwardDependency(before, t, d))
    {
      assert d in mid ==> mid[d] == before[d].(depends := mid[d].depends);
      assert ForwardDependency(mid, t, d) <==> ForwardDependency(before, t, d);
      assert d in mid[t].depends <==> d in before[t].depends || (d in done && ForwardDependency(before, t, d));
      assert d in after[t].depends <==> d in mid[t].depends || (d in {tag} && ForwardDependency(mid, t, d));
    }
  }

  /** Every tag of `done` names only registered tags, forward and backward. */
  ghost predicate NamesResolve(done: set<Tag>, registered: map<Tag, Upgrader>) {
    forall t, d :: t in done && t in registered && (d in registered[t].fwdDepends || d in registered[t].depends) ==>
      d in registered
  }

  /** Auditing the list of `tag` after its forward dependencies were added finds what the original list holds. */
  lemma {:induction false} AuditOneMore(done: set<Tag>, tag: Tag, before: map<Tag, Upgrader>, now: map<Tag, Upgrader>)
    requires tag in now && IsLinked(done + {tag}, before, now) && NamesResolve(done, before)
    requires forall d :: d in before[tag].fwdDepends ==> d in before
    ensures (forall d :: d in now[tag].depends ==> d in now) <==> NamesResolve(done + {tag}, before)
  {
    assert forall d :: d in now[tag].depends <==>
                         d in before[tag].depends || (d in done + {tag} && ForwardDependency(before, tag, d));
  }

  /** Loading ends without an error. */
  ghost predicate Loadable(files: seq<Upgrader>) {
    var legacy, registered := LegacyTags(files), ByTag(files);
    && (forall i :: 0 <= i < |files| ==> files[i].kind != Neither)
    && (3 in legacy ==> 2 in legacy)
    && (forall t, d :: t in registered && (d in registered[t].fwdDepends || BaseDependency(legacy, registered[t], d)) ==>
          d in registered)
  }

  ghost predicate SameDependencies(registered: map<Tag, Upgrader>, g: Graph) {
    g.deps.Keys == registered.Keys && forall t :: t in registered ==> g.deps[t] == registered[t].depends
  }

  /** The graph `g` is the one the files describe. */
  ghost predicate Describes(files: seq<Upgrader>, g: Graph) {
    var legacy, registered := LegacyTags(files), ByTag(files);
    && g.up == TagsOf(files, Upgrades) && g.down == TagsOf(files, Downgrades)
    && g.deps.Keys == registered.Keys
    && (forall t, d :: t in g.deps ==>
          (d in g.deps[t] <==> BaseDependency(legacy, registered[t], d) || ForwardDependency(registered, t, d)))
  }

  lemma {:induction false} Registered(files: seq<Upgrader>, i: nat)
    requires i < |files| && UniqueTags(files)
    ensures files[i].tag in ByTag(files) && ByTag(files)[files[i].tag] == files[i]
  {
    if i < |files| - 1 {
      Registered(files[..|files| - 1], i);
    }
  }

  lemma {:induction false} RegisteredFrom(files: seq<Upgrader>, t: Tag) returns (i: nat)
    requires t in ByTag(files)
    ensures i < |files| && files[i].tag == t
  {
    if files[|files| - 1].tag == t {
      i := |files| - 1;
    } else {
      i := RegisteredFrom(files[..|files| - 1], t);
    }
  }

  /** A registered version belongs to one file: distinct versions have distinct tags. */
  lemma {:induction false} LegacyFrom(files: seq<Upgrader>, v: int) returns (i: nat)
    requires v in LegacyTags(files)
    ensures i < |files| && files[i].tag == LegacyTags(files)[v] && files[i].legacyVersion == Some(v)
  {
    if files[|files| - 1].legacyVersion == Some(v) {
      i := |files| - 1;
    } else {
      i := LegacyFrom(files[..|files| - 1], v);
    }
  }

  /** Of several files that claim a version, the last one loaded has it; a version nobody claims is not there. */
  lemma {:induction false} LastClaimWins(files: seq<Upgrader>, v: int)
    ensures v in LegacyTags(files) <==> exists i :: 0 <= i < |files| && files[i].legacyVersion == Some(v)
    ensures forall i :: 0 <= i < |files| && files[i].legacyVersion == Some(v)
                        && (forall j :: i < j < |files| ==> files[j].legacyVersion != Some(v)) ==>
              v in LegacyTags(files) && LegacyTags(files)[v] == files[i].tag
  {
    if files != [] {
      var front := files[..|files| - 1];
      LastClaimWins(front, v);
      assert forall i :: 0 <= i < |front| ==> front[i] == files[i];
    }
  }

  /** Distinct legacy versions have distinct tags. */
  ghost predicate Injective(legacy: map<int, Tag>) {
    forall v, w :: v in legacy && w in legacy && legacy[v] == legacy[w] ==> v == w
  }

  lemma {:induction false} LegacyInjective(files: seq<Upgrader>)
    requires UniqueTags(files)
    ensures Injective(LegacyTags(files)) && LegacyTags(files).Values <= ByTag(files).Keys
  {
    forall v, w | v in LegacyTags(files) && w in LegacyTags(files) && LegacyTags(files)[v] == LegacyTags(files)[w]
      ensures v == w
    {
      var i := LegacyFrom(files, v);
      var j := LegacyFrom(files, w);
    }
    forall v | v in LegacyTags(files)
      ensures LegacyTags(files)[v] in ByTag(files)
    {
      var i := LegacyFrom(files, v);
      Registered(files, i);
    }
  }

  lemma {:induction false} RegisteredTag(files: seq<Upgrader>, t: Tag)
    requires t in ByTag(files)
    ensures ByTag(files)[t].tag == t
  {
    if files[|files| - 1].tag != t {
      RegisteredTag(files[..|files| - 1], t);
    }
  }

  /** After a normal load every dependency names a loaded migration, forward ones included. */
  lemma {:induction false} LoadedGraphAudited(files: seq<Upgrader>, g: Graph)
    requires UniqueTags(files) && Loadable(files) && Describes(files, g)
    ensures g.Valid() && g.Audited()
  {
    forall t | t in g.deps
      ensures t in g.up + g.down
    {
      var i := RegisteredFrom(files, t);
    }
    forall i | 0 <= i < |files|
      ensures files[i].tag in g.deps
    {
      Registered(files, i);
    }
  }

  /** The names a chained table must resolve are those the files give. */
  lemma {:induction false} ChainedNames(files: seq<Upgrader>, chained: map<Tag, Upgrader>)
    requires IsChained(LegacyTags(files), ByTag(files), chained)
    ensures NamesResolve(chained.Keys, chained) <==>
              forall t, d :: t in chained && (d in ByTag(files)[t].fwdDepends || BaseDependency(LegacyTags(files), ByTag(files)[t], d)) ==>
                d in chained
  {
    var legacy, registered := LegacyTags(files), ByTag(files);
    forall t, d | t in chained
      ensures d in chained[t].fwdDepends <==> d in registered[t].fwdDepends
      ensures d in chained[t].depends <==> BaseDependency(legacy, registered[t], d)
    {
      assert chained[t] == registered[t].(depends := chained[t].depends);
    }
  }

  /** Chaining and linking the registered files gives their graph, as the files say. */
  lemma {:induction false} LinkingDescribes(files: seq<Upgrader>, chained: map<Tag, Upgrader>, linked: map<Tag, Upgrader>, g: Graph)
    requires IsChained(LegacyTags(files), ByTag(files), chained)
    requires IsLinked(chained.Keys, chained, linked) && SameDependencies(linked, g)
    requires g.up == TagsOf(files, Upgrades) && g.down == TagsOf(files, Downgrades)
    ensures Describes(files, g)
  {
    var registered := ByTag(files);
    assert forall t :: t in chained ==> chained[t].fwdDepends == registered[t].fwdDepends;
    forall t, d | t in g.deps
      ensures d in g.deps[t] <==> BaseDependency(LegacyTags(files), registered[t], d) || ForwardDependency(registered, t, d)
    {
      assert d in linked[t].depends <==> d in chained[t].depends || (d in chained.Keys && ForwardDependency(chained, t, d));
    }
  }

  /** A forward dependency stands in some file. */
  lemma {:induction false} ForwardFromFile(files: seq<Upgrader>, t: Tag, d: Tag)
    requires UniqueTags(files)
    ensures ForwardDependency(ByTag(files), t, d) <==>
              exists j :: 0 <= j < |files| && files[j].tag == d && t in files[j].fwdDepends
  {
    if d in ByTag(files) {
      var j := RegisteredFrom(files, d);
      Registered(files, j);
    }
    forall j | 0 <= j < |files| && files[j].tag == d
      ensures d in ByTag(files) && ByTag(files)[d] == files[j]
    {
      Registered(files, j);
    }
  }

  /**
   The dependencies of a file before forward ones: a version of the unbroken legacy chain from 3
   on depends on its predecessor, any other file on what it lists.
   */
  lemma {:induction false} BaseDependencyIs(legacy: map<int, Tag>, u: Upgrader, d: Tag)
    ensures (forall v :: v >= 3 && (forall i :: 3 <= i <= v ==> i in legacy) ==> legacy[v] != u.tag) ==>
              (BaseDependency(legacy, u, d) <==> d in u.depends)
    ensures forall v :: v >= 3 && (forall i :: 3 <= i <= v ==> i in legacy) && legacy[v] == u.tag && Injective(legacy) ==>
              (BaseDependency(legacy, u, d) <==> v - 1 in legacy && d == legacy[v - 1])
  {
    if !ChainedTag(legacy, u.tag) {
      assert forall v :: v >= 3 && (forall i :: 3 <= i <= v ==> i in legacy) ==> OnChain(legacy, v);
    }
    forall v | v >= 3 && (forall i :: 3 <= i <= v ==> i in legacy) && legacy[v] == u.tag && Injective(legacy)
      ensures BaseDependency(legacy, u, d) <==> v - 1 in legacy && d == legacy[v - 1]
    {
      assert OnChain(legacy, v);
    }
  }

  /** The dependencies of a loaded file: those of its own, and every file that names it as a forward dependency. */
  lemma {:induction false} DependsExactly(files: seq<Upgrader>, g: Graph, i: nat, d: Tag)
    requires UniqueTags(files) && Describes(files, g) && i < |files|
    ensures files[i].tag in g.deps
    ensures d in g.deps[files[i].tag] <==>
              || BaseDependency(LegacyTags(files), files[i], d)
              || exists j :: 0 <= j < |files| && files[j].tag == d && files[i].tag in files[j].fwdDepends
  {
    Registered(files, i);
    ForwardFromFile(files, files[i].tag, d);
  }

  // ---------- legacy versions ----------

  /** The tags a checkpoint of legacy version `ver` stands for. */
  function LegacyStart(legacy: map<int, Tag>, ver: int): set<Tag>
    requires forall v :: 2 <= v <= ver ==> v in legacy
  {
    set v | 2 <= v <= ver :: legacy[v]
  }

  lemma {:induction false} LegacyStartIs(legacy: map<int, Tag>, ver: int, t: Tag)
    requires forall v :: 2 <= v <= ver ==> v in legacy
    ensures t in LegacyStart(legacy, ver) <==> exists v :: 2 <= v <= ver && legacy[v] == t
  {
  }

  /** In `g`, version `v` depends on its predecessor, which is an upgrade. */
  ghost predicate FollowsPredecessor(g: Graph, legacy: map<int, Tag>, v: int) {
    && v in legacy && v - 1 in legacy
    && legacy[v] in g.deps && legacy[v - 1] in g.deps[legacy[v]] && legacy[v - 1] in g.up
  }

  ghost predicate ChainInGraph(g: Graph, legacy: map<int, Tag>) {
    Injective(legacy) && forall v :: OnChain(legacy, v) ==> FollowsPredecessor(g, legacy, v)
  }

  /** Every version that a later one of the chain depends on is an upgrader's. */
  ghost predicate PredecessorsUpgrade(g: Graph, legacy: map<int, Tag>) {
    forall v :: OnChain(legacy, v) && v - 1 in legacy ==> legacy[v - 1] in g.up
  }

  /** The chain is in the loaded graph exactly when its versions, but for the last, are upgraders'. */
  lemma {:induction false} LoadedChainInGraph(files: seq<Upgrader>, g: Graph)
    requires UniqueTags(files) && Loadable(files) && Describes(files, g)
    ensures ChainInGraph(g, LegacyTags(files)) <==> PredecessorsUpgrade(g, LegacyTags(files))
  {
    var legacy := LegacyTags(files);
    LegacyInjective(files);
    LoadedGraphAudited(files, g);
    forall v | OnChain(legacy, v)
      ensures FollowsPredecessor(g, legacy, v) <==> legacy[v - 1] in g.up
    {
      assert legacy[v] in legacy.Values;
      RegisteredTag(files, legacy[v]);
      assert 3 in legacy && v - 1 in legacy;
      assert ChainedTag(legacy, legacy[v]);
      assert BaseDependency(legacy, ByTag(files)[legacy[v]], legacy[v - 1]);
      assert legacy[v - 1] in g.deps[legacy[v]];
    }
  }

  lemma {:induction false} ChainReaches(g: Graph, legacy: map<int, Tag>, ver: int, i: int, j: int, n: nat)
    requires ChainInGraph(g, legacy) && forall u :: 2 <= u <= ver ==> u in legacy
    requires OnChain(legacy, j) && ver < i <= j && 2 <= i && i in legacy
    requires HasChain(g, LegacyStart(legacy, ver), legacy[i], n)
    ensures HasChain(g, LegacyStart(legacy, ver), legacy[j], n + (j - i))
    decreases j
  {
    if i < j {
      assert FollowsPredecessor(g, legacy, j);
      if i < j - 1 {
        assert OnChain(legacy, j - 1);
        ChainReaches(g, legacy, ver, i, j - 1, n);
      }
      assert WaitsFor(g, LegacyStart(legacy, ver), legacy[j], legacy[j - 1]);
    }
  }

  /**
   From any legacy version, the pending members of the legacy chain are applied in strictly
   ascending version order, at least as many rounds apart as their versions.
   */
  lemma {:induction false} LegacyAscending(g: Graph, legacy: map<int, Tag>, ver: int, i: int, j: int, ri: nat, rj: nat)
    requires g.Valid() && ChainInGraph(g, legacy) && forall u :: 2 <= u <= ver ==> u in legacy
    requires OnChain(legacy, j) && 2 <= i < j && i in legacy
    requires RunsIn(g, LegacyStart(legacy, ver), legacy[i], ri)
    requires RunsIn(g, LegacyStart(legacy, ver), legacy[j], rj)
    ensures rj >= ri + (j - i)
  {
    var start := LegacyStart(legacy, ver);
    assert OnChain(legacy, i + 1) && FollowsPredecessor(g, legacy, i + 1);
    StateInvariant(g, start, ri);
    assert i > ver;
    RoundIsLongestChain(g, start, legacy[i], ri);
    ChainReaches(g, legacy, ver, i, j, ri);
    RoundIsLongestChain(g, start, legacy[j], rj);
    if rj < ri + (j - i) {
      ChainMonotone(g, start, legacy[j], rj + 1, ri + (j - i));
    }
  }
}
