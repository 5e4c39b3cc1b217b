/**
 The dependency graph of checkpoint migrations and the round-based schedule that
 `process_file` runs over it, as values, together with what is true of every run.

 A tag of `up` has an upgrader, which adds the tag; a tag of `down` has a downgrader,
 which removes it.  A migration is applied in the first round that starts with all its
 dependencies among the checkpoint's tags.
 */
module MigrationGraph {
  datatype Tag = Tag(name: string)

  datatype Graph = Graph(up: set<Tag>, down: set<Tag>, deps: map<Tag, seq<Tag>>) {
    /** Every migration is an upgrader or a downgrader, never both. */
    ghost predicate Valid() {
      up !! down && deps.Keys == up + down
    }

    /** Every dependency names a loaded migration (the audit of `load_all`). */
    ghost predicate Audited() {
      forall t, d :: t in deps && d in deps[t] ==> d in deps
    }

    ghost predicate NoDowngraderDependency() {
      forall t, d :: t in deps && d in deps[t] ==> d !in down
    }
  }

  /** One iteration boundary of the apply loop: what is left to apply, and the tags held. */
  datatype State = State(pending: set<Tag>, tags: set<Tag>)

  function Pending(g: Graph, tags: set<Tag>): set<Tag> {
    (g.up - tags) + (g.down * tags)
  }

  predicate Ready(g: Graph, t: Tag, tags: set<Tag>)
    requires t in g.deps
  {
    forall d | d in g.deps[t] :: d in tags
  }

  /** The tags after the migrations in `done` have been applied to a checkpoint with `tags`. */
  function ApplyAll(g: Graph, tags: set<Tag>, done: set<Tag>): set<Tag> {
    (tags + (done * g.up)) - (done * g.down)
  }

  function Initial(g: Graph, tags: set<Tag>): State {
    State(Pending(g, tags), tags)
  }

  function Batch(g: Graph, s: State): set<Tag> {
    set t | t in s.pending && t in g.deps && Ready(g, t, s.tags)
  }

  function Next(g: Graph, s: State): State {
    State(s.pending - Batch(g, s), ApplyAll(g, s.tags, Batch(g, s)))
  }

  function After(g: Graph, tags: set<Tag>, k: nat): State {
    if k == 0 then Initial(g, tags) else Next(g, After(g, tags, k - 1))
  }

  /** Tag `t` is applied in round `k` (rounds count from 0). */
  ghost predicate RunsIn(g: Graph, tags: set<Tag>, t: Tag, k: nat) {
    t in Batch(g, After(g, tags, k))
  }

  ghost predicate Succeeds(g: Graph, tags: set<Tag>) {
    exists k: nat :: After(g, tags, k).pending == {}
  }

  // ---------- chains, paths and cycles of pending dependencies ----------

  /** `t` waits for `d`: an upgrade that the checkpoint does not have yet. */
  ghost predicate WaitsFor(g: Graph, tags: set<Tag>, t: Tag, d: Tag) {
    t in g.deps && d in g.deps[t] && d in g.up - tags
  }

  /** Some chain of `n` successive pending dependencies starts at `t`. */
  ghost predicate HasChain(g: Graph, tags: set<Tag>, t: Tag, n: nat)
    decreases n
  {
    n == 0 || exists d :: WaitsFor(g, tags, t, d) && HasChain(g, tags, d, n - 1)
  }

  ghost predicate IsPath(g: Graph, tags: set<Tag>, p: seq<Tag>) {
    forall i :: 0 <= i < |p| - 1 ==> WaitsFor(g, tags, p[i], p[i + 1])
  }

  ghost predicate IsCycle(g: Graph, tags: set<Tag>, p: seq<Tag>) {
    |p| >= 2 && p[0] == p[|p| - 1] && IsPath(g, tags, p)
  }

  ghost predicate Within(p: seq<Tag>, s: set<Tag>) {
    forall i :: 0 <= i < |p| ==> p[i] in s
  }

  /** A longest chain of `t` is no longer than one of `d`. */
  ghost predicate NoLongerChain(g: Graph, tags: set<Tag>, t: Tag, d: Tag) {
    forall n: nat :: HasChain(g, tags, t, n) ==> HasChain(g, tags, d, n)
  }

  /**
   The exact condition for a run to apply everything, over any graph: no cycle of pending
   upgrades, no pending tag that depends on something neither held nor provided by an
   upgrader, and no pending tag that depends on a downgrader's tag which an earlier round removes.
   */
  ghost predicate Schedulable(g: Graph, tags: set<Tag>) {
    && (forall p :: !IsCycle(g, tags, p))
    && (forall t, d :: t in Pending(g, tags) && t in g.deps && d in g.deps[t] ==>
          && (d in g.up || d in tags)
          && (d in g.down ==> NoLongerChain(g, tags, t, d)))
  }

  // ---------- one-state invariants ----------

  lemma {:induction false} StateInvariant(g: Graph, tags: set<Tag>, k: nat)
    requires g.Valid()
    ensures After(g, tags, k).pending <= Pending(g, tags)
    ensures After(g, tags, k).tags ==
            ApplyAll(g, tags, Pending(g, tags) - After(g, tags, k).pending)
  {
    if k > 0 {
      StateInvariant(g, tags, k - 1);
    }
  }

  lemma {:induction false} PendingShrinks(g: Graph, tags: set<Tag>, j: nat, k: nat)
    requires j <= k
    ensures After(g, tags, k).pending <= After(g, tags, j).pending
  {
    if j < k {
      PendingShrinks(g, tags, j, k - 1);
    }
  }

  /** The round-start tags hold exactly what `t`'s readiness looks at. */
  lemma {:induction false} HeldIff(g: Graph, tags: set<Tag>, k: nat, d: Tag)
    requires g.Valid()
    ensures d in g.up ==>
              (d in After(g, tags, k).tags <==> d in tags || d !in After(g, tags, k).pending)
    ensures d in g.down ==>
              (d in After(g, tags, k).tags <==> d in tags && d in After(g, tags, k).pending)
    ensures d !in g.up && d !in g.down ==> (d in After(g, tags, k).tags <==> d in tags)
  {
    StateInvariant(g, tags, k);
  }

  // ---------- the round of a tag is the length of its longest chain ----------

  lemma {:induction false} AppliedHasNoChain(g: Graph, tags: set<Tag>, t: Tag, k: nat)
    requires g.Valid()
    requires t in Pending(g, tags) && t !in After(g, tags, k).pending
    ensures !HasChain(g, tags, t, k)
    decreases k
  {
    if k > 0 {
      if t !in After(g, tags, k - 1).pending {
        AppliedHasNoChain(g, tags, t, k - 1);
        if HasChain(g, tags, t, k) {
          ChainShortens(g, tags, t, k);
        }
      } else {
        forall d | WaitsFor(g, tags, t, d)
          ensures !HasChain(g, tags, d, k - 1)
        {
          HeldIff(g, tags, k - 1, d);
          AppliedHasNoChain(g, tags, d, k - 1);
        }
      }
    }
  }

  lemma {:induction false} ChainShortens(g: Graph, tags: set<Tag>, t: Tag, n: nat)
    requires n > 0 && HasChain(g, tags, t, n)
    ensures HasChain(g, tags, t, n - 1)
    decreases n
  {
    var d :| WaitsFor(g, tags, t, d) && HasChain(g, tags, d, n - 1);
    if n > 1 {
      ChainShortens(g, tags, d, n - 1);
    }
  }

  lemma {:induction false} BatchHasChain(g: Graph, tags: set<Tag>, t: Tag, k: nat)
    requires g.Valid() && RunsIn(g, tags, t, k)
    ensures HasChain(g, tags, t, k)
    decreases k
  {
    if k > 0 {
      var d := JustApplied(g, tags, t, k);
      BatchHasChain(g, tags, d, k - 1);
    }
  }

  /** What becomes ready in a round waited for something applied in the round before. */
  lemma {:induction false} JustApplied(g: Graph, tags: set<Tag>, t: Tag, k: nat) returns (d: Tag)
    requires g.Valid() && k > 0 && RunsIn(g, tags, t, k)
    ensures WaitsFor(g, tags, t, d) && RunsIn(g, tags, d, k - 1)
  {
    d := MadeReady(g, After(g, tags, k - 1), t);
    HeldIff(g, tags, k - 1, d);
  }

  lemma {:induction false} MadeReady(g: Graph, s: State, t: Tag) returns (d: Tag)
    requires t in Batch(g, Next(g, s))
    ensures d in g.deps[t] && d in g.up && d !in s.tags && d in Batch(g, s)
  {
    assert t in s.pending && !Ready(g, t, s.tags);
    d :| d in g.deps[t] && d !in s.tags;
  }

  /** A tag that a round leaves pending lacks a dependency at its start. */
  lemma {:induction false} NotYetHeld(g: Graph, tags: set<Tag>, t: Tag, k: nat) returns (d: Tag)
    requires t in g.deps && t in After(g, tags, k + 1).pending
    ensures t in After(g, tags, k).pending && d in g.deps[t] && d !in After(g, tags, k).tags
  {
    var s := After(g, tags, k);
    assert After(g, tags, k + 1) == Next(g, s) && t in s.pending && !Ready(g, t, s.tags);
    d :| d in g.deps[t] && d !in s.tags;
  }

  /** On any graph, any run: a tag runs in the round that its longest pending chain counts. */
  lemma {:induction false} RoundIsLongestChain(g: Graph, tags: set<Tag>, t: Tag, k: nat)
    requires g.Valid() && RunsIn(g, tags, t, k)
    ensures HasChain(g, tags, t, k) && !HasChain(g, tags, t, k + 1)
  {
    BatchHasChain(g, tags, t, k);
    StateInvariant(g, tags, k);
    AppliedHasNoChain(g, tags, t, k + 1);
  }

  lemma {:induction false} ChainMonotone(g: Graph, tags: set<Tag>, t: Tag, m: nat, n: nat)
    requires m <= n && HasChain(g, tags, t, n)
    ensures HasChain(g, tags, t, m)
    decreases n
  {
    if m < n {
      ChainShortens(g, tags, t, n);
      ChainMonotone(g, tags, t, m, n - 1);
    }
  }

  // ---------- cycles ----------

  /** Pigeonhole: a path longer than the set it stays in returns to a tag. */
  lemma {:induction false} PathHasCycle(g: Graph, tags: set<Tag>, p: seq<Tag>, s: set<Tag>) returns (c: seq<Tag>)
    requires IsPath(g, tags, p) && Within(p, s) && |p| > |s|
    ensures IsCycle(g, tags, c) && Within(c, s)
  {
    var i, j := Repeats(p, s);
    c := p[i..j + 1];
  }

  lemma {:induction false} Repeats(p: seq<Tag>, s: set<Tag>) returns (i: nat, j: nat)
    requires Within(p, s) && |p| > |s|
    ensures i < j < |p| && p[i] == p[j]
  {
    if k: nat :| 1 <= k < |p| && p[k] == p[0] {
      i, j := 0, k;
    } else {
      assert forall m :: 0 <= m < |p[1..]| ==> p[1..][m] in s - {p[0]};
      i, j := Repeats(p[1..], s - {p[0]});
      i, j := i + 1, j + 1;
    }
  }

  lemma {:induction false} ChainPath(g: Graph, tags: set<Tag>, t: Tag, n: nat) returns (p: seq<Tag>)
    requires HasChain(g, tags, t, n) && t in Pending(g, tags)
    ensures |p| == n + 1 && p[0] == t && IsPath(g, tags, p) && Within(p, Pending(g, tags))
    decreases n
  {
    if n == 0 {
      p := [t];
    } else {
      var d :| WaitsFor(g, tags, t, d) && HasChain(g, tags, d, n - 1);
      var q := ChainPath(g, tags, d, n - 1);
      p := [t] + q;
    }
  }

  lemma {:induction false} CycleHasChains(g: Graph, tags: set<Tag>, p: seq<Tag>, i: nat, n: nat)
    requires IsCycle(g, tags, p) && i < |p| - 1
    ensures HasChain(g, tags, p[i], n)
    decreases n
  {
    if n > 0 {
      CycleHasChains(g, tags, p, if i + 1 < |p| - 1 then i + 1 else 0, n - 1);
      assert WaitsFor(g, tags, p[i], p[i + 1]);
    }
  }

  // ---------- success ----------

  /** When the condition holds, the tags applied before round `k` are those with no chain of `k`. */
  lemma {:induction false} AppliedByRound(g: Graph, tags: set<Tag>, k: nat, t: Tag)
    requires g.Valid() && Schedulable(g, tags) && t in Pending(g, tags)
    ensures t in After(g, tags, k).pending <==> HasChain(g, tags, t, k)
  {
    if t in After(g, tags, k).pending {
      PendingHasChain(g, tags, k, t);
    } else {
      AppliedHasNoChain(g, tags, t, k);
    }
  }

  lemma {:induction false} PendingHasChain(g: Graph, tags: set<Tag>, k: nat, t: Tag)
    requires g.Valid() && Schedulable(g, tags) && t in Pending(g, tags) && t in After(g, tags, k).pending
    ensures HasChain(g, tags, t, k)
    decreases k
  {
    if k > 0 {
      PendingShrinks(g, tags, k - 1, k);
      PendingHasChain(g, tags, k - 1, t);
      var d := StillWaits(g, tags, k - 1, t);
      PendingHasChain(g, tags, k - 1, d);
    }
  }

  /** When the condition holds, a tag left pending waits for another that was pending. */
  lemma {:induction false} StillWaits(g: Graph, tags: set<Tag>, k: nat, t: Tag) returns (d: Tag)
    requires g.Valid() && Schedulable(g, tags) && t in Pending(g, tags)
    requires t in After(g, tags, k + 1).pending && HasChain(g, tags, t, k)
    ensures WaitsFor(g, tags, t, d) && d in Pending(g, tags) && d in After(g, tags, k).pending
  {
    d := NotYetHeld(g, tags, t, k);
    HeldIff(g, tags, k, d);
    if d !in g.up {
      RemovedTooEarly(g, tags, k, t, d);
    }
  }

  /** When the condition holds, no dependency on a downgrader's tag is gone while its dependent has a chain left. */
  lemma {:induction false} RemovedTooEarly(g: Graph, tags: set<Tag>, k: nat, t: Tag, d: Tag)
    requires g.Valid() && Schedulable(g, tags) && t in Pending(g, tags) && d in g.deps[t]
    requires d !in g.up && d !in After(g, tags, k).tags
    ensures !HasChain(g, tags, t, k)
  {
    HeldIff(g, tags, k, d);
    assert d in tags && d in g.down && NoLongerChain(g, tags, t, d);
    AppliedHasNoChain(g, tags, d, k);
  }

  lemma {:induction false} SchedulableSucceeds(g: Graph, tags: set<Tag>)
    requires g.Valid() && Schedulable(g, tags)
    ensures After(g, tags, |Pending(g, tags)|).pending == {}
  {
    var todo := Pending(g, tags);
    StateInvariant(g, tags, |todo|);
    forall t | t in todo
      ensures t !in After(g, tags, |todo|).pending
    {
      AppliedByRound(g, tags, |todo|, t);
      if HasChain(g, tags, t, |todo|) {
        var p := ChainPath(g, tags, t, |todo|);
        var c := PathHasCycle(g, tags, p, todo);
        assert false;
      }
    }
  }

  lemma {:induction false} AppliedInSomeRound(g: Graph, tags: set<Tag>, t: Tag, k: nat) returns (j: nat)
    requires t in Pending(g, tags) && t !in After(g, tags, k).pending
    ensures j < k && RunsIn(g, tags, t, j)
  {
    if t in After(g, tags, k - 1).pending {
      j := k - 1;
    } else {
      j := AppliedInSomeRound(g, tags, t, k - 1);
    }
  }

  lemma {:induction false} DependencyAtRound(g: Graph, tags: set<Tag>, k: nat, t: Tag, d: Tag, last: nat)
    requires g.Valid() && RunsIn(g, tags, t, k) && d in g.deps[t]
    requires After(g, tags, last).pending == {}
    ensures d in g.up || d in tags
    ensures d in g.down ==> NoLongerChain(g, tags, t, d)
  {
    HeldIff(g, tags, k, d);
    RoundIsLongestChain(g, tags, t, k);
    if d in g.down {
      var j := AppliedInSomeRound(g, tags, d, last);
      if j < k {
        PendingShrinks(g, tags, j + 1, k);
        assert false;
      }
      BatchHasChain(g, tags, d, j);
      forall n: nat | HasChain(g, tags, t, n)
        ensures HasChain(g, tags, d, n)
      {
        if n > k {
          ChainMonotone(g, tags, t, k + 1, n);
        }
        ChainMonotone(g, tags, d, n, j);
      }
    }
  }

  lemma {:induction false} SucceedsSchedulable(g: Graph, tags: set<Tag>, last: nat)
    requires g.Valid() && After(g, tags, last).pending == {}
    ensures Schedulable(g, tags)
  {
    forall p
      ensures !IsCycle(g, tags, p)
    {
      if IsCycle(g, tags, p) {
        assert WaitsFor(g, tags, p[|p| - 2], p[|p| - 1]);
        CycleHasChains(g, tags, p, 0, last);
        AppliedHasNoChain(g, tags, p[0], last);
      }
    }
    forall t, d | t in Pending(g, tags) && t in g.deps && d in g.deps[t]
      ensures d in g.up || d in tags
      ensures d in g.down ==> NoLongerChain(g, tags, t, d)
    {
      var k := AppliedInSomeRound(g, tags, t, last);
      DependencyAtRound(g, tags, k, t, d, last);
    }
  }

  /** The apply loop empties its work set exactly when the graph is schedulable from the tags. */
  lemma {:induction false} SucceedsIffSchedulable(g: Graph, tags: set<Tag>)
    requires g.Valid()
    ensures Succeeds(g, tags) <==> Schedulable(g, tags)
  {
    if Succeeds(g, tags) {
      var last: nat :| After(g, tags, last).pending == {};
      SucceedsSchedulable(g, tags, last);
    }
    if Schedulable(g, tags) {
      SchedulableSucceeds(g, tags);
    }
  }

  // ---------- stuck runs ----------

  lemma {:induction false} StuckForever(g: Graph, tags: set<Tag>, k: nat, j: nat)
    requires Batch(g, After(g, tags, k)) == {}
    ensures After(g, tags, k + j) == After(g, tags, k)
  {
    if j > 0 {
      StuckForever(g, tags, k, j - 1);
    }
  }

  /** A round that finds nothing ready settles the run: it succeeds iff nothing is left. */
  lemma {:induction false} StuckDecides(g: Graph, tags: set<Tag>, k: nat)
    requires Batch(g, After(g, tags, k)) == {}
    ensures Succeeds(g, tags) <==> After(g, tags, k).pending == {}
  {
    if Succeeds(g, tags) {
      var last: nat :| After(g, tags, last).pending == {};
      if last < k {
        PendingShrinks(g, tags, last, k);
      } else {
        StuckForever(g, tags, k, last - k);
      }
    }
  }

  lemma {:induction false} WalkInStuck(g: Graph, tags: set<Tag>, k: nat, t: Tag, n: nat) returns (p: seq<Tag>)
    requires g.Valid() && g.Audited() && g.NoDowngraderDependency()
    requires Batch(g, After(g, tags, k)) == {} && t in After(g, tags, k).pending
    ensures |p| == n + 1 && p[0] == t && IsPath(g, tags, p) && Within(p, After(g, tags, k).pending)
    decreases n
  {
    if n == 0 {
      p := [t];
    } else {
      StateInvariant(g, tags, k);
      assert t !in Batch(g, After(g, tags, k));
      var d :| d in g.deps[t] && d !in After(g, tags, k).tags;
      HeldIff(g, tags, k, d);
      var q := WalkInStuck(g, tags, k, d, n - 1);
      p := [t] + q;
      assert WaitsFor(g, tags, t, d);
    }
  }

  /** A stuck, non-empty remainder contains a dependency cycle. */
  lemma {:induction false} StuckRemainderHasCycle(g: Graph, tags: set<Tag>, k: nat) returns (c: seq<Tag>)
    requires g.Valid() && g.Audited() && g.NoDowngraderDependency()
    requires Batch(g, After(g, tags, k)) == {} && After(g, tags, k).pending != {}
    ensures IsCycle(g, tags, c) && Within(c, After(g, tags, k).pending)
  {
    var s := After(g, tags, k).pending;
    var t :| t in s;
    var p := WalkInStuck(g, tags, k, t, |s|);
    c := PathHasCycle(g, tags, p, s);
  }

  lemma {:induction false} StopsWithin(g: Graph, tags: set<Tag>, k: nat) returns (j: nat)
    ensures Batch(g, After(g, tags, j)) == {}
    ensures k <= j <= k + |After(g, tags, k).pending|
    decreases |After(g, tags, k).pending|
  {
    var s := After(g, tags, k);
    if Batch(g, s) == {} {
      j := k;
    } else {
      var t :| t in Batch(g, s);
      assert s.pending - Batch(g, s) <= s.pending - {t};
      SubsetSize(s.pending - Batch(g, s), s.pending - {t});
      j := StopsWithin(g, tags, k + 1);
    }
  }

  lemma {:induction false} SubsetSize(a: set<Tag>, b: set<Tag>)
    requires a <= b
    ensures |a| <= |b|
  {
    if a != {} {
      var x :| x in a;
      SubsetSize(a - {x}, b - {x});
    }
  }

  /**
   Without dependencies on downgraders' tags the loop aborts exactly when the pending
   upgrades contain a dependency cycle.
   */
  lemma {:induction false} AbortsIffCycle(g: Graph, tags: set<Tag>)
    requires g.Valid() && g.Audited() && g.NoDowngraderDependency()
    ensures !Succeeds(g, tags) <==> exists c :: IsCycle(g, tags, c)
  {
    if !Succeeds(g, tags) {
      var j := StopsWithin(g, tags, 0);
      StuckDecides(g, tags, j);
      var c := StuckRemainderHasCycle(g, tags, j);
    } else {
      SucceedsIffSchedulable(g, tags);
    }
  }

  // ---------- what a successful run leaves ----------

  /** Each pending tag, and no other, is applied, in one round only. */
  lemma {:induction false} AppliedExactlyOnce(g: Graph, tags: set<Tag>, t: Tag)
    requires g.Valid() && Succeeds(g, tags)
    ensures t in Pending(g, tags) <==> exists k: nat :: RunsIn(g, tags, t, k)
    ensures forall j: nat, k: nat :: RunsIn(g, tags, t, j) && RunsIn(g, tags, t, k) ==> j == k
  {
    if t in Pending(g, tags) {
      var last: nat :| After(g, tags, last).pending == {};
      var k := AppliedInSomeRound(g, tags, t, last);
    }
    forall k: nat | RunsIn(g, tags, t, k)
      ensures t in Pending(g, tags)
    {
      StateInvariant(g, tags, k);
    }
    forall j: nat, k: nat | RunsIn(g, tags, t, j) && RunsIn(g, tags, t, k)
      ensures j == k
    {
      if j < k {
        PendingShrinks(g, tags, j + 1, k);
      } else if k < j {
        PendingShrinks(g, tags, k + 1, j);
      }
    }
  }

  /**
   The tags left by a successful run, whatever the order inside a round; tags no migration
   knows survive, and a second run has nothing to apply.
   */
  lemma {:induction false} FinalTags(g: Graph, tags: set<Tag>, k: nat)
    requires g.Valid() && After(g, tags, k).pending == {}
    ensures After(g, tags, k).tags == (tags + g.up) - g.down
    ensures tags - (g.up + g.down) <= After(g, tags, k).tags
    ensures Pending(g, After(g, tags, k).tags) == {}
  {
    StateInvariant(g, tags, k);
  }

  /** `t` still finds all its dependencies when the migrations in `earlier` have been applied before it in round `k`. */
  ghost predicate ReadyBehind(g: Graph, tags: set<Tag>, t: Tag, k: nat, earlier: set<Tag>)
    requires t in g.deps
  {
    Ready(g, t, ApplyAll(g, After(g, tags, k).tags, earlier))
  }

  /**
   The migrations of a round are applied one by one, in an order that is left open.  A migration
   finds all its dependencies in every order exactly when it depends on no other migration of
   the round that is a downgrader; so always, if no dependency names a downgrader's tag.
   */
  lemma {:induction false} DependenciesHeldAtUpdate(g: Graph, tags: set<Tag>, t: Tag, k: nat)
    requires g.Valid() && RunsIn(g, tags, t, k)
    ensures (forall earlier :: earlier <= Batch(g, After(g, tags, k)) - {t} ==> ReadyBehind(g, tags, t, k, earlier))
            <==> forall d :: d in g.deps[t] && d in g.down && RunsIn(g, tags, d, k) ==> d == t
    ensures g.NoDowngraderDependency() ==>
              forall earlier :: earlier <= Batch(g, After(g, tags, k)) - {t} ==> ReadyBehind(g, tags, t, k, earlier)
  {
    var s := After(g, tags, k);
    if d :| d in g.deps[t] && d in g.down && RunsIn(g, tags, d, k) && d != t {
      assert {d} <= Batch(g, s) - {t} && !ReadyBehind(g, tags, t, k, {d});
    } else {
      forall earlier | earlier <= Batch(g, s) - {t}
        ensures ReadyBehind(g, tags, t, k, earlier)
      {
        assert forall d :: d in g.deps[t] ==> d in s.tags && (d in g.down ==> d !in earlier);
      }
    }
  }

  /** A tag runs strictly after each pending tag it waits for. */
  lemma {:induction false} RunsAfterDependency(g: Graph, tags: set<Tag>, t: Tag, d: Tag, j: nat, k: nat)
    requires g.Valid() && WaitsFor(g, tags, t, d)
    requires RunsIn(g, tags, t, k) && RunsIn(g, tags, d, j)
    ensures j < k
  {
    RoundIsLongestChain(g, tags, d, j);
    RoundIsLongestChain(g, tags, t, k);
    if k <= j {
      ChainMonotone(g, tags, d, k, j);
    }
  }

  // ---------- dependencies on downgraders' tags ----------

  /** The documented rule: a downgrader runs in an earlier round than the tags depending on it. */
  ghost predicate DowngradersFirst(g: Graph, tags: set<Tag>) {
    forall t, d, j: nat, k: nat ::
      RunsIn(g, tags, t, k) && d in g.deps[t] && d in g.down && RunsIn(g, tags, d, j) ==> j < k
  }

  ghost predicate PendingNeedsDowngrader(g: Graph, tags: set<Tag>, t: Tag, d: Tag) {
    t in Pending(g, tags) && t in g.deps && d in g.deps[t] && d in g.down
  }

  /**
   On successful runs the documented rule holds exactly when no pending tag depends on a
   downgrader's tag at all.
   */
  lemma {:induction false} DowngradersFirstIff(g: Graph, tags: set<Tag>)
    requires g.Valid() && Succeeds(g, tags)
    ensures DowngradersFirst(g, tags) <==> forall t, d :: !PendingNeedsDowngrader(g, tags, t, d)
  {
    var last: nat :| After(g, tags, last).pending == {};
    forall t, d | PendingNeedsDowngrader(g, tags, t, d)
      ensures !DowngradersFirst(g, tags)
    {
      var k := AppliedInSomeRound(g, tags, t, last);
      HeldIff(g, tags, k, d);
      var j := AppliedInSomeRound(g, tags, d, last);
      if j < k {
        PendingShrinks(g, tags, j + 1, k);
        assert false;
      }
    }
    forall t, d, k: nat | RunsIn(g, tags, t, k) && d in g.deps[t] && d in g.down
      ensures PendingNeedsDowngrader(g, tags, t, d)
    {
      StateInvariant(g, tags, k);
    }
  }

  /** A pending tag whose downgrader dependency is already gone blocks the run for good. */
  lemma {:induction false} RemovedDowngraderBlocks(g: Graph, tags: set<Tag>, t: Tag, d: Tag)
    requires g.Valid() && PendingNeedsDowngrader(g, tags, t, d) && d !in tags
    ensures !Succeeds(g, tags)
  {
    SucceedsIffSchedulable(g, tags);
  }

  /** A graph on which the documented rule fails: the dependent runs in its downgrader's own round. */
  lemma {:induction false} DowngraderRuleFails()
    ensures var g := Graph({Tag("new")}, {Tag("old")}, map[Tag("new") := [Tag("old")], Tag("old") := []]);
            && g.Valid() && g.Audited()
            && Succeeds(g, {Tag("old")}) && !DowngradersFirst(g, {Tag("old")})
            && !Succeeds(g, {})
  {
    var g := Graph({Tag("new")}, {Tag("old")}, map[Tag("new") := [Tag("old")], Tag("old") := []]);
    assert g.deps[Tag("new")] == [Tag("old")];
    var s := Initial(g, {Tag("old")});
    assert Batch(g, s) == {Tag("new"), Tag("old")};
    assert After(g, {Tag("old")}, 0) == s;
    assert After(g, {Tag("old")}, 1).pending == {};
    assert PendingNeedsDowngrader(g, {Tag("old")}, Tag("new"), Tag("old"));
    DowngradersFirstIff(g, {Tag("old")});
    assert PendingNeedsDowngrader(g, {}, Tag("new"), Tag("old"));
    RemovedDowngraderBlocks(g, {}, Tag("new"), Tag("old"));
  }
}
