/** Whole reconciles of a Tenant: the ingester's part, then the write of the compactor's finalizer
    by the compactor's part. What runs of these keep depends on the users' actions alone. */
module OperatorRuns {
  import opened Text
  import opened Cluster
  import opened Allocation
  import opened AllocationSafety
  import opened Convergence
  import C = Compaction

  // ----- the steps -----

  /** What the compactor's part makes of the finalizers: its own is added to a live tenant and
      taken from a tenant under deletion. */
  function CompactorFinalizers(t: Tenant): seq<string> {
    if !t.deleting && C.FINALIZER_COMPACTOR !in t.finalizers then t.finalizers + [C.FINALIZER_COMPACTOR]
    else if t.deleting && C.FINALIZER_COMPACTOR in t.finalizers then Without(t.finalizers, C.FINALIZER_COMPACTOR)
    else t.finalizers
  }

  predicate WritesCompactorFinalizer(s: State, name: string) {
    && name in s.tenants
    && CompactorFinalizers(s.tenants[name]) != s.tenants[name].finalizers
  }

  function AfterCompactor(s: State, name: string): State {
    if WritesCompactorFinalizer(s, name)
    then SetFinalizers(s, name, CompactorFinalizers(s.tenants[name])) else s
  }

  ghost predicate WholeReconcile(s: State, name: string, s': State) {
    if name in s.tenants && ServiceOf(s, s.tenants[name]).Some?
    then exists m :: ReconcilesTenant(s, name, m) && s' == AfterCompactor(m, name)
    else s' == s
  }

  ghost predicate OperatorNext(s: State, a: Action, s': State) {
    if a.ReconcileTenant? then WholeReconcile(s, a.name, s') else Next(s, a, s')
  }

  ghost predicate IsOperatorRun(run: seq<State>, acts: seq<Action>) {
    && |run| == |acts| + 1
    && Init(run[0])
    && forall i :: 0 <= i < |acts| ==> OperatorNext(run[i], acts[i], run[i + 1])
  }

  // ----- what users leave alone -----

  predicate IsOwn(f: string) { f == FINALIZER_INGESTER || f == C.FINALIZER_COMPACTOR }

  predicate NoForeign(finalizers: seq<string>) { forall i :: 0 <= i < |finalizers| ==> IsOwn(finalizers[i]) }

  /** Users do not write the operator's finalizers, delete only tenants without foreign ones, and
      add no foreign one to a tenant under deletion. On live tenants they may put any. */
  predicate Tame(s: State, a: Action) {
    match a
    case CreateTenant(_, t) => FINALIZER_INGESTER !in t.finalizers && C.FINALIZER_COMPACTOR !in t.finalizers
    case DeleteTenant(name) => name in s.tenants ==> NoForeign(s.tenants[name].finalizers)
    case EditFinalizers(name, fs) =>
      name in s.tenants ==>
        && (C.FINALIZER_COMPACTOR in fs <==> C.FINALIZER_COMPACTOR in s.tenants[name].finalizers)
        && (s.tenants[name].deleting ==> NoForeign(fs))
    case _ => true
  }

  ghost predicate IsTameRun(run: seq<State>, acts: seq<Action>) {
    IsOperatorRun(run, acts) && forall i :: 0 <= i < |acts| ==> Tame(run[i], acts[i])
  }

  /** A tenant holds both of the operator's finalizers or none, and under deletion both and no
      others. */
  predicate HoldsBoth(t: Tenant) {
    && (FINALIZER_INGESTER in t.finalizers <==> C.FINALIZER_COMPACTOR in t.finalizers)
    && (t.deleting ==> FINALIZER_INGESTER in t.finalizers && NoForeign(t.finalizers))
  }

  predicate Held(s: State) { forall n :: n in s.tenants ==> HoldsBoth(s.tenants[n]) }

  lemma HeldNeverRevives(s: State, name: string)
    requires Held(s)
    ensures !WouldRevive(s, name)
  {
  }

  // ----- whole reconciles keep both invariants -----

  /** The compactor's write is an edit of finalizers that leaves the ingester's where it is. */
  lemma CompactorEdits(s: State, name: string)
    requires WritesCompactorFinalizer(s, name)
    ensures Next(s, EditFinalizers(name, CompactorFinalizers(s.tenants[name])), AfterCompactor(s, name))
  {
    WithoutMembers(s.tenants[name].finalizers, C.FINALIZER_COMPACTOR);
  }

  lemma AfterCompactorKeeps(s: State, name: string)
    requires Inv(s)
    ensures Inv(AfterCompactor(s, name))
  {
    if WritesCompactorFinalizer(s, name) {
      CompactorEdits(s, name);
      OtherActionKeeps(s, EditFinalizers(name, CompactorFinalizers(s.tenants[name])), AfterCompactor(s, name));
    }
  }

  /** A whole reconcile keeps the allocator's invariant exactly when it does not revive a lingering
      tenant. */
  lemma WholeReconcileKeepsIff(s: State, name: string, s': State)
    requires Inv(s) && WholeReconcile(s, name, s')
    ensures Inv(s') <==> !WouldRevive(s, name)
  {
    if WouldRevive(s, name) {
      RevivalStays(s, name, s');
    } else if name in s.tenants && ServiceOf(s, s.tenants[name]).Some? {
      var m :| ReconcilesTenant(s, name, m) && s' == AfterCompactor(m, name);
      ReconcileKeeps(s, name, m);
      AfterCompactorKeeps(m, name);
    }
  }

  lemma RevivalStays(s: State, name: string, s': State)
    requires Inv(s) && WholeReconcile(s, name, s') && WouldRevive(s, name)
    ensures !Inv(s')
  {
    var m :| ReconcilesTenant(s, name, m) && s' == AfterCompactor(m, name);
    RevivedIsListed(s, name, m);
    ReconcileTouches(s, name, m);
    LeakStays(s, m, name);
  }

  /** A listed tenant without the ingester's finalizer still breaks the invariant after the
      compactor's write. */
  lemma LeakStays(s: State, m: State, name: string)
    requires DistinctIds(s) && name in s.tenants && m.tenants - {name} == s.tenants - {name}
    requires name in m.tenants && Id(name, m.tenants[name]) == Id(name, s.tenants[name])
    requires FINALIZER_INGESTER !in m.tenants[name].finalizers
    requires m.tenants[name].ingester.Some? && Lists(m, m.tenants[name].ingester.value, Id(name, m.tenants[name]))
    ensures !Inv(AfterCompactor(m, name))
  {
    var s', k, x := AfterCompactor(m, name), m.tenants[name].ingester.value, Id(name, m.tenants[name]);
    WithoutMembers(m.tenants[name].finalizers, C.FINALIZER_COMPACTOR);
    forall n ensures !Owns(s', n, k, x) {
      if n != name && n in s'.tenants {
        assert n in m.tenants - {name} && (m.tenants - {name})[n] == s'.tenants[n];
        assert s.tenants[n] == s'.tenants[n];
      }
    }
    assert Lists(s', k, x) && !Owned(s', k, x);
  }

  /** Taking both of the operator's finalizers leaves none exactly when there is no foreign one. */
  lemma {:induction false} BothGoneIff(fs: seq<string>)
    ensures Without(Without(fs, FINALIZER_INGESTER), C.FINALIZER_COMPACTOR) == [] <==> NoForeign(fs)
  {
    if fs != [] {
      var rest := fs[1..];
      BothGoneIff(rest);
      if IsOwn(fs[0]) && NoForeign(rest) {
        forall i | 0 <= i < |fs| ensures IsOwn(fs[i]) {
          assert i > 0 ==> fs[i] == rest[i - 1];
        }
      }
      if NoForeign(fs) {
        forall i | 0 <= i < |rest| ensures IsOwn(rest[i]) {
          assert rest[i] == fs[i + 1];
        }
      }
      var kept := Without(rest, FINALIZER_INGESTER);
      assert ([fs[0]] + kept)[1..] == kept;
    }
  }

  /** A live tenant gets both finalizers; one under deletion loses both and is gone. */
  lemma OwnFinalizersAfter(s: State, name: string, m: State)
    requires Held(s) && ReconcilesTenant(s, name, m) && name in s.tenants && ServiceOf(s, s.tenants[name]).Some?
    ensures s.tenants[name].deleting ==> name !in AfterCompactor(m, name).tenants
    ensures !s.tenants[name].deleting ==>
      name in AfterCompactor(m, name).tenants && HoldsBoth(AfterCompactor(m, name).tenants[name])
  {
    var t := s.tenants[name];
    if t.deleting {
      var rest := Without(t.finalizers, FINALIZER_INGESTER);
      WithoutMembers(t.finalizers, FINALIZER_INGESTER);
      assert C.FINALIZER_COMPACTOR in rest;
      assert name in m.tenants && m.tenants[name].finalizers == rest && m.tenants[name].deleting;
      BothGoneIff(t.finalizers);
    } else {
      LiveFinalizers(s, name, m);
    }
  }

  lemma LiveFinalizers(s: State, name: string, m: State)
    requires name in s.tenants && ServiceOf(s, s.tenants[name]).Some? && !s.tenants[name].deleting
    requires HoldsBoth(s.tenants[name]) && ReconcilesTenant(s, name, m)
    ensures name in m.tenants && !m.tenants[name].deleting && FINALIZER_INGESTER in m.tenants[name].finalizers
    ensures name in AfterCompactor(m, name).tenants && HoldsBoth(AfterCompactor(m, name).tenants[name])
  {
    var t, svc := s.tenants[name], ServiceOf(s, s.tenants[name]).value;
    if PlacesByIndex(s, name, svc) {
      var i: nat :| LeastOpen(s, GroupOf(svc, t), svc.limit, i) && m == PlaceAt(s, name, svc, i);
    }
  }

  lemma OthersUntouched(s: State, name: string, s': State, n: string)
    requires WholeReconcile(s, name, s') && n != name
    ensures n in s'.tenants <==> n in s.tenants
    ensures n in s.tenants ==> s'.tenants[n] == s.tenants[n]
  {
    if name in s.tenants && ServiceOf(s, s.tenants[name]).Some? {
      var m :| ReconcilesTenant(s, name, m) && s' == AfterCompactor(m, name);
      ReconcileTouches(s, name, m);
      assert n in m.tenants - {name} <==> n in s.tenants - {name};
      if n in s.tenants {
        assert (m.tenants - {name})[n] == (s.tenants - {name})[n];
      }
    }
  }

  lemma WholeReconcileKeepsHeld(s: State, name: string, s': State)
    requires Held(s) && WholeReconcile(s, name, s')
    ensures Held(s')
  {
    if name in s.tenants && ServiceOf(s, s.tenants[name]).Some? {
      var m :| ReconcilesTenant(s, name, m) && s' == AfterCompactor(m, name);
      OwnFinalizersAfter(s, name, m);
      forall n | n in s'.tenants ensures HoldsBoth(s'.tenants[n]) {
        if n != name {
          OthersUntouched(s, name, s', n);
        }
      }
    }
  }

  lemma TameStepKeepsHeld(s: State, a: Action, s': State)
    requires Held(s) && OperatorNext(s, a, s') && Tame(s, a)
    ensures Held(s')
  {
    if a.ReconcileTenant? {
      WholeReconcileKeepsHeld(s, a.name, s');
    } else if a.DeleteTenant? && s.tenants[a.name].finalizers != [] {
      assert s.tenants[a.name].finalizers[0] in s.tenants[a.name].finalizers;
      assert IsOwn(s.tenants[a.name].finalizers[0]);
    }
  }

  lemma TameStepKeepsInv(s: State, a: Action, s': State)
    requires Inv(s) && Held(s) && OperatorNext(s, a, s')
    ensures Inv(s')
  {
    if a.ReconcileTenant? {
      HeldNeverRevives(s, a.name);
      WholeReconcileKeepsIff(s, a.name, s');
    } else {
      OtherActionKeeps(s, a, s');
    }
  }

  /** In every state of every run of the operator: each entry of each list belongs to one tenant
      that points back, whatever the interleaving, as long as users leave the finalizers alone and
      delete no tenant that others hold. */
  lemma {:induction false} OperatorRunsKeepInv(run: seq<State>, acts: seq<Action>, n: nat)
    requires IsTameRun(run, acts) && n < |run|
    ensures Inv(run[n]) && Held(run[n])
  {
    if n == 0 {
      forall k | k in run[0].ingesters ensures ListOk(k, run[0].ingesters[k]) {
      }
    } else {
      OperatorRunsKeepInv(run, acts, n - 1);
      assert OperatorNext(run[n - 1], acts[n - 1], run[n]) && Tame(run[n - 1], acts[n - 1]);
      TameStepKeepsInv(run[n - 1], acts[n - 1], run[n]);
      TameStepKeepsHeld(run[n - 1], acts[n - 1], run[n]);
    }
  }

  /** In such a run one whole reconcile deletes a tenant under deletion, from the API and from
      every list. */
  lemma OneReconcileDeletes(s: State, name: string, s': State)
    requires Inv(s) && Held(s) && WholeReconcile(s, name, s')
    requires name in s.tenants && s.tenants[name].deleting && ServiceOf(s, s.tenants[name]).Some?
    ensures name !in s'.tenants && Unlisted(s', Id(name, s.tenants[name]))
  {
    var m :| ReconcilesTenant(s, name, m) && s' == AfterCompactor(m, name);
    OwnFinalizersAfter(s, name, m);
    DeletionLeavesNoListing(s, name, m);
    assert s'.ingesters == m.ingesters;
    forall k ensures !Lists(s', k, Id(name, s.tenants[name])) {
      assert !Lists(m, k, Id(name, s.tenants[name]));
    }
  }

  // ----- the same runs in parts -----

  lemma RunExtended(run: seq<State>, acts: seq<Action>, a: Action, s': State)
    requires IsRun(run, acts) && NeverRevives(run, acts) && Next(run[|run| - 1], a, s')
    requires a.ReconcileTenant? ==> !WouldRevive(run[|run| - 1], a.name)
    ensures IsRun(run + [s'], acts + [a]) && NeverRevives(run + [s'], acts + [a])
  {
    var run', acts' := run + [s'], acts + [a];
    forall i | 0 <= i < |acts'| ensures Next(run'[i], acts'[i], run'[i + 1]) {
      if i < |acts| {
        assert Next(run[i], acts[i], run[i + 1]);
      }
    }
    forall i | 0 <= i < |acts'| && acts'[i].ReconcileTenant? ensures !WouldRevive(run'[i], acts'[i].name) {
      if i < |acts| {
        assert !WouldRevive(run[i], acts[i].name);
      }
    }
  }

  /** Every state of a run of the operator is the last state of a run of the parts that revives
      nobody: capacity, recycling, routing and clean-up hold there as they do in all such runs. */
  lemma {:induction false} OperatorRunUnfolds(run: seq<State>, acts: seq<Action>, n: nat)
    returns (parts: seq<State>, steps: seq<Action>)
    requires IsTameRun(run, acts) && n < |run|
    ensures IsRun(parts, steps) && NeverRevives(parts, steps) && parts[|parts| - 1] == run[n]
  {
    if n == 0 {
      parts, steps := [run[0]], [];
    } else {
      parts, steps := OperatorRunUnfolds(run, acts, n - 1);
      HeldStep(run, acts, n - 1);
      parts, steps := StepUnfolds(parts, steps, acts[n - 1], run[n]);
    }
  }

  lemma HeldStep(run: seq<State>, acts: seq<Action>, n: nat)
    requires IsTameRun(run, acts) && n < |acts|
    ensures |run| == |acts| + 1 && Held(run[n]) && OperatorNext(run[n], acts[n], run[n + 1])
  {
    OperatorRunsKeepInv(run, acts, n);
  }

  lemma StepUnfolds(run: seq<State>, acts: seq<Action>, a: Action, s': State)
    returns (parts: seq<State>, steps: seq<Action>)
    requires IsRun(run, acts) && NeverRevives(run, acts) && Held(run[|run| - 1])
    requires OperatorNext(run[|run| - 1], a, s')
    ensures IsRun(parts, steps) && NeverRevives(parts, steps) && parts[|parts| - 1] == s'
  {
    if a.ReconcileTenant? {
      parts, steps := WholeReconcileUnfolds(run, acts, a.name, s');
    } else {
      RunExtended(run, acts, a, s');
      parts, steps := run + [s'], acts + [a];
    }
  }

  lemma WholeReconcileUnfolds(run: seq<State>, acts: seq<Action>, name: string, s': State)
    returns (parts: seq<State>, steps: seq<Action>)
    requires IsRun(run, acts) && NeverRevives(run, acts) && Held(run[|run| - 1])
    requires WholeReconcile(run[|run| - 1], name, s')
    ensures IsRun(parts, steps) && NeverRevives(parts, steps) && parts[|parts| - 1] == s'
  {
    var s := run[|run| - 1];
    parts, steps := run, acts;
    if name in s.tenants && ServiceOf(s, s.tenants[name]).Some? {
      var m :| ReconcilesTenant(s, name, m) && s' == AfterCompactor(m, name);
      HeldNeverRevives(s, name);
      RunExtended(run, acts, ReconcileTenant(name), m);
      parts, steps := run + [m], acts + [ReconcileTenant(name)];
      if WritesCompactorFinalizer(m, name) {
        CompactorEdits(m, name);
        var edit := EditFinalizers(name, CompactorFinalizers(m.tenants[name]));
        RunExtended(parts, steps, edit, s');
        parts, steps := parts + [s'], steps + [edit];
      }
    }
  }

  // ----- whole reconciles terminate -----

  predicate Pending(s: State, n: string) {
    n in s.tenants && ServiceOf(s, s.tenants[n]).Some? && WritesCompactorFinalizer(s, n)
  }

  /** The rank of the ingester's part, and one for a due write of the compactor's finalizer. */
  function WholeRank(s: State, n: string): nat {
    Rank(s, n) + if Pending(s, n) then 1 else 0
  }

  lemma AfterCompactorKeepsRank(s: State, name: string, n: string)
    ensures Rank(AfterCompactor(s, name), n) <= Rank(s, n)
    ensures !Pending(AfterCompactor(s, name), name)
  {
    if WritesCompactorFinalizer(s, name) {
      var t, s' := s.tenants[name], AfterCompactor(s, name);
      WithoutMembers(t.finalizers, C.FINALIZER_COMPACTOR);
      if n == name && name in s'.tenants && ServiceOf(s, t).Some? {
        FinalizerOnlyChange(s, name, s'.tenants[name], ServiceOf(s, t).value);
      }
    }
  }

  /** The ingester's part leaves the compactor's finalizer where it is. */
  lemma PartKeepsPending(s: State, name: string, m: State)
    requires ReconcilesTenant(s, name, m)
    ensures name in m.tenants ==> (Pending(m, name) <==> Pending(s, name))
  {
    ReconcileTouches(s, name, m);
    if name in m.tenants {
      ReconciledFinalizers(s, name, m);
      WithoutMembers(s.tenants[name].finalizers, FINALIZER_INGESTER);
      PendingIff(s, name);
      PendingIff(m, name);
    }
  }

  lemma PendingIff(s: State, n: string)
    requires n in s.tenants
    ensures WritesCompactorFinalizer(s, n) <==>
      (s.tenants[n].deleting <==> C.FINALIZER_COMPACTOR in s.tenants[n].finalizers)
  {
    WithoutMembers(s.tenants[n].finalizers, C.FINALIZER_COMPACTOR);
  }

  /** Each productive whole reconcile of a tenant lowers its rank, and rank zero is exactly the
      fixpoint. */
  lemma OwnWholeLowers(s: State, u: Universe, name: string, s': State)
    requires Good(s, u) && WholeReconcile(s, name, s')
    ensures WholeRank(s, name) == 0 <==> s' == s
    ensures s' == s || WholeRank(s', name) < WholeRank(s, name)
  {
    if name in s.tenants && ServiceOf(s, s.tenants[name]).Some? {
      var m :| ReconcilesTenant(s, name, m) && s' == AfterCompactor(m, name);
      OwnReconcileLowers(s, u, name, m);
      PartKeepsPending(s, name, m);
      AfterCompactorKeepsRank(m, name, name);
      if Pending(s, name) {
        PendingIff(s, name);
        assert s' != s;
      }
    }
  }

  lemma OtherWholeKeepsRank(s: State, u: Universe, name: string, s': State, n: string)
    requires Good(s, u) && WholeReconcile(s, name, s') && n != name
    ensures WholeRank(s', n) <= WholeRank(s, n)
  {
    OthersUntouched(s, name, s', n);
    if name in s.tenants && ServiceOf(s, s.tenants[name]).Some? {
      var m :| ReconcilesTenant(s, name, m) && s' == AfterCompactor(m, name);
      ReconcileTouches(s, name, m);
      OtherReconcileKeepsRank(s, u, name, m, n);
      AfterCompactorKeepsRank(m, name, n);
    }
  }

  ghost predicate IsOperatorControllerRun(run: seq<State>, acts: seq<Action>) {
    && |run| == |acts| + 1
    && forall i :: 0 <= i < |acts| ==> IsControllerAction(acts[i]) && OperatorNext(run[i], acts[i], run[i + 1])
  }

  lemma AfterCompactorStaysGood(s: State, u: Universe, name: string)
    requires Good(s, u)
    ensures Good(AfterCompactor(s, name), u)
  {
    if WritesCompactorFinalizer(s, name) {
      CompactorEdits(s, name);
      StepShape(s, u, EditFinalizers(name, CompactorFinalizers(s.tenants[name])), AfterCompactor(s, name));
      AfterCompactorKeeps(s, name);
    }
  }

  lemma OperatorStepStaysGood(s: State, u: Universe, a: Action, s': State)
    requires Good(s, u) && Held(s) && IsControllerAction(a) && OperatorNext(s, a, s')
    ensures Good(s', u) && Held(s')
  {
    TameStepKeepsHeld(s, a, s');
    if a.ReconcileTenant? {
      HeldNeverRevives(s, a.name);
      if a.name in s.tenants && ServiceOf(s, s.tenants[a.name]).Some? {
        var m :| ReconcilesTenant(s, a.name, m) && s' == AfterCompactor(m, a.name);
        ControllerStepStaysGood(s, u, a, m);
        AfterCompactorStaysGood(m, u, a.name);
      }
    } else {
      ControllerStepStaysGood(s, u, a, s');
    }
  }

  lemma {:induction false} OperatorRunStaysGood(run: seq<State>, acts: seq<Action>, u: Universe, m: nat)
    requires IsOperatorControllerRun(run, acts) && Good(run[0], u) && Held(run[0]) && m < |run|
    ensures Good(run[m], u) && Held(run[m])
  {
    if m > 0 {
      OperatorRunStaysGood(run, acts, u, m - 1);
      assert OperatorNext(run[m - 1], acts[m - 1], run[m]) && IsControllerAction(acts[m - 1]);
      OperatorStepStaysGood(run[m - 1], u, acts[m - 1], run[m]);
    }
  }

  lemma RankAtMost(s: State, n: string)
    ensures WholeRank(s, n) <= 4
  {
    if n in s.tenants {
      PendingIff(s, n);
    }
  }

  lemma StepLowers(s: State, u: Universe, a: Action, s': State, n: string)
    requires Good(s, u) && IsControllerAction(a) && OperatorNext(s, a, s')
    ensures WholeRank(s', n) + (if a == ReconcileTenant(n) && s' != s then 1 else 0) <= WholeRank(s, n)
  {
    if a == ReconcileTenant(n) {
      OwnWholeLowers(s, u, n, s');
    } else if a.ReconcileTenant? {
      OtherWholeKeepsRank(s, u, a.name, s', n);
    } else {
      QuietActionKeepsRank(s, a, s', n);
    }
  }

  lemma RunStepLowers(run: seq<State>, acts: seq<Action>, u: Universe, n: string, m: nat)
    requires IsOperatorControllerRun(run, acts) && Good(run[0], u) && Held(run[0]) && m < |acts|
    ensures WholeRank(run[m + 1], n) + (if acts[m] == ReconcileTenant(n) && run[m + 1] != run[m] then 1 else 0)
         <= WholeRank(run[m], n)
  {
    OperatorRunStaysGood(run, acts, u, m);
    assert OperatorNext(run[m], acts[m], run[m + 1]) && IsControllerAction(acts[m]);
    StepLowers(run[m], u, acts[m], run[m + 1], n);
  }

  /** Numbers that fall with every productive reconcile bound how many there are. */
  lemma {:induction false} FallingBounds(ranks: seq<nat>, run: seq<State>, acts: seq<Action>, n: string, m: nat)
    requires |ranks| == |run| == |acts| + 1 && m <= |acts|
    requires forall i :: 0 <= i < |acts| ==> ranks[i + 1] + Produces(run, acts, n, i) <= ranks[i]
    ensures Productive(run, acts, n, m) + ranks[m] <= ranks[0]
  {
    if m > 0 {
      FallingBounds(ranks, run, acts, n, m - 1);
      assert ranks[m - 1 + 1] + Produces(run, acts, n, m - 1) <= ranks[m - 1];
    }
  }

  ghost function Produces(run: seq<State>, acts: seq<Action>, n: string, i: int): nat
    requires |run| == |acts| + 1 && 0 <= i < |acts|
  {
    if acts[i] == ReconcileTenant(n) && run[i + 1] != run[i] then 1 else 0
  }

  function Ranks(run: seq<State>, n: string): (ranks: seq<nat>)
    ensures |ranks| == |run| && forall i :: 0 <= i < |run| ==> ranks[i] == WholeRank(run[i], n)
  {
    seq(|run|, i requires 0 <= i < |run| => WholeRank(run[i], n))
  }

  lemma AllFall(run: seq<State>, acts: seq<Action>, u: Universe, n: string)
    requires IsOperatorControllerRun(run, acts) && Good(run[0], u) && Held(run[0])
    ensures forall i :: 0 <= i < |acts| ==> Ranks(run, n)[i + 1] + Produces(run, acts, n, i) <= Ranks(run, n)[i]
  {
    forall i | 0 <= i < |acts| ensures Ranks(run, n)[i + 1] + Produces(run, acts, n, i) <= Ranks(run, n)[i] {
      RunStepLowers(run, acts, u, n, i);
    }
  }

  /** Over every interleaving of whole reconciles, ingester reconciles and recycling, with users
      away: the productive whole reconciles of a tenant so far and its rank now never exceed the
      rank it started with, which is at most 4. */
  lemma OperatorTerminates(run: seq<State>, acts: seq<Action>, u: Universe, n: string, m: nat)
    requires IsOperatorControllerRun(run, acts) && Good(run[0], u) && Held(run[0]) && m <= |acts|
    ensures Productive(run, acts, n, m) + WholeRank(run[m], n) <= WholeRank(run[0], n) <= 4
  {
    RankAtMost(run[0], n);
    AllFall(run, acts, u, n);
    FallingBounds(Ranks(run, n), run, acts, n, m);
  }
}
