/** Whole reconciles as the compactors see them: the write of the ingester's finalizer, then the
    compactor's part. No entry outlives its tenant, on conditions about the users' actions alone. */
module CompactionRuns {
  import opened Text
  import opened Cluster
  import opened Compaction
  import opened CompactionSafety
  import O = OperatorRuns

  // ----- the steps -----

  /** What the ingester's part makes of the finalizers. */
  function IngesterFinalizers(t: Client): seq<string> {
    if !t.deleting && FINALIZER_INGESTER !in t.finalizers then t.finalizers + [FINALIZER_INGESTER]
    else if t.deleting && FINALIZER_INGESTER in t.finalizers then Without(t.finalizers, FINALIZER_INGESTER)
    else t.finalizers
  }

  function AfterIngester(s: Compactors, name: string): Compactors
    requires name in s.clients
  {
    SetFinalizers(s, name, IngesterFinalizers(s.clients[name]))
  }

  ghost predicate WholeReconcile(s: Compactors, name: string, s': Compactors) {
    if name in s.clients && ServiceFor(s, s.clients[name]).Some?
    then Reconciles(AfterIngester(s, name), name, s')
    else s' == s
  }

  ghost predicate OperatorNext(s: Compactors, a: Action, s': Compactors) {
    if a.Reconcile? then WholeReconcile(s, a.name, s') else Next(s, a, s')
  }

  ghost predicate IsOperatorRun(run: seq<Compactors>, acts: seq<Action>) {
    && |run| == |acts| + 1
    && run[0].clients == map[] && run[0].compactors == map[]
    && forall i :: 0 <= i < |acts| ==> OperatorNext(run[i], acts[i], run[i + 1])
  }

  // ----- what users leave alone -----

  /** The status names every compactor that lists the tenant. */
  ghost predicate OnlyRecorded(s: Compactors, name: string)
    requires name in s.clients
  {
    forall k :: Lists(s, k, name) ==> s.clients[name].compactor == Some(k)
  }

  /** Users do not write the operator's finalizers; they delete only tenants without foreign ones and
      not during the detour of the empty name, and add no foreign one to a tenant under deletion. */
  ghost predicate Tame(s: Compactors, a: Action) {
    match a
    case Create(_, c) =>
      !c.deleting && FINALIZER_INGESTER !in c.finalizers && FINALIZER_COMPACTOR !in c.finalizers
    case DeleteClient(name) =>
      name in s.clients ==> O.NoForeign(s.clients[name].finalizers) && OnlyRecorded(s, name)
    case EditFinalizers(name, fs) =>
      name in s.clients ==>
        && (FINALIZER_INGESTER in fs <==> FINALIZER_INGESTER in s.clients[name].finalizers)
        && (FINALIZER_COMPACTOR in fs <==> FINALIZER_COMPACTOR in s.clients[name].finalizers)
        && (s.clients[name].deleting ==> O.NoForeign(fs))
    case _ => true
  }

  ghost predicate IsTameRun(run: seq<Compactors>, acts: seq<Action>) {
    IsOperatorRun(run, acts) && forall i :: 0 <= i < |acts| ==> Tame(run[i], acts[i])
  }

  /** Both of the operator's finalizers or none, and under deletion both and no others. */
  predicate HoldsBoth(t: Client) {
    && (FINALIZER_INGESTER in t.finalizers <==> FINALIZER_COMPACTOR in t.finalizers)
    && (t.deleting ==> FINALIZER_COMPACTOR in t.finalizers && O.NoForeign(t.finalizers))
  }

  /** What such runs keep: every entry is held, and a tenant under deletion is listed at most where
      its status says. */
  ghost predicate Kept(s: Compactors) {
    && Held(s)
    && (forall n :: n in s.clients ==> HoldsBoth(s.clients[n]))
    && forall n :: n in s.clients && s.clients[n].deleting ==> OnlyRecorded(s, n)
  }

  // ----- whole reconciles -----

  lemma LiveWhole(s: Compactors, name: string, s': Compactors)
    requires Kept(s) && WholeReconcile(s, name, s')
    requires name in s.clients && ServiceFor(s, s.clients[name]).Some? && !s.clients[name].deleting
    ensures Held(s') && name in s'.clients && HoldsBoth(s'.clients[name]) && !s'.clients[name].deleting
    ensures Reconciled(s, name, s')
  {
    var m := AfterIngester(s, name);
    assert m.compactors == s.compactors && forall k, x :: Lists(m, k, x) <==> Lists(s, k, x);
    if FINALIZER_COMPACTOR !in s.clients[name].finalizers {
      UnheldIsUnlisted(s, name);
    }
    FewerAreHeld(s, m, name);
    LiveKeepsHeld(m, name, s');
    LiveFinalizers(m, name, s');
  }

  /** Entries of others come from before, and other clients are as they were. */
  ghost predicate Reconciled(s: Compactors, name: string, s': Compactors) {
    && (forall k, x :: Lists(s', k, x) && x != name ==> Lists(s, k, x))
    && (forall n :: n != name ==> (n in s'.clients <==> n in s.clients))
    && (forall n :: n in s.clients && n != name ==> s'.clients[n] == s.clients[n])
  }

  lemma LiveFinalizers(m: Compactors, name: string, s': Compactors)
    requires Reconciles(m, name, s') && name in m.clients && ServiceFor(m, m.clients[name]).Some?
    requires !m.clients[name].deleting && FINALIZER_INGESTER in m.clients[name].finalizers
    ensures name in s'.clients && HoldsBoth(s'.clients[name]) && !s'.clients[name].deleting
    ensures Reconciled(m, name, s')
  {
    var t, svc := m.clients[name], ServiceFor(m, m.clients[name]).value;
    if FINALIZER_COMPACTOR in t.finalizers {
      if NeedsReset(m, name, svc) {
        DetachLists(m, t.compactor.value, name);
      } else if GroupFor(svc, t.labels).storage != LOCAL_STORAGE && !IsTrue(t.labels.exclusive) {
        PlaceSharedLists(m, name, svc, s');
      }
    }
  }

  /** One whole reconcile takes a tenant under deletion off the API and off every list. */
  lemma OneReconcileDeletes(s: Compactors, name: string, s': Compactors)
    requires Kept(s) && WholeReconcile(s, name, s')
    requires name in s.clients && ServiceFor(s, s.clients[name]).Some? && s.clients[name].deleting
    ensures name !in s'.clients && forall k :: !Lists(s', k, name)
    ensures Reconciled(s, name, s')
  {
    var t, m := s.clients[name], AfterIngester(s, name);
    WithoutMembers(t.finalizers, FINALIZER_INGESTER);
    O.BothGoneIff(t.finalizers);
    assert FINALIZER_COMPACTOR in Without(t.finalizers, FINALIZER_INGESTER);
    assert m.clients[name] == t.(finalizers := Without(t.finalizers, FINALIZER_INGESTER));
    if t.compactor.Some? {
      DetachLists(m, t.compactor.value, name);
    }
    assert forall k, x :: Lists(m, k, x) <==> Lists(s, k, x);
    var d := if t.compactor.Some? then Detach(m, t.compactor.value, name) else m;
    assert s'.compactors == d.compactors;
    forall k ensures !Lists(s', k, name) {
      assert Lists(s', k, name) <==> Lists(d, k, name);
      assert Lists(s, k, name) ==> t.compactor == Some(k);
    }
  }

  lemma WholeReconcileKeeps(s: Compactors, name: string, s': Compactors)
    requires Kept(s) && WholeReconcile(s, name, s')
    ensures Kept(s')
  {
    if name in s.clients && ServiceFor(s, s.clients[name]).Some? {
      if s.clients[name].deleting {
        OneReconcileDeletes(s, name, s');
        FewerAreHeld(s, s', name);
      } else {
        LiveWhole(s, name, s');
      }
      OthersStayRecorded(s, name, s');
    }
  }

  lemma OthersStayRecorded(s: Compactors, name: string, s': Compactors)
    requires Kept(s) && Reconciled(s, name, s')
    requires name in s'.clients ==> HoldsBoth(s'.clients[name]) && !s'.clients[name].deleting
    ensures forall n :: n in s'.clients ==> HoldsBoth(s'.clients[n])
    ensures forall n :: n in s'.clients && s'.clients[n].deleting ==> OnlyRecorded(s', n)
  {
    forall n | n in s'.clients && s'.clients[n].deleting ensures OnlyRecorded(s', n) {
      assert OnlyRecorded(s, n);
    }
  }

  // ----- runs -----

  lemma TameActionKeeps(s: Compactors, a: Action, s': Compactors)
    requires Kept(s) && Next(s, a, s') && !a.Reconcile? && Tame(s, a)
    ensures Kept(s')
  {
    OtherActionKeepsHeld(s, a, s');
    assert s'.compactors == s.compactors;
    if a.DeleteClient? && s.clients[a.name].finalizers != [] {
      assert O.IsOwn(s.clients[a.name].finalizers[0]);
      assert s.clients[a.name].finalizers[0] in s.clients[a.name].finalizers;
    }
    forall n | n in s'.clients && s'.clients[n].deleting ensures OnlyRecorded(s', n) {
      assert forall k :: Lists(s', k, n) ==> Lists(s, k, n);
    }
  }

  /** In every state of every such run every entry is held by its tenant, so none outlives it. */
  lemma {:induction false} OperatorRunsKeepHeld(run: seq<Compactors>, acts: seq<Action>, n: nat)
    requires IsTameRun(run, acts) && n < |run|
    ensures Kept(run[n])
  {
    if n > 0 {
      OperatorRunsKeepHeld(run, acts, n - 1);
      assert OperatorNext(run[n - 1], acts[n - 1], run[n]) && Tame(run[n - 1], acts[n - 1]);
      if acts[n - 1].Reconcile? {
        WholeReconcileKeeps(run[n - 1], acts[n - 1].name, run[n]);
      } else {
        TameActionKeeps(run[n - 1], acts[n - 1], run[n]);
      }
    }
  }
}
