/** Which compactor entries outlive their tenant: entries are held by the compactor's finalizer, and
    exactly two kinds of reconcile lose that hold. */
module CompactionSafety {
  import opened Text
  import opened Cluster
  import opened Compaction

  /** Every entry belongs to a client that cannot vanish without the reconciler. */
  ghost predicate Held(s: Compactors) {
    forall k, x :: Lists(s, k, x) ==> x in s.clients && FINALIZER_COMPACTOR in s.clients[x].finalizers
  }

  /** A client under deletion that already lost the finalizer but lingers, with no compactor
      recorded: the reconcile falls through the deletion branch and places it again, unless its
      storage is local or a new compactor cannot be named. */
  predicate WouldRevive(s: Compactors, name: string) {
    && name in s.clients && ServiceFor(s, s.clients[name]).Some?
    && var t, svc := s.clients[name], ServiceFor(s, s.clients[name]).value;
    var g := GroupFor(svc, t.labels);
    && t.deleting && FINALIZER_COMPACTOR !in t.finalizers
    && t.compactor.None?
    && g.storage != LOCAL_STORAGE
    && (IsTrue(t.labels.exclusive) || Roomy(s, g, svc.compactorLimit) != {} || |Split(g.storage, '.')| >= 2)
  }

  /** A client about to be finalized is on a list that its status does not name. */
  ghost predicate LeavesBehind(s: Compactors, name: string) {
    && name in s.clients && ServiceFor(s, s.clients[name]).Some?
    && s.clients[name].deleting && FINALIZER_COMPACTOR in s.clients[name].finalizers
    && exists k :: Lists(s, k, name) && s.clients[name].compactor != Some(k)
  }

  /** Entries of s' are entries of s, except perhaps of one held client; other clients are kept. */
  lemma FewerAreHeld(s: Compactors, s': Compactors, name: string)
    requires Held(s)
    requires forall k, x :: Lists(s', k, x) && x != name ==> Lists(s, k, x)
    requires forall n :: n in s.clients && n != name ==> n in s'.clients && s'.clients[n] == s.clients[n]
    requires (forall k :: !Lists(s', k, name)) || (name in s'.clients && FINALIZER_COMPACTOR in s'.clients[name].finalizers)
    ensures Held(s')
  {
  }

  lemma DetachLists(s: Compactors, k: Key, x: string)
    ensures forall l, y :: Lists(Detach(s, k, x), l, y) <==> Lists(s, l, y) && !(l == k && y == x)
  {
    if k in s.compactors {
      WithoutMembers(s.compactors[k].tenants, x);
    }
  }

  /** Placing lists the client somewhere, and nobody else anew. */
  lemma PlaceSharedLists(s: Compactors, name: string, svc: Service, s': Compactors)
    requires name in s.clients && PlaceShared(s, name, svc, s')
    ensures forall k, x :: Lists(s', k, x) && x != name ==> Lists(s, k, x)
    ensures s'.clients == s.clients[name := s.clients[name].(compactor := s'.clients[name].compactor)]
    ensures var g := GroupFor(svc, s.clients[name].labels);
      (exists k :: Lists(s', k, name)) <==>
      (exists k :: Lists(s, k, name)) || Roomy(s, g, svc.compactorLimit) != {} || |Split(g.storage, '.')| >= 2
  {
    var g := GroupFor(svc, s.clients[name].labels);
    if Holders(s, g, name) != {} {
      var k :| k in Holders(s, g, name) && s' == SetRef(s, name, Some(k));
      assert Lists(s, k, name) && Lists(s', k, name);
    } else if Roomy(s, g, svc.compactorLimit) != {} {
      var k :| k in Roomy(s, g, svc.compactorLimit) && s' == AddTo(s, name, k);
      assert Lists(s', k, name);
    } else if |Split(g.storage, '.')| >= 2 {
      var k :| MayGenerate(s, g, k) && s' == Generate(s, name, g, k);
      assert Lists(s', k, name);
    } else {
      assert s.clients[name := s.clients[name]] == s.clients;
    }
  }

  lemma UnheldIsUnlisted(s: Compactors, name: string)
    requires Held(s) && (name !in s.clients || FINALIZER_COMPACTOR !in s.clients[name].finalizers)
    ensures forall k :: !Lists(s, k, name)
  {
  }

  /** The finalizing step keeps the hold exactly when it leaves no entry behind. */
  lemma FinalizingKeepsHeldIff(s: Compactors, name: string, s': Compactors)
    requires Held(s) && Reconciles(s, name, s') && name in s.clients && ServiceFor(s, s.clients[name]).Some?
    requires s.clients[name].deleting && FINALIZER_COMPACTOR in s.clients[name].finalizers
    ensures Held(s') <==> !LeavesBehind(s, name)
  {
    DeletionLeavesListedIff(s, name, s');
    WithoutMembers(s.clients[name].finalizers, FINALIZER_COMPACTOR);
    if s.clients[name].compactor.Some? {
      DetachLists(s, s.clients[name].compactor.value, name);
    }
    if !LeavesBehind(s, name) {
      forall k ensures !Lists(s', k, name) {
        assert Lists(s, k, name) ==> s.clients[name].compactor == Some(k);
      }
      FewerAreHeld(s, s', name);
    }
  }

  /** A reconcile of a finalized client that lingers lists it exactly when it revives it. */
  lemma LingeringIsListedIff(s: Compactors, name: string, s': Compactors)
    requires Held(s) && Reconciles(s, name, s') && name in s.clients && ServiceFor(s, s.clients[name]).Some?
    requires s.clients[name].deleting && FINALIZER_COMPACTOR !in s.clients[name].finalizers
    ensures (exists k :: Lists(s', k, name)) <==> WouldRevive(s, name)
    ensures forall k, x :: Lists(s', k, x) && x != name ==> Lists(s, k, x)
    ensures s'.clients == s.clients[name := s.clients[name].(compactor := s'.clients[name].compactor)]
  {
    var t, svc := s.clients[name], ServiceFor(s, s.clients[name]).value;
    UnheldIsUnlisted(s, name);
    assert t.compactor.Some? ==> !Lists(s, t.compactor.value, name);
    if NeedsReset(s, name, svc) {
      DetachLists(s, t.compactor.value, name);
      assert forall k :: Lists(s', k, name) ==> Lists(s, k, name);
    } else if GroupFor(svc, t.labels).storage == LOCAL_STORAGE {
      assert s.clients[name := t] == s.clients;
    } else if IsTrue(t.labels.exclusive) {
      assert Lists(s', Key(GroupNs(GroupFor(svc, t.labels)), name), name);
    } else {
      PlaceSharedLists(s, name, svc, s');
    }
  }

  lemma LiveKeepsHeld(s: Compactors, name: string, s': Compactors)
    requires Held(s) && Reconciles(s, name, s') && name in s.clients && ServiceFor(s, s.clients[name]).Some?
    requires !s.clients[name].deleting
    ensures Held(s')
  {
    var t, svc := s.clients[name], ServiceFor(s, s.clients[name]).value;
    if FINALIZER_COMPACTOR in t.finalizers {
      if NeedsReset(s, name, svc) {
        DetachLists(s, t.compactor.value, name);
      } else if GroupFor(svc, t.labels).storage != LOCAL_STORAGE && !IsTrue(t.labels.exclusive) {
        PlaceSharedLists(s, name, svc, s');
      }
    }
    FewerAreHeld(s, s', name);
  }

  /** A reconcile keeps every entry held exactly when it neither revives a lingering client nor
      finalizes one that some other compactor lists. */
  lemma ReconcileKeepsHeldIff(s: Compactors, name: string, s': Compactors)
    requires Held(s) && Reconciles(s, name, s')
    ensures Held(s') <==> !WouldRevive(s, name) && !LeavesBehind(s, name)
  {
    if name in s.clients && ServiceFor(s, s.clients[name]).Some? {
      if !s.clients[name].deleting {
        LiveKeepsHeld(s, name, s');
      } else if FINALIZER_COMPACTOR in s.clients[name].finalizers {
        FinalizingKeepsHeldIff(s, name, s');
      } else {
        LingeringIsListedIff(s, name, s');
        if !WouldRevive(s, name) {
          FewerAreHeld(s, s', name);
        }
      }
    }
  }

  // ----- runs -----

  /** Other parts and users leave the compactor's finalizer where it is. */
  predicate KeepsFinalizer(s: Compactors, a: Action) {
    a.EditFinalizers? && a.name in s.clients ==>
      (FINALIZER_COMPACTOR in a.finalizers <==> FINALIZER_COMPACTOR in s.clients[a.name].finalizers)
  }

  ghost predicate Careful(s: Compactors, a: Action) {
    && KeepsFinalizer(s, a)
    && (a.Reconcile? ==> !WouldRevive(s, a.name) && !LeavesBehind(s, a.name))
  }

  lemma OtherActionKeepsHeld(s: Compactors, a: Action, s': Compactors)
    requires Held(s) && Next(s, a, s') && !a.Reconcile? && KeepsFinalizer(s, a)
    ensures Held(s')
  {
    if !a.PutService? {
      if a.name !in s.clients || FINALIZER_COMPACTOR !in s.clients[a.name].finalizers {
        UnheldIsUnlisted(s, a.name);
        assert forall k :: !Lists(s', k, a.name) by {
          assert s'.compactors == s.compactors;
          assert forall k :: Lists(s', k, a.name) ==> Lists(s, k, a.name);
        }
      }
      FewerAreHeld(s, s', a.name);
    } else {
      assert forall k, x :: Lists(s', k, x) ==> Lists(s, k, x);
    }
  }

  /** In every run that avoids the two: no entry outlives its tenant. */
  lemma {:induction false} RunsKeepHeld(run: seq<Compactors>, acts: seq<Action>, n: nat)
    requires IsRun(run, acts) && n < |run|
    requires forall i :: 0 <= i < |acts| ==> Careful(run[i], acts[i])
    ensures Held(run[n])
  {
    if n > 0 {
      RunsKeepHeld(run, acts, n - 1);
      assert Next(run[n - 1], acts[n - 1], run[n]) && Careful(run[n - 1], acts[n - 1]);
      if acts[n - 1].Reconcile? {
        ReconcileKeepsHeldIff(run[n - 1], acts[n - 1].name, run[n]);
      } else {
        OtherActionKeepsHeld(run[n - 1], acts[n - 1], run[n]);
      }
    }
  }

  // ----- no compactor is empty -----

  ghost predicate NonEmpty(s: Compactors) {
    forall k :: k in s.compactors ==> s.compactors[k].tenants != []
  }

  lemma ReconcileKeepsNonEmpty(s: Compactors, name: string, s': Compactors)
    requires NonEmpty(s) && Reconciles(s, name, s')
    ensures NonEmpty(s')
  {
    if name in s.clients && ServiceFor(s, s.clients[name]).Some? {
      var t, svc := s.clients[name], ServiceFor(s, s.clients[name]).value;
      var g := GroupFor(svc, t.labels);
      if !t.deleting && FINALIZER_COMPACTOR !in t.finalizers {
      } else if t.deleting && FINALIZER_COMPACTOR in t.finalizers {
      } else if NeedsReset(s, name, svc) {
      } else if g.storage == LOCAL_STORAGE {
      } else if IsTrue(t.labels.exclusive) {
      } else if Holders(s, g, name) == {} && Roomy(s, g, svc.compactorLimit) != {} {
        var k :| k in Roomy(s, g, svc.compactorLimit) && s' == AddTo(s, name, k);
      } else if Holders(s, g, name) == {} && |Split(g.storage, '.')| >= 2 {
        var k :| MayGenerate(s, g, k) && s' == Generate(s, name, g, k);
      }
    }
  }

  /** In every run every compactor lists somebody: an emptied one is deleted with its last entry. */
  lemma {:induction false} RunsKeepNonEmpty(run: seq<Compactors>, acts: seq<Action>, n: nat)
    requires IsRun(run, acts) && n < |run|
    ensures NonEmpty(run[n])
  {
    if n > 0 {
      RunsKeepNonEmpty(run, acts, n - 1);
      assert Next(run[n - 1], acts[n - 1], run[n]);
      if acts[n - 1].Reconcile? {
        ReconcileKeepsNonEmpty(run[n - 1], acts[n - 1].name, run[n]);
      }
    }
  }
}
