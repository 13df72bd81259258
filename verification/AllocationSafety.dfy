/** Who is listed where: in every reachable state the tenant lists of the ingesters and the
    references in the tenants' status agree, and exactly which reconcile can break that. */
module AllocationSafety {
  import opened Text
  import opened Cluster
  import opened Allocation

  predicate Lists(s: State, k: Key, x: string) {
    k in s.ingesters && x in s.ingesters[k].spec.tenants
  }

  ghost predicate Unlisted(s: State, x: string) {
    forall k :: !Lists(s, k, x)
  }

  /** Tenant object n is the one behind the entry x of ingester k. */
  predicate Owns(s: State, n: string, k: Key, x: string) {
    && n in s.tenants
    && Id(n, s.tenants[n]) == x
    && s.tenants[n].ingester == Some(k)
    && FINALIZER_INGESTER in s.tenants[n].finalizers
  }

  ghost predicate Owned(s: State, k: Key, x: string) {
    exists n :: Owns(s, n, k, x)
  }

  ghost predicate DistinctIds(s: State) {
    forall m, n :: m in s.tenants && n in s.tenants && Id(m, s.tenants[m]) == Id(n, s.tenants[n]) ==> m == n
  }

  /** The list is duplicate-free and sits in the namespace its service label names. */
  ghost predicate ListOk(k: Key, ing: Ingester) {
    && NoDup(ing.spec.tenants)
    && (ing.spec.tenants != [] ==>
          ing.labels.service.Some? && Split(ing.labels.service.value, '.')[0] == k.ns)
  }

  /** Every entry of every ingester belongs to a tenant object that points back at exactly that
      ingester and cannot vanish without the reconciler, because it holds its finalizer. */
  ghost predicate Inv(s: State) {
    && DistinctIds(s)
    && (forall k :: k in s.ingesters ==> ListOk(k, s.ingesters[k]))
    && (forall k, x :: Lists(s, k, x) ==> Owned(s, k, x))
  }

  /** No tenant is listed by two ingesters. */
  lemma ListedOnce(s: State, k: Key, l: Key, x: string)
    requires Inv(s) && Lists(s, k, x) && Lists(s, l, x)
    ensures k == l
  {
    assert Owned(s, k, x) && Owned(s, l, x);
  }

  /** A listed tenant's status names the ingester that lists it. */
  lemma ListedIsRecorded(s: State, name: string, k: Key)
    requires Inv(s) && name in s.tenants && Lists(s, k, Id(name, s.tenants[name]))
    ensures s.tenants[name].ingester == Some(k) && FINALIZER_INGESTER in s.tenants[name].finalizers
  {
    assert Owned(s, k, Id(name, s.tenants[name]));
  }

  lemma UnrecordedIsUnlisted(s: State, name: string)
    requires Inv(s) && name in s.tenants
    requires s.tenants[name].ingester.None? || !Lists(s, s.tenants[name].ingester.value, Id(name, s.tenants[name]))
    ensures Unlisted(s, Id(name, s.tenants[name]))
  {
    forall k | Lists(s, k, Id(name, s.tenants[name])) ensures false {
      ListedIsRecorded(s, name, k);
    }
  }

  // ----- how each kind of write keeps the invariant -----

  /** A write to one tenant object that keeps its id, and its reference while it is listed. */
  lemma TenantWritten(s: State, name: string, t: Tenant)
    requires Inv(s) && name in s.tenants && Id(name, t) == Id(name, s.tenants[name])
    requires Unlisted(s, Id(name, t)) || (t.ingester == s.tenants[name].ingester && FINALIZER_INGESTER in t.finalizers)
    ensures Inv(s.(tenants := s.tenants[name := t]))
    ensures Inv(WriteTenant(s, name, t))
  {
    var written := s.(tenants := s.tenants[name := t]);
    forall k, x | Lists(written, k, x) ensures Owned(written, k, x) {
      assert Lists(s, k, x);
      assert Owned(s, k, x);
      var n :| Owns(s, n, k, x);
      assert Owns(written, n, k, x);
    }
    if t.deleting && t.finalizers == [] {
      TenantRemoved(s, name);
    }
  }

  lemma TenantRemoved(s: State, name: string)
    requires Inv(s) && name in s.tenants && Unlisted(s, Id(name, s.tenants[name]))
    ensures Inv(s.(tenants := s.tenants - {name}))
  {
    var s' := s.(tenants := s.tenants - {name});
    forall k, x | Lists(s', k, x) ensures Owned(s', k, x) {
      assert Lists(s, k, x);
      var n :| Owns(s, n, k, x);
      assert Owns(s', n, k, x);
    }
  }

  /** Every list of s' is a part of the same ingester's list in s. */
  ghost predicate ListsShrink(s: State, s': State) {
    && s'.tenants == s.tenants
    && forall k :: k in s'.ingesters ==>
         ListOk(k, s'.ingesters[k]) && forall x :: Lists(s', k, x) ==> Lists(s, k, x)
  }

  lemma ShrinkingKeeps(s: State, s': State)
    requires Inv(s) && ListsShrink(s, s')
    ensures Inv(s')
  {
    forall k, x | Lists(s', k, x) ensures Owned(s', k, x) {
      var n :| Owns(s, n, k, x);
      assert Owns(s', n, k, x);
    }
  }

  /** removeTenantFromIngesterbyName leaves the tenant listed nowhere when its status named the
      right ingester. */
  lemma DetachKeeps(s: State, name: string, k: Key, svc: Service)
    requires Inv(s) && name in s.tenants && s.tenants[name].ingester == Some(k)
    ensures var d := Detach(s, k, Id(name, s.tenants[name]), svc);
      Inv(d) && ListsShrink(s, d) && Unlisted(d, Id(name, s.tenants[name]))
  {
    var x := Id(name, s.tenants[name]);
    var d := Detach(s, k, x, svc);
    if Lists(s, k, x) {
      var ing := s.ingesters[k];
      WithoutMembers(ing.spec.tenants, x);
      WithoutNoDup(ing.spec.tenants, x);
      forall l, y | Lists(d, l, y) ensures Lists(s, l, y) && y != x {
        if y == x {
          ListedIsRecorded(s, name, l);
        }
      }
      assert ListOk(k, ing);
      ShrinkingKeeps(s, d);
    } else {
      UnrecordedIsUnlisted(s, name);
    }
  }

  /** Writing ingester k with a list made of its old entries and one unlisted tenant. */
  lemma PlacedKeeps(s: State, name: string, k: Key, ing: Ingester)
    requires Inv(s) && name in s.tenants && FINALIZER_INGESTER in s.tenants[name].finalizers
    requires forall l :: Lists(s, l, Id(name, s.tenants[name])) ==> l == k
    requires ListOk(k, ing)
    requires forall y :: y in ing.spec.tenants ==> y == Id(name, s.tenants[name]) || Lists(s, k, y)
    ensures Inv(SetIngesterRef(s.(ingesters := s.ingesters[k := ing]), name, Some(k)))
  {
    var s' := SetIngesterRef(s.(ingesters := s.ingesters[k := ing]), name, Some(k));
    forall l, y | Lists(s', l, y) ensures Owned(s', l, y) {
      if y == Id(name, s.tenants[name]) {
        assert l == k by {
          if l != k {
            assert Lists(s, l, y);
          }
        }
        assert Owns(s', name, k, y);
      } else {
        assert Lists(s, l, y);
        var n :| Owns(s, n, l, y);
        assert Owns(s', n, l, y);
      }
    }
  }

  // ----- the branches of a tenant reconcile -----

  lemma FinalizeKeeps(s: State, name: string, svc: Service)
    requires Inv(s) && name in s.tenants && ServiceKey(ServiceLabel(s.tenants[name])).Some?
    ensures Inv(Finalize(s, name, svc))
    ensures Unlisted(Finalize(s, name, svc), Id(name, s.tenants[name]))
  {
    var t := s.tenants[name];
    var x := Id(name, t);
    var detached := if t.ingester.Some? then Detach(s, t.ingester.value, x, svc) else s;
    if t.ingester.Some? {
      DetachKeeps(s, name, t.ingester.value, svc);
    } else {
      UnrecordedIsUnlisted(s, name);
    }
    var service := ServiceKey(ServiceLabel(t)).value;
    var cleaned := detached.(ingesters := DropFromStatuses(detached.ingesters, service, name));
    forall k | k in cleaned.ingesters ensures ListOk(k, cleaned.ingesters[k]) {
      assert ListOk(k, detached.ingesters[k]);
    }
    forall k, y | Lists(cleaned, k, y) ensures Lists(detached, k, y) {
    }
    ShrinkingKeeps(detached, cleaned);
    TenantWritten(cleaned, name,
      t.(finalizers := Without(t.finalizers, FINALIZER_INGESTER), tenantId := x));
    forall k ensures !Lists(Finalize(s, name, svc), k, x) {
      assert !Lists(detached, k, x);
    }
  }

  lemma EvictKeeps(s: State, name: string, svc: Service)
    requires Inv(s) && name in s.tenants && s.tenants[name].ingester.Some?
    ensures Inv(Evict(s, name, svc))
    ensures Unlisted(Evict(s, name, svc), Id(name, s.tenants[name]))
  {
    var t := s.tenants[name];
    DetachKeeps(s, name, t.ingester.value, svc);
    var d := Detach(s, t.ingester.value, Id(name, t), svc);
    TenantWritten(d, name, t.(ingester := None));
    forall k ensures !Lists(Evict(s, name, svc), k, Id(name, t)) {
      assert !Lists(d, k, Id(name, t));
    }
  }

  /** A tenant that needs no reset is listed by its recorded ingester, or by none at all. */
  lemma SettledListing(s: State, name: string, svc: Service, l: Key)
    requires Inv(s) && name in s.tenants && !NeedsReset(s, name, svc)
    requires Lists(s, l, Id(name, s.tenants[name]))
    ensures s.tenants[name].ingester == Some(l) && l.ns == GroupNs(GroupOf(svc, s.tenants[name]))
    ensures l in Members(s, GroupOf(svc, s.tenants[name]))
    ensures IsTrue(s.tenants[name].labels.exclusive) ==> l.name == name
  {
    ListedIsRecorded(s, name, l);
    assert ListOk(l, s.ingesters[l]);
  }

  lemma PlaceExclusiveKeeps(s: State, name: string, svc: Service)
    requires Inv(s) && name in s.tenants && FINALIZER_INGESTER in s.tenants[name].finalizers
    requires !NeedsReset(s, name, svc) && IsTrue(s.tenants[name].labels.exclusive)
    ensures Inv(PlaceExclusive(s, name, svc))
  {
    var t := s.tenants[name];
    var g := GroupOf(svc, t);
    var k := Key(GroupNs(g), name);
    forall l | Lists(s, l, Id(name, t)) ensures l == k {
      SettledListing(s, name, svc, l);
    }
    PlacedKeeps(s, name, k, Upsert(s.ingesters, k, NewIngester(g, Id(name, t), true))[k]);
  }

  lemma PlaceAtKeeps(s: State, name: string, svc: Service, i: nat)
    requires Inv(s) && name in s.tenants && FINALIZER_INGESTER in s.tenants[name].finalizers
    requires Unlisted(s, Id(name, s.tenants[name]))
    ensures Inv(PlaceAt(s, name, svc, i))
  {
    var t := s.tenants[name];
    var g := GroupOf(svc, t);
    var k := AutoKey(g, i);
    var x := Id(name, t);
    var desired := if k in Members(s, g) then WithTenant(s.ingesters[k], x) else NewIngester(g, x, false);
    if k in s.ingesters {
      assert ListOk(k, s.ingesters[k]) && !Lists(s, k, x);
    }
    PlacedKeeps(s, name, k, Upsert(s.ingesters, k, desired)[k]);
  }

  lemma PlaceSharedKeeps(s: State, name: string, svc: Service, s': State)
    requires Inv(s) && name in s.tenants && FINALIZER_INGESTER in s.tenants[name].finalizers
    requires !NeedsReset(s, name, svc) && !IsTrue(s.tenants[name].labels.exclusive)
    requires PlaceShared(s, name, svc, s')
    ensures Inv(s')
  {
    var t := s.tenants[name];
    var g := GroupOf(svc, t);
    var holders := Holders(s, g, Id(name, t));
    if holders != {} {
      var k :| k in holders && s' == SetIngesterRef(s, name, Some(k));
      SettledListing(s, name, svc, k);
      TenantWritten(s, name, t.(ingester := Some(k)));
    } else {
      assert forall l :: Lists(s, l, Id(name, t)) ==> l in holders by {
        forall l | Lists(s, l, Id(name, t)) ensures l in holders {
          SettledListing(s, name, svc, l);
        }
      }
      var i: nat :| LeastOpen(s, g, svc.limit, i) && s' == PlaceAt(s, name, svc, i);
      PlaceAtKeeps(s, name, svc, i);
    }
  }

  // ----- exactly when a reconcile keeps the invariant -----

  /** A Tenant object under deletion that already lost the ingester finalizer but lingers (some
      other finalizer holds it), with no ingester recorded. The reconcile falls through the
      deletion branch and places it again. */
  predicate WouldRevive(s: State, name: string) {
    && name in s.tenants
    && ServiceOf(s, s.tenants[name]).Some?
    && s.tenants[name].deleting
    && FINALIZER_INGESTER !in s.tenants[name].finalizers
    && s.tenants[name].ingester.None?
  }

  lemma ReconcileKeeps(s: State, name: string, s': State)
    requires Inv(s) && ReconcilesTenant(s, name, s') && !WouldRevive(s, name)
    ensures Inv(s')
  {
    if name in s.tenants && ServiceOf(s, s.tenants[name]).Some? {
      var t, svc := s.tenants[name], ServiceOf(s, s.tenants[name]).value;
      if !t.deleting && FINALIZER_INGESTER !in t.finalizers {
        assert Unlisted(s, Id(name, t)) by {
          forall k ensures !Lists(s, k, Id(name, t)) {
            if Lists(s, k, Id(name, t)) {
              ListedIsRecorded(s, name, k);
            }
          }
        }
        TenantWritten(s, name, t.(finalizers := t.finalizers + [FINALIZER_INGESTER], tenantId := Id(name, t)));
      } else if t.deleting && FINALIZER_INGESTER in t.finalizers {
        FinalizeKeeps(s, name, svc);
      } else if NeedsReset(s, name, svc) {
        EvictKeeps(s, name, svc);
      } else {
        assert FINALIZER_INGESTER in t.finalizers by {
          if FINALIZER_INGESTER !in t.finalizers {
            ListedIsRecorded(s, name, t.ingester.value);
          }
        }
        if IsTrue(t.labels.exclusive) {
          PlaceExclusiveKeeps(s, name, svc);
        } else {
          PlaceSharedKeeps(s, name, svc, s');
        }
      }
    }
  }

  /** Reviving a tenant lists it although nothing will take it off the list again. */
  lemma RevivedIsListed(s: State, name: string, s': State)
    requires Inv(s) && ReconcilesTenant(s, name, s') && WouldRevive(s, name)
    ensures name in s'.tenants && s'.tenants[name].ingester.Some?
    ensures s'.tenants[name] == s.tenants[name].(ingester := s'.tenants[name].ingester)
    ensures Lists(s', s'.tenants[name].ingester.value, Id(name, s'.tenants[name]))
  {
    var t, svc := s.tenants[name], ServiceOf(s, s.tenants[name]).value;
    UnrecordedIsUnlisted(s, name);
    if !IsTrue(t.labels.exclusive) {
      var g := GroupOf(svc, t);
      assert Holders(s, g, Id(name, t)) == {} by {
        if k :| k in Holders(s, g, Id(name, t)) {
          assert Lists(s, k, Id(name, t));
        }
      }
      var i: nat :| LeastOpen(s, g, svc.limit, i) && s' == PlaceAt(s, name, svc, i);
    }
  }

  /** A reconcile keeps the invariant exactly when it does not revive a lingering tenant. */
  lemma ReconcileKeepsIff(s: State, name: string, s': State)
    requires Inv(s) && ReconcilesTenant(s, name, s')
    ensures Inv(s') <==> !WouldRevive(s, name)
  {
    if WouldRevive(s, name) {
      RevivedIsListed(s, name, s');
      if Inv(s') {
        ListedIsRecorded(s', name, s'.tenants[name].ingester.value);
      }
    } else {
      ReconcileKeeps(s, name, s');
    }
  }

  /** What the broken invariant leads to: once the other finalizers go, the revived tenant's id
      stays on an ingester's list and no Tenant object has that id. */
  lemma RevivedTenantLeaks(s: State, name: string, s': State, s'': State)
    requires Inv(s) && WouldRevive(s, name) && ReconcilesTenant(s, name, s')
    requires Next(s', EditFinalizers(name, []), s'')
    ensures exists k :: Lists(s'', k, Id(name, s.tenants[name]))
    ensures forall n :: n in s''.tenants ==> Id(n, s''.tenants[n]) != Id(name, s.tenants[name])
  {
    RevivedIsListed(s, name, s');
    var x := Id(name, s.tenants[name]);
    assert Lists(s'', s'.tenants[name].ingester.value, x);
    forall n | n in s''.tenants ensures Id(n, s''.tenants[n]) != x {
      assert n in s.tenants && n != name;
      assert Id(n, s''.tenants[n]) == Id(n, s.tenants[n]);
    }
  }

  // ----- the other actions, and whole runs -----

  lemma AfterIngesterKeeps(s: State, k: Key)
    requires Inv(s)
    ensures Inv(AfterIngester(s, k))
  {
    var s' := AfterIngester(s, k);
    forall l | l in s'.ingesters ensures ListOk(l, s'.ingesters[l]) {
      assert ListOk(l, s.ingesters[l]);
    }
    ShrinkingKeeps(s, s');
  }

  lemma CreateKeeps(s: State, name: string, t: Tenant)
    requires Inv(s) && name !in s.tenants && FreshId(s, name, t)
    ensures Inv(s.(tenants := s.tenants[name := t]))
  {
    var s' := s.(tenants := s.tenants[name := t]);
    forall k, x | Lists(s', k, x) ensures Owned(s', k, x) {
      assert Lists(s, k, x);
      var n :| Owns(s, n, k, x);
      assert Owns(s', n, k, x);
    }
  }

  lemma OtherActionKeeps(s: State, a: Action, s': State)
    requires Inv(s) && Next(s, a, s') && !a.ReconcileTenant?
    ensures Inv(s')
  {
    match a
    case ReconcileIngester(k) => AfterIngesterKeeps(s, k);
    case CreateTenant(name, t) => CreateKeeps(s, name, t);
    case Relabel(name, labels) =>
      HeldUnlessUnlisted(s, name);
      TenantWritten(s, name, s.tenants[name].(labels := labels));
    case DeleteTenant(name) =>
      HeldUnlessUnlisted(s, name);
      if s.tenants[name].finalizers == [] {
        TenantRemoved(s, name);
      } else {
        TenantWritten(s, name, s.tenants[name].(deleting := true));
      }
    case EditFinalizers(name, fs) =>
      HeldUnlessUnlisted(s, name);
      TenantWritten(s, name, s.tenants[name].(finalizers := fs));
      TenantWritten(s, name, s.tenants[name].(finalizers := fs, tenantId := Id(name, s.tenants[name])));
    case EditIngester(k, _, _) =>
      assert ListOk(k, s.ingesters[k]);
      ShrinkingKeeps(s, s');
    case PutService(_, _) => ShrinkingKeeps(s, s');
    case Tick => ShrinkingKeeps(s, s');
  }

  lemma HeldUnlessUnlisted(s: State, name: string)
    requires Inv(s) && name in s.tenants
    ensures Unlisted(s, Id(name, s.tenants[name])) || FINALIZER_INGESTER in s.tenants[name].finalizers
  {
    if k :| Lists(s, k, Id(name, s.tenants[name])) {
      ListedIsRecorded(s, name, k);
    }
  }

  /** The run never reconciles a lingering, finalized tenant. */
  ghost predicate NeverRevives(run: seq<State>, acts: seq<Action>)
    requires |run| == |acts| + 1
  {
    forall i :: 0 <= i < |acts| && acts[i].ReconcileTenant? ==> !WouldRevive(run[i], acts[i].name)
  }

  /** Every state of every such run satisfies the invariant, whatever the interleaving of
      reconciles, relabelling, deletion, recycling, edits and time. */
  lemma {:induction false} RunsKeepInv(run: seq<State>, acts: seq<Action>, n: nat)
    requires IsRun(run, acts) && NeverRevives(run, acts) && n < |run|
    ensures Inv(run[n])
  {
    if n == 0 {
      forall k | k in run[0].ingesters ensures ListOk(k, run[0].ingesters[k]) {
      }
    } else {
      RunsKeepInv(run, acts, n - 1);
      assert Next(run[n - 1], acts[n - 1], run[n]);
      if acts[n - 1].ReconcileTenant? {
        ReconcileKeeps(run[n - 1], acts[n - 1].name, run[n]);
      } else {
        OtherActionKeeps(run[n - 1], acts[n - 1], run[n]);
      }
    }
  }

  // ----- the ingester finalizer is lost last -----

  /** No tenant under deletion has lost the ingester's finalizer. */
  predicate NoneLingers(s: State) {
    forall n :: n in s.tenants && s.tenants[n].deleting ==> FINALIZER_INGESTER in s.tenants[n].finalizers
  }

  lemma RunsWithoutLingering(run: seq<State>, acts: seq<Action>)
    requires IsRun(run, acts) && forall i :: 0 <= i < |run| ==> NoneLingers(run[i])
    ensures forall i :: 0 <= i < |run| ==> Inv(run[i])
  {
    forall i | 0 <= i < |acts| && acts[i].ReconcileTenant? ensures !WouldRevive(run[i], acts[i].name) {
      assert NoneLingers(run[i]);
    }
    forall i | 0 <= i < |run| ensures Inv(run[i]) {
      RunsKeepInv(run, acts, i);
    }
  }

  // ----- what a reconcile does to tenants, and deletion -----

  lemma SharedTouches(s: State, name: string, svc: Service, s': State)
    requires name in s.tenants && PlaceShared(s, name, svc, s')
    ensures name in s'.tenants && s'.services == s.services && s'.now == s.now
    ensures s'.tenants == s.tenants[name := s.tenants[name].(ingester := s'.tenants[name].ingester)]
  {
    var t := s.tenants[name];
    if Holders(s, GroupOf(svc, t), Id(name, t)) == {} {
      var i: nat :| LeastOpen(s, GroupOf(svc, t), svc.limit, i) && s' == PlaceAt(s, name, svc, i);
    }
  }

  /** What a tenant reconcile may change outside the ingesters: the one tenant's finalizers,
      stored id and reference. */
  lemma ReconcileTouches(s: State, name: string, s': State)
    requires ReconcilesTenant(s, name, s')
    ensures s'.services == s.services && s'.now == s.now
    ensures s'.tenants - {name} == s.tenants - {name}
    ensures name !in s.tenants ==> s' == s
    ensures name in s'.tenants ==>
              && name in s.tenants
              && s'.tenants[name].labels == s.tenants[name].labels
              && s'.tenants[name].deleting == s.tenants[name].deleting
              && Id(name, s'.tenants[name]) == Id(name, s.tenants[name])
  {
    if name in s.tenants && ServiceOf(s, s.tenants[name]).Some? {
      var t, svc := s.tenants[name], ServiceOf(s, s.tenants[name]).value;
      if !t.deleting && FINALIZER_INGESTER !in t.finalizers {
      } else if t.deleting && FINALIZER_INGESTER in t.finalizers {
      } else if NeedsReset(s, name, svc) {
      } else if IsTrue(t.labels.exclusive) {
      } else {
        SharedTouches(s, name, svc, s');
      }
    }
  }

  /** The finalizers a reconcile leaves on its tenant. */
  lemma ReconciledFinalizers(s: State, name: string, s': State)
    requires ReconcilesTenant(s, name, s') && name in s.tenants && name in s'.tenants
    ensures s'.tenants[name].finalizers in
      {s.tenants[name].finalizers, s.tenants[name].finalizers + [FINALIZER_INGESTER],
       Without(s.tenants[name].finalizers, FINALIZER_INGESTER)}
    ensures s.tenants[name].deleting && s.tenants[name].finalizers != [] ==> s'.tenants[name].finalizers != []
  {
    if ServiceOf(s, s.tenants[name]).Some? {
      var t, svc := s.tenants[name], ServiceOf(s, s.tenants[name]).value;
      if PlacesByIndex(s, name, svc) {
        var i: nat :| LeastOpen(s, GroupOf(svc, t), svc.limit, i) && s' == PlaceAt(s, name, svc, i);
      }
    }
  }

  /** Taking the ingester's finalizer away by hand, which no step here does, keeps the invariant exactly
      when no ingester lists the tenant. */
  lemma HandRemovalKeepsIff(s: State, name: string, finalizers: seq<string>)
    requires Inv(s) && name in s.tenants && FINALIZER_INGESTER !in finalizers
    ensures Inv(WriteTenant(s, name, s.tenants[name].(finalizers := finalizers))) <==> Unlisted(s, Id(name, s.tenants[name]))
  {
    var t := s.tenants[name].(finalizers := finalizers);
    var x, s' := Id(name, t), WriteTenant(s, name, t);
    if Unlisted(s, x) {
      TenantWritten(s, name, t);
    } else {
      var k :| Lists(s, k, x);
      assert Lists(s', k, x);
      forall n ensures !Owns(s', n, k, x) {
        if n != name && n in s'.tenants {
          assert s'.tenants[n] == s.tenants[n];
        }
      }
      assert !Owned(s', k, x);
    }
  }

  /** Deleting a tenant takes it off every list, and off the API when the ingester's finalizer
      was the last one. */
  lemma DeletionLeavesNoListing(s: State, name: string, s': State)
    requires Inv(s) && ReconcilesTenant(s, name, s') && name in s.tenants
    requires s.tenants[name].deleting && FINALIZER_INGESTER in s.tenants[name].finalizers
    ensures Unlisted(s', Id(name, s.tenants[name])) <==>
            ServiceOf(s, s.tenants[name]).Some? || Unlisted(s, Id(name, s.tenants[name]))
    ensures ServiceOf(s, s.tenants[name]).Some? ==>
              (name !in s'.tenants <==> Without(s.tenants[name].finalizers, FINALIZER_INGESTER) == [])
  {
    if ServiceOf(s, s.tenants[name]).Some? {
      FinalizeKeeps(s, name, ServiceOf(s, s.tenants[name]).value);
    }
  }
}
