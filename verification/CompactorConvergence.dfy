/** Every client settles after at most five productive reconciles of its own, whatever happens in
    between, where shared tenants cannot join exclusive compactors: the detour of the empty name is
    always repaired. Where they can, they never settle. */
module CompactorConvergence {
  import opened Text
  import opened Cluster
  import opened Compaction
  import C = Compaction
  import opened CompactionSafety
  import opened CompactionWitnesses

  // ----- what a reconcile does to other clients -----

  /** The entries of client n are the same, in compactors of the same labels, and so is n. */
  ghost predicate KeepsEntries(s: Compactors, s': Compactors, n: string) {
    && (forall k :: Lists(s', k, n) <==> Lists(s, k, n))
    && (forall k :: Lists(s, k, n) ==> s'.compactors[k].labels == s.compactors[k].labels)
    && (n in s'.clients <==> n in s.clients)
    && (n in s.clients ==> s'.clients[n] == s.clients[n])
    && s'.services == s.services
  }

  lemma DetachKeepsEntries(s: Compactors, k: Key, x: string, n: string)
    requires n != x
    ensures KeepsEntries(s, Detach(s, k, x), n)
  {
    DetachLists(s, k, x);
  }

  lemma SharedKeepsEntries(s: Compactors, name: string, svc: Service, s': Compactors, n: string)
    requires name in s.clients && PlaceShared(s, name, svc, s') && n != name
    ensures KeepsEntries(s, s', n)
  {
    var g := GroupFor(svc, s.clients[name].labels);
    if Holders(s, g, name) == {} {
      if Roomy(s, g, svc.compactorLimit) != {} {
        var k :| k in Roomy(s, g, svc.compactorLimit) && s' == AddTo(s, name, k);
      } else if |Split(g.storage, '.')| >= 2 {
        var k :| MayGenerate(s, g, k) && s' == Generate(s, name, g, k);
      }
    }
  }

  /** Only an exclusive placement touches the entries of other clients. */
  lemma OtherKeepsEntries(s: Compactors, name: string, s': Compactors, n: string)
    requires Reconciles(s, name, s') && n != name && !PlacesExclusively(s, name)
    ensures KeepsEntries(s, s', n)
  {
    if name in s.clients && ServiceFor(s, s.clients[name]).Some? {
      var t, svc := s.clients[name], ServiceFor(s, s.clients[name]).value;
      if !t.deleting && FINALIZER_COMPACTOR !in t.finalizers {
      } else if t.deleting && FINALIZER_COMPACTOR in t.finalizers {
        if t.compactor.Some? {
          DetachKeepsEntries(s, t.compactor.value, name, n);
        }
      } else if NeedsReset(s, name, svc) {
        DetachKeepsEntries(s, t.compactor.value, name, n);
      } else if GroupFor(svc, t.labels).storage != LOCAL_STORAGE {
        SharedKeepsEntries(s, name, svc, s', n);
      }
    }
  }

  /** A reconcile takes another tenant off a list exactly when it places its own exclusively in the
      compactor of that name. */
  lemma ReconcileDisplacesIff(s: Compactors, name: string, s': Compactors, k: Key, y: string)
    requires Reconciles(s, name, s') && Lists(s, k, y) && y != name
    ensures !Lists(s', k, y) <==> PlacesExclusively(s, name) && k == Key(GroupNs(GroupIn(s, name)), name)
  {
    if !PlacesExclusively(s, name) {
      OtherKeepsEntries(s, name, s', y);
    }
  }

  // ----- order -----

  function In(names: set<string>): string -> bool { x => x in names }

  /** A named compactor in the namespace of its service; an exclusive one lists the tenant it is named
      after and nobody else, and only such tenants are exclusive. */
  predicate InOrder(k: Key, c: Compactor, names: set<string>) {
    && k.name != "" && c.labels.service.Some? && k.ns == Split(c.labels.service.value, '.')[0]
    && (if IsTrue(c.labels.exclusive) then k.name in names && c.tenants == [k.name] else k.name !in names)
  }

  /** Shared client n cannot join an exclusive compactor, and none made for it is named like an
      exclusive tenant: the limit is one at most, or its group has neither exclusive tenants nor
      exclusive compactors. */
  predicate StaysApart(s: Compactors, names: set<string>, n: string)
    requires n in s.clients && ServiceFor(s, s.clients[n]).Some?
  {
    var svc, g := ServiceFor(s, s.clients[n]).value, GroupIn(s, n);
    && (svc.compactorLimit <= 1
        || ((forall e :: e in s.clients && e in names && ServiceFor(s, s.clients[e]).Some? ==> GroupIn(s, e) != g)
            && forall k :: k in s.compactors && C.InGroup(k, s.compactors[k], g) ==> !IsTrue(s.compactors[k].labels.exclusive)))
    && forall e :: e in names ==> !(GeneratePrefix(g) < e)
  }

  predicate MustStayApart(s: Compactors, names: set<string>, n: string) {
    n in s.clients && n !in names && ServiceFor(s, s.clients[n]).Some? && GroupIn(s, n).storage != LOCAL_STORAGE
  }

  /** names are the exclusive tenants. */
  ghost predicate Orderly(s: Compactors, names: set<string>) {
    && Good(s, In(names)) && "" !in names
    && (forall k :: k in s.compactors ==> InOrder(k, s.compactors[k], names))
    && forall n :: MustStayApart(s, names, n) ==> StaysApart(s, names, n)
  }

  lemma HoldersAreShared(s: Compactors, names: set<string>, g: Group, n: string, k: Key)
    requires Orderly(s, names) && n !in names && k in Holders(s, g, n)
    ensures !IsTrue(s.compactors[k].labels.exclusive)
  {
    assert InOrder(k, s.compactors[k], names);
  }

  lemma RoomyAreShared(s: Compactors, names: set<string>, n: string, k: Key)
    requires Orderly(s, names) && MustStayApart(s, names, n)
    requires k in Roomy(s, GroupIn(s, n), ServiceFor(s, s.clients[n]).value.compactorLimit)
    ensures !IsTrue(s.compactors[k].labels.exclusive)
  {
    assert StaysApart(s, names, n) && InOrder(k, s.compactors[k], names);
  }

  // ----- the measure -----

  /** Cleared and placed anew, cleared and recorded, placed, or recorded; an exclusive tenant is
      placed and recorded at once. */
  function PlaceRank(s: Compactors, name: string, svc: Service): nat
    requires name in s.clients
  {
    var t := s.clients[name];
    var g := GroupFor(svc, t.labels);
    var atOnce := IsTrue(t.labels.exclusive) || Holders(s, g, name) != {};
    if t.compactor.Some? then
      if !NeedsReset(s, name, svc) then 0 else if atOnce then 2 else 4
    else if g.storage == LOCAL_STORAGE then 0
    else if atOnce then 1 else 3
  }

  function Rank(s: Compactors, name: string): nat {
    if name !in s.clients || ServiceFor(s, s.clients[name]).None? then 0
    else
      var t, svc := s.clients[name], ServiceFor(s, s.clients[name]).value;
      if t.deleting && FINALIZER_COMPACTOR in t.finalizers then 5
      else (if !t.deleting && FINALIZER_COMPACTOR !in t.finalizers then 1 else 0) + PlaceRank(s, name, svc)
  }

  // ----- the client's own reconciles -----

  lemma ResetLowers(s: Compactors, names: set<string>, name: string, svc: Service)
    requires Orderly(s, names) && name in s.clients && NeedsReset(s, name, svc)
    ensures PlaceRank(SetRef(Detach(s, s.clients[name].compactor.value, name), name, None), name, svc) < PlaceRank(s, name, svc)
  {
    var t := s.clients[name];
    var k, g := t.compactor.value, GroupFor(svc, t.labels);
    var s' := SetRef(Detach(s, k, name), name, None);
    if !IsTrue(t.labels.exclusive) {
      if k in Holders(s, g, name) {
        HoldersAreShared(s, names, g, name, k);
      }
      assert k !in Holders(s, g, name);
      DetachLists(s, k, name);
      forall l ensures l in Holders(s', g, name) <==> l in Holders(s, g, name) {
        assert Lists(s', l, name) <==> Lists(Detach(s, k, name), l, name);
      }
      assert Holders(s', g, name) == Holders(s, g, name);
    }
  }

  lemma SharedLowers(s: Compactors, names: set<string>, name: string, svc: Service, s': Compactors)
    requires Orderly(s, names) && MustStayApart(s, names, name) && ServiceFor(s, s.clients[name]) == Some(svc)
    requires PlaceShared(s, name, svc, s') && !NeedsReset(s, name, svc)
    ensures name in s'.clients && s'.clients[name] == s.clients[name].(compactor := s'.clients[name].compactor)
    ensures s' == s || PlaceRank(s', name, svc) < PlaceRank(s, name, svc)
    ensures s' == s <==> (PlaceRank(s, name, svc) == 0 || HasNoPlace(s, name, svc, GroupIn(s, name)))
  {
    var t, g := s.clients[name], GroupIn(s, name);
    if t.compactor.Some? {
      RecordedStays(s, names, name, svc, s');
    } else if Holders(s, g, name) != {} {
      var k :| k in Holders(s, g, name) && s' == SetRef(s, name, Some(k));
      HoldersAreShared(s, names, g, name, k);
      assert !NeedsReset(s', name, svc);
    } else if Roomy(s, g, svc.compactorLimit) != {} {
      var k :| k in Roomy(s, g, svc.compactorLimit) && s' == AddTo(s, name, k);
      RoomyAreShared(s, names, name, k);
      assert !NeedsReset(s', name, svc);
    } else if |Split(g.storage, '.')| >= 2 {
      var k :| MayGenerate(s, g, k) && s' == Generate(s, name, g, k);
      assert k in Holders(s', g, name);
    }
  }

  /** A recorded tenant that needs no reset is listed where its status says, in its own group. */
  lemma RecordedHolds(s: Compactors, names: set<string>, name: string, svc: Service)
    requires Orderly(s, names) && name in s.clients && s.clients[name].compactor.Some? && !NeedsReset(s, name, svc)
    ensures var g := GroupFor(svc, s.clients[name].labels); Holders(s, g, name) == {s.clients[name].compactor.value}
  {
    var k, g := s.clients[name].compactor.value, GroupFor(svc, s.clients[name].labels);
    assert InOrder(k, s.compactors[k], names);
    assert k in Holders(s, g, name);
    forall l ensures l in Holders(s, g, name) <==> l in {k} {
    }
  }

  lemma RecordedStays(s: Compactors, names: set<string>, name: string, svc: Service, s': Compactors)
    requires Orderly(s, names) && name in s.clients && PlaceShared(s, name, svc, s')
    requires s.clients[name].compactor.Some? && !NeedsReset(s, name, svc)
    ensures s' == s && !HasNoPlace(s, name, svc, GroupFor(svc, s.clients[name].labels))
  {
    RecordedHolds(s, names, name, svc);
    assert s.clients[name := s.clients[name]] == s.clients;
  }

  lemma ExclusiveLowers(s: Compactors, names: set<string>, name: string, svc: Service)
    requires Orderly(s, names) && name in s.clients && IsTrue(s.clients[name].labels.exclusive)
    requires !NeedsReset(s, name, svc) && GroupFor(svc, s.clients[name].labels).storage != LOCAL_STORAGE
    ensures PlaceRank(PlaceExclusive(s, name, svc), name, svc) == 0
    ensures PlaceExclusive(s, name, svc) == s <==> PlaceRank(s, name, svc) == 0
  {
    var t := s.clients[name];
    var k := Key(GroupNs(GroupFor(svc, t.labels)), name);
    var p := PlaceExclusive(s, name, svc);
    assert p.clients[name].compactor == Some(k);
    if t.compactor.Some? {
      RecordedHolds(s, names, name, svc);
      assert InOrder(k, s.compactors[k], names);
      assert p.compactors[k] == s.compactors[k];
      assert p.compactors == s.compactors;
      assert p.clients == s.clients;
    }
  }

  lemma FinalizingLowers(s: Compactors, name: string, s': Compactors)
    requires Reconciles(s, name, s') && name in s.clients && ServiceFor(s, s.clients[name]).Some?
    requires s.clients[name].deleting && FINALIZER_COMPACTOR in s.clients[name].finalizers
    ensures Rank(s, name) == 5 && Rank(s', name) < 5 && s' != s
  {
    WithoutMembers(s.clients[name].finalizers, FINALIZER_COMPACTOR);
    assert name in s'.clients ==> FINALIZER_COMPACTOR !in s'.clients[name].finalizers;
  }

  lemma PlacingLowers(s: Compactors, names: set<string>, name: string, svc: Service, s': Compactors)
    requires Orderly(s, names) && Reconciles(s, name, s')
    requires name in s.clients && ServiceFor(s, s.clients[name]) == Some(svc)
    requires s.clients[name].deleting <==> FINALIZER_COMPACTOR !in s.clients[name].finalizers
    ensures s' == s <==> Rank(s, name) == 0 || Stuck(s, name)
    ensures s' == s || Rank(s', name) < Rank(s, name)
  {
    if NeedsReset(s, name, svc) {
      ResetLowers(s, names, name, svc);
      assert s'.clients[name].compactor.None?;
    } else if GroupFor(svc, s.clients[name].labels).storage != LOCAL_STORAGE {
      if IsTrue(s.clients[name].labels.exclusive) {
        ExclusiveLowers(s, names, name, svc);
      } else {
        SharedLowers(s, names, name, svc, s');
        assert s'.services == s.services;
      }
    }
  }

  lemma FinalizerOnlyChange(s: Compactors, name: string, t': Client, svc: Service)
    requires name in s.clients && t'.labels == s.clients[name].labels && t'.compactor == s.clients[name].compactor
    ensures PlaceRank(s.(clients := s.clients[name := t']), name, svc) == PlaceRank(s, name, svc)
  {
    var g := GroupFor(svc, t'.labels);
    assert Holders(s.(clients := s.clients[name := t']), g, name) == Holders(s, g, name);
  }

  /** Each productive reconcile of a client lowers its own rank; one that changes nothing found the
      client settled, or stuck. */
  lemma OwnReconcileLowers(s: Compactors, names: set<string>, name: string, s': Compactors)
    requires Orderly(s, names) && Reconciles(s, name, s')
    ensures s' == s <==> Rank(s, name) == 0 || Stuck(s, name)
    ensures s' == s || Rank(s', name) < Rank(s, name)
  {
    if name in s.clients && ServiceFor(s, s.clients[name]).Some? {
      var t, svc := s.clients[name], ServiceFor(s, s.clients[name]).value;
      if !t.deleting && FINALIZER_COMPACTOR !in t.finalizers {
        assert s'.clients[name].finalizers != t.finalizers;
        FinalizerOnlyChange(s, name, t.(finalizers := t.finalizers + [FINALIZER_COMPACTOR]), svc);
      } else if t.deleting && FINALIZER_COMPACTOR in t.finalizers {
        FinalizingLowers(s, name, s');
      } else {
        PlacingLowers(s, names, name, svc, s');
      }
    }
  }

  // ----- other clients' reconciles -----

  lemma ExclusiveKeepsEntries(s: Compactors, names: set<string>, name: string, s': Compactors, n: string)
    requires Orderly(s, names) && Reconciles(s, name, s') && n != name && PlacesExclusively(s, name)
    ensures KeepsEntries(s, s', n)
  {
    var k := Key(GroupNs(GroupIn(s, name)), name);
    assert k in s.compactors ==> InOrder(k, s.compactors[k], names);
  }

  lemma SameEntriesSameRank(s: Compactors, s': Compactors, n: string)
    requires KeepsEntries(s, s', n)
    ensures Rank(s', n) == Rank(s, n)
  {
    if n in s.clients && ServiceFor(s, s.clients[n]).Some? {
      var svc, g := ServiceFor(s, s.clients[n]).value, GroupIn(s, n);
      forall k ensures k in Holders(s', g, n) <==> k in Holders(s, g, n) {
        assert Lists(s', k, n) <==> Lists(s, k, n);
      }
      assert Holders(s', g, n) == Holders(s, g, n);
      if s.clients[n].compactor.Some? {
        var k := s.clients[n].compactor.value;
        assert Lists(s', k, n) <==> Lists(s, k, n);
        assert NeedsReset(s', n, svc) <==> NeedsReset(s, n, svc);
      }
    }
  }

  // ----- order is kept -----

  /** Clients keep their labels or vanish, and services stay. */
  ghost predicate KeepsLabels(s: Compactors, s': Compactors) {
    && s'.services == s.services
    && forall n :: n in s'.clients ==> n in s.clients && s'.clients[n].labels == s.clients[n].labels
  }

  /** What a reconcile of name leaves: clients with their labels, compactors in order, and exclusive
      ones only where they were or in the group of an exclusive tenant. */
  ghost predicate OrderAfter(s: Compactors, names: set<string>, name: string, s': Compactors) {
    && KeepsLabels(s, s')
    && forall k :: k in s'.compactors ==>
         && InOrder(k, s'.compactors[k], names)
         && (IsTrue(s'.compactors[k].labels.exclusive) ==> MayBeExclusive(s, names, name, s', k))
  }

  predicate MayBeExclusive(s: Compactors, names: set<string>, name: string, s': Compactors, k: Key)
    requires k in s'.compactors
  {
    || (k in s.compactors && s'.compactors[k].labels == s.compactors[k].labels)
    || (PlacesExclusively(s, name) && name in names && C.InGroup(k, s'.compactors[k], GroupIn(s, name)))
  }

  lemma AddKeepsOrder(s: Compactors, names: set<string>, name: string, k: Key)
    requires Orderly(s, names) && name in s.clients && k in s.compactors && !IsTrue(s.compactors[k].labels.exclusive)
    ensures OrderAfter(s, names, name, AddTo(s, name, k))
  {
    forall l | l in s.compactors ensures InOrder(l, s.compactors[l], names) {
    }
  }

  lemma GenerateKeepsOrder(s: Compactors, names: set<string>, name: string, g: Group, k: Key)
    requires Orderly(s, names) && name in s.clients && MayGenerate(s, g, k) && k.name !in names
    ensures OrderAfter(s, names, name, Generate(s, name, g, k))
  {
    var s' := Generate(s, name, g, k);
    assert InOrder(k, s'.compactors[k], names);
    forall l | l in s.compactors ensures InOrder(l, s.compactors[l], names) {
    }
  }

  lemma SharedKeepsOrder(s: Compactors, names: set<string>, name: string, svc: Service, s': Compactors)
    requires Orderly(s, names) && MustStayApart(s, names, name) && ServiceFor(s, s.clients[name]) == Some(svc)
    requires PlaceShared(s, name, svc, s')
    ensures OrderAfter(s, names, name, s')
  {
    var g := GroupIn(s, name);
    if Holders(s, g, name) == {} {
      if Roomy(s, g, svc.compactorLimit) != {} {
        var k :| k in Roomy(s, g, svc.compactorLimit) && s' == AddTo(s, name, k);
        RoomyAreShared(s, names, name, k);
        AddKeepsOrder(s, names, name, k);
      } else if |Split(g.storage, '.')| >= 2 {
        var k :| MayGenerate(s, g, k) && s' == Generate(s, name, g, k);
        assert StaysApart(s, names, name);
        GenerateKeepsOrder(s, names, name, g, k);
      }
    }
  }

  lemma DetachKeepsOrder(s: Compactors, names: set<string>, k: Key, name: string)
    requires Orderly(s, names)
    ensures OrderAfter(s, names, name, Detach(s, k, name))
  {
    if k in s.compactors {
      assert InOrder(k, s.compactors[k], names);
      assert Without([k.name], name) == if name == k.name then [] else [k.name];
    }
  }

  lemma ExclusiveKeepsOrder(s: Compactors, names: set<string>, name: string, svc: Service)
    requires Orderly(s, names) && PlacesExclusively(s, name) && ServiceFor(s, s.clients[name]) == Some(svc)
    ensures OrderAfter(s, names, name, PlaceExclusive(s, name, svc))
  {
    var k, p := Key(GroupNs(GroupIn(s, name)), name), PlaceExclusive(s, name, svc);
    assert k in s.compactors ==> InOrder(k, s.compactors[k], names);
    assert name in names;
    assert InOrder(k, p.compactors[k], names) && C.InGroup(k, p.compactors[k], GroupIn(s, name));
  }

  ghost predicate TenantPlaced(s: Compactors, name: string, svc: Service, s': Compactors)
    requires name in s.clients
  {
    if IsTrue(s.clients[name].labels.exclusive) then s' == PlaceExclusive(s, name, svc) else PlaceShared(s, name, svc, s')
  }

  lemma ReconcileKeepsOrder(s: Compactors, names: set<string>, name: string, s': Compactors)
    requires Orderly(s, names) && Reconciles(s, name, s')
    ensures OrderAfter(s, names, name, s')
  {
    if name in s.clients && ServiceFor(s, s.clients[name]).Some? {
      var t, svc := s.clients[name], ServiceFor(s, s.clients[name]).value;
      if IsPlaced(s, name) {
        assert TenantPlaced(s, name, svc, s');
        if IsTrue(t.labels.exclusive) {
          ExclusiveKeepsOrder(s, names, name, svc);
        } else {
          SharedKeepsOrder(s, names, name, svc, s');
        }
      } else {
        UnplacedWrites(s, name, s');
        if t.compactor.Some? {
          DetachKeepsOrder(s, names, t.compactor.value, name);
        }
        SameCompactorsSameOrder(s, names, name, s');
      }
    }
  }

  /** The other branches keep the compactors, or take the client off the one it records. */
  lemma UnplacedWrites(s: Compactors, name: string, s': Compactors)
    requires Reconciles(s, name, s') && !IsPlaced(s, name) && name in s.clients && ServiceFor(s, s.clients[name]).Some?
    ensures KeepsLabels(s, s')
    ensures s'.compactors == s.compactors ||
      (s.clients[name].compactor.Some? && s'.compactors == Detach(s, s.clients[name].compactor.value, name).compactors)
  {
  }

  lemma SameCompactorsSameOrder(s: Compactors, names: set<string>, name: string, s': Compactors)
    requires Orderly(s, names) && KeepsLabels(s, s')
    requires s'.compactors == s.compactors ||
      (name in s.clients && s.clients[name].compactor.Some?
       && s'.compactors == Detach(s, s.clients[name].compactor.value, name).compactors
       && OrderAfter(s, names, name, Detach(s, s.clients[name].compactor.value, name)))
    ensures OrderAfter(s, names, name, s')
  {
    if s'.compactors != s.compactors {
      var d := Detach(s, s.clients[name].compactor.value, name);
      forall k | k in s'.compactors
        ensures InOrder(k, s'.compactors[k], names)
        ensures IsTrue(s'.compactors[k].labels.exclusive) ==> MayBeExclusive(s, names, name, s', k)
      {
        assert k in d.compactors && (IsTrue(d.compactors[k].labels.exclusive) ==> MayBeExclusive(s, names, name, d, k));
      }
    }
  }

  lemma ReconcileStaysOrderly(s: Compactors, names: set<string>, name: string, s': Compactors)
    requires Orderly(s, names) && Reconciles(s, name, s')
    ensures Orderly(s', names)
  {
    ReconcileKeeps(s, name, s', In(names));
    ReconcileKeepsOrder(s, names, name, s');
    forall n | MustStayApart(s', names, n) ensures StaysApart(s', names, n) {
      StillApart(s, names, name, s', n);
    }
  }

  lemma StillApart(s: Compactors, names: set<string>, name: string, s': Compactors, n: string)
    requires Orderly(s, names) && OrderAfter(s, names, name, s') && MustStayApart(s', names, n)
    ensures StaysApart(s', names, n)
  {
    assert MustStayApart(s, names, n) && StaysApart(s, names, n);
    var g := GroupIn(s, n);
    assert GroupIn(s', n) == g;
    if ServiceFor(s, s.clients[n]).value.compactorLimit > 1 {
      forall e | e in s'.clients && e in names && ServiceFor(s', s'.clients[e]).Some? ensures GroupIn(s', e) != g {
        assert GroupIn(s', e) == GroupIn(s, e);
      }
      forall k | k in s'.compactors && C.InGroup(k, s'.compactors[k], g) ensures !IsTrue(s'.compactors[k].labels.exclusive) {
      }
    }
  }

  // ----- runs -----

  /** Any interleaving of the clients' reconciles. */
  ghost predicate IsReconcileRun(run: seq<Compactors>, order: seq<string>) {
    && |run| == |order| + 1
    && forall i :: 0 <= i < |order| ==> Reconciles(run[i], order[i], run[i + 1])
  }

  /** The number of reconciles of client n among the first m that changed something. */
  ghost function Productive(run: seq<Compactors>, order: seq<string>, n: string, m: nat): nat
    requires |run| == |order| + 1 && m <= |order|
  {
    if m == 0 then 0
    else Productive(run, order, n, m - 1) + if order[m - 1] == n && run[m] != run[m - 1] then 1 else 0
  }

  lemma StepLowers(s: Compactors, names: set<string>, name: string, s': Compactors, n: string)
    requires Orderly(s, names) && Reconciles(s, name, s')
    ensures Rank(s', n) + (if name == n && s' != s then 1 else 0) <= Rank(s, n)
  {
    if name == n {
      OwnReconcileLowers(s, names, n, s');
    } else {
      if PlacesExclusively(s, name) {
        ExclusiveKeepsEntries(s, names, name, s', n);
      } else {
        OtherKeepsEntries(s, name, s', n);
      }
      SameEntriesSameRank(s, s', n);
    }
  }

  lemma OrderlyStep(s: Compactors, names: set<string>, name: string, s': Compactors, n: string)
    requires Orderly(s, names) && Reconciles(s, name, s')
    ensures Orderly(s', names)
    ensures Rank(s', n) + (if name == n && s' != s then 1 else 0) <= Rank(s, n) <= 5
  {
    StepLowers(s, names, name, s', n);
    ReconcileStaysOrderly(s, names, name, s');
  }

  /** From an orderly state, under every interleaving: the productive reconciles of a client so far
      and its rank now never exceed the rank it started with, at most 5. */
  lemma {:induction false} ReconciliationTerminates(run: seq<Compactors>, order: seq<string>, names: set<string>, n: string, m: nat)
    requires IsReconcileRun(run, order) && Orderly(run[0], names) && m <= |order|
    ensures Orderly(run[m], names)
    ensures Productive(run, order, n, m) + Rank(run[m], n) <= Rank(run[0], n) <= 5
  {
    if m > 0 {
      ReconciliationTerminates(run, order, names, n, m - 1);
      assert Reconciles(run[m - 1], order[m - 1], run[m]);
      OrderlyStep(run[m - 1], names, order[m - 1], run[m], n);
    }
  }

  /** A settled live client is recorded with the one compactor of its group that lists it; an exclusive
      one has it for itself. */
  lemma SettledIsRecorded(s: Compactors, names: set<string>, n: string)
    requires Orderly(s, names) && n in s.clients && !s.clients[n].deleting
    requires ServiceFor(s, s.clients[n]).Some? && Rank(s, n) == 0 && GroupIn(s, n).storage != LOCAL_STORAGE
    ensures s.clients[n].compactor.Some? && Holders(s, GroupIn(s, n), n) == {s.clients[n].compactor.value}
    ensures n in names ==> s.clients[n].compactor.value.name == n && s.compactors[s.clients[n].compactor.value].tenants == [n]
    ensures n !in names ==> !IsTrue(s.compactors[s.clients[n].compactor.value].labels.exclusive)
  {
    RecordedHolds(s, names, n, ServiceFor(s, s.clients[n]).value);
    var k := s.clients[n].compactor.value;
    assert k in Holders(s, GroupIn(s, n), n) && InOrder(k, s.compactors[k], names);
  }

  // ----- exclusive compactors -----

  /** An exclusive tenant e and a shared tenant n of one group, both in the exclusive compactor of
      e, which has room for two. */
  ghost predicate SharesExclusive(s: Compactors, svc: Service, e: string, n: string) {
    && e != n && e in s.clients && n in s.clients
    && ServiceFor(s, s.clients[e]) == Some(svc) && ServiceFor(s, s.clients[n]) == Some(svc)
    && IsTrue(s.clients[e].labels.exclusive) && !IsTrue(s.clients[n].labels.exclusive)
    && !s.clients[e].deleting && FINALIZER_COMPACTOR in s.clients[e].finalizers
    && !s.clients[n].deleting && FINALIZER_COMPACTOR in s.clients[n].finalizers
    && var g := GroupFor(svc, s.clients[e].labels);
    && GroupFor(svc, s.clients[n].labels) == g && g.storage != LOCAL_STORAGE
    && var k := Key(GroupNs(g), e);
    && s.clients[e].compactor == Some(k) && s.clients[n].compactor == Some(k)
    && s.compactors == map[k := NewCompactor(g, e, true).(tenants := [e, n])]
    && svc.compactorLimit >= 2
  }

  /** The two never settle: reconciling e writes its compactor anew and throws n out; two reconciles
      of n bring it back. */
  lemma NeverSettles(s: Compactors, svc: Service, e: string, n: string) returns (s1: Compactors, s2: Compactors)
    requires SharesExclusive(s, svc, e, n)
    ensures Reconciles(s, e, s1) && Reconciles(s1, n, s2) && Reconciles(s2, n, s)
    ensures s != s1 && s1 != s2 && s2 != s
    ensures Holders(s1, GroupFor(svc, s.clients[n].labels), n) == {}
  {
    var g := GroupFor(svc, s.clients[e].labels);
    var k := Key(GroupNs(g), e);
    s1 := PlaceExclusive(s, e, svc);
    assert s1.compactors[k].tenants == [e];
    assert s1.clients == s.clients;
    assert s.compactors[k].tenants == [e, n];
    s2 := SetRef(Detach(s1, k, n), n, None);
    assert Without([e], n) == [e];
    assert s2.compactors == s1.compactors;
    assert Holders(s2, g, n) == {};
    assert k in Roomy(s2, g, svc.compactorLimit);
    var back := AddTo(s2, n, k);
    assert [e] + [n] == [e, n];
    assert back.compactors == s.compactors;
    assert back.clients == s.clients;
  }

  /** A run gets there: create and place e, then create and place n. */
  lemma NeverSettlesReached(service: Key, svc: Service, e: string, n: string, storage: string)
    returns (run: seq<Compactors>, acts: seq<Action>)
    requires '.' !in service.ns && '.' !in service.name && IsUsable(storage)
    requires e != n && svc.compactorLimit >= 2
    ensures IsRun(run, acts) && SharesExclusive(run[|acts|], svc, e, n)
  {
    run, acts := Introduced(service, svc, e, storage, true, []);
    var s := run[|acts|];
    assert [] + [FINALIZER_COMPACTOR] == [FINALIZER_COMPACTOR];
    ServiceIsFound(s, service, svc, e, storage, true);
    var p := PlaceExclusive(s, e, svc);
    run, acts := Advanced(run, acts, Reconcile(e), p);
    var c := NewClient(service, storage, false, []);
    var q := p.(clients := p.clients[n := c]);
    run, acts := Advanced(run, acts, Create(n, c), q);
    ServiceIsFound(q, service, svc, e, storage, true);
    ServiceIsFound(q, service, svc, n, storage, false);
    var r := SetFinalizers(q, n, [FINALIZER_COMPACTOR]);
    run, acts := Advanced(run, acts, Reconcile(n), r);
    var t := Joined(r, service, svc, e, n, storage);
    run, acts := Advanced(run, acts, Reconcile(n), t);
  }

  /** e in its exclusive compactor, n not placed yet. */
  ghost predicate BeforeJoining(s: Compactors, service: Key, e: string, n: string, g: Group) {
    && e != n && e in s.clients && n in s.clients
    && s.clients[e] == NewClient(service, g.storage, true, [FINALIZER_COMPACTOR]).(compactor := Some(Key(GroupNs(g), e)))
    && s.clients[n] == NewClient(service, g.storage, false, [FINALIZER_COMPACTOR])
    && s.compactors == map[Key(GroupNs(g), e) := NewCompactor(g, e, true)]
  }

  /** The shared tenant joins the exclusive compactor: the List call does not leave it out. */
  lemma Joined(s: Compactors, service: Key, svc: Service, e: string, n: string, storage: string) returns (s': Compactors)
    requires '.' !in service.ns && '.' !in service.name && s.services == map[service := svc]
    requires svc.compactorLimit >= 2 && IsUsable(storage)
    requires BeforeJoining(s, service, e, n, Group(service.ns + ['.'] + service.name, storage))
    ensures Reconciles(s, n, s') && SharesExclusive(s', svc, e, n)
  {
    var g := Group(service.ns + ['.'] + service.name, storage);
    var k := Key(GroupNs(g), e);
    ServiceIsFound(s, service, svc, n, storage, false);
    assert Holders(s, g, n) == {};
    assert k in Roomy(s, g, svc.compactorLimit);
    s' := AddTo(s, n, k);
    assert [e] + [n] == [e, n];
    ServiceIsFound(s', service, svc, e, storage, true);
    ServiceIsFound(s', service, svc, n, storage, false);
  }

  // ----- exactly when a group with both kinds settles -----

  /** An exclusive tenant e and a shared tenant n of one group, just created. */
  function Pair(service: Key, svc: Service, e: string, n: string, storage: string): Compactors {
    Compactors(map[e := NewClient(service, storage, true, []), n := NewClient(service, storage, false, [])],
               map[], map[service := svc])
  }

  ghost predicate AtMost(s: Compactors, n: string, bound: nat) {
    forall run, order :: IsReconcileRun(run, order) && run[0] == s ==> Productive(run, order, n, |order|) <= bound
  }

  /** Over all interleavings the number of productive reconciles of n is bounded. */
  ghost predicate Settles(s: Compactors, n: string) {
    exists bound: nat :: AtMost(s, n, bound)
  }

  lemma ReconcileRunExtended(run: seq<Compactors>, order: seq<string>, name: string, s': Compactors, n: string)
    requires IsReconcileRun(run, order) && Reconciles(run[|order|], name, s')
    ensures IsReconcileRun(run + [s'], order + [name])
    ensures Productive(run + [s'], order + [name], n, |order| + 1)
      == Productive(run, order, n, |order|) + if name == n && s' != run[|order|] then 1 else 0
  {
    var run', order' := run + [s'], order + [name];
    forall i | 0 <= i < |order'| ensures Reconciles(run'[i], order'[i], run'[i + 1]) {
      if i < |order| {
        assert Reconciles(run[i], order[i], run[i + 1]);
      }
    }
    ProductiveOfPrefix(run, order, s', name, n, |order|);
  }

  lemma {:induction false} ProductiveOfPrefix(run: seq<Compactors>, order: seq<string>, s': Compactors, name: string, n: string, m: nat)
    requires |run| == |order| + 1 && m <= |order|
    ensures Productive(run + [s'], order + [name], n, m) == Productive(run, order, n, m)
  {
    if m > 0 {
      ProductiveOfPrefix(run, order, s', name, n, m - 1);
    }
  }

  lemma RunExtended(run: seq<Compactors>, order: seq<string>, name: string, s': Compactors, n: string)
    returns (run': seq<Compactors>, order': seq<string>)
    requires IsReconcileRun(run, order) && Reconciles(run[|order|], name, s')
    ensures IsReconcileRun(run', order') && run'[0] == run[0] && run'[|order'|] == s'
    ensures Productive(run', order', n, |order'|)
      == Productive(run, order, n, |order|) + if name == n && s' != run[|order|] then 1 else 0
  {
    ReconcileRunExtended(run, order, name, s', n);
    run', order' := run + [s'], order + [name];
  }

  /** Any number of rounds from where the two share the exclusive compactor. */
  lemma {:induction false} Rounds(run: seq<Compactors>, order: seq<string>, svc: Service, e: string, n: string, count: nat)
    returns (run': seq<Compactors>, order': seq<string>)
    requires IsReconcileRun(run, order) && SharesExclusive(run[|order|], svc, e, n)
    ensures IsReconcileRun(run', order') && run'[0] == run[0] && run'[|order'|] == run[|order|]
    ensures Productive(run', order', n, |order'|) >= count
  {
    run', order' := run, order;
    if count > 0 {
      run', order' := Rounds(run, order, svc, e, n, count - 1);
      var s := run[|order|];
      var s1, s2 := NeverSettles(s, svc, e, n);
      run', order' := RunExtended(run', order', e, s1, n);
      run', order' := RunExtended(run', order', n, s2, n);
      run', order' := RunExtended(run', order', n, s, n);
    }
  }

  /** The first four reconciles: e is placed, and n joins it. */
  lemma PairJoins(service: Key, svc: Service, e: string, n: string, storage: string)
    returns (run: seq<Compactors>, order: seq<string>)
    requires '.' !in service.ns && '.' !in service.name && IsUsable(storage)
    requires e != n && svc.compactorLimit >= 2
    ensures IsReconcileRun(run, order) && run[0] == Pair(service, svc, e, n, storage)
    ensures SharesExclusive(run[|order|], svc, e, n)
  {
    var s0 := Pair(service, svc, e, n, storage);
    assert [] + [FINALIZER_COMPACTOR] == [FINALIZER_COMPACTOR];
    ServiceIsFound(s0, service, svc, e, storage, true);
    var s1 := SetFinalizers(s0, e, [FINALIZER_COMPACTOR]);
    run, order := RunExtended([s0], [], e, s1, n);
    ServiceIsFound(s1, service, svc, e, storage, true);
    var s2 := PlaceExclusive(s1, e, svc);
    run, order := RunExtended(run, order, e, s2, n);
    ServiceIsFound(s2, service, svc, n, storage, false);
    var s3 := SetFinalizers(s2, n, [FINALIZER_COMPACTOR]);
    run, order := RunExtended(run, order, n, s3, n);
    var s4 := Joined(s3, service, svc, e, n, storage);
    run, order := RunExtended(run, order, n, s4, n);
  }

  lemma PairIsOrderly(service: Key, svc: Service, e: string, n: string, storage: string)
    requires '.' !in service.ns && '.' !in service.name && IsUsable(storage)
    requires e != n && e != "" && svc.compactorLimit <= 1
    requires !(GeneratePrefix(Group(service.ns + ['.'] + service.name, storage)) < e)
    ensures Orderly(Pair(service, svc, e, n, storage), {e})
  {
    var s := Pair(service, svc, e, n, storage);
    ServiceIsFound(s, service, svc, n, storage, false);
    assert GroupIn(s, n) == Group(service.ns + ['.'] + service.name, storage);
    assert StaysApart(s, {e}, n);
  }

  /** With an exclusive and a shared tenant in one group, and e not named like a generated compactor,
      the reconciles of the shared one come to an end in all interleavings exactly when a compactor
      may list one tenant only. */
  lemma PairSettlesIff(service: Key, svc: Service, e: string, n: string, storage: string)
    requires '.' !in service.ns && '.' !in service.name && IsUsable(storage)
    requires e != n && e != "" && !(GeneratePrefix(Group(service.ns + ['.'] + service.name, storage)) < e)
    ensures Settles(Pair(service, svc, e, n, storage), n) <==> svc.compactorLimit <= 1
  {
    var s := Pair(service, svc, e, n, storage);
    if svc.compactorLimit <= 1 {
      PairIsOrderly(service, svc, e, n, storage);
      forall run, order | IsReconcileRun(run, order) && run[0] == s ensures Productive(run, order, n, |order|) <= 5 {
        ReconciliationTerminates(run, order, {e}, n, |order|);
      }
      assert AtMost(s, n, 5);
    } else {
      forall bound: nat ensures !AtMost(s, n, bound) {
        var run, order := PairJoins(service, svc, e, n, storage);
        run, order := Rounds(run, order, svc, e, n, bound + 1);
        assert IsReconcileRun(run, order) && run[0] == s && Productive(run, order, n, |order|) > bound;
      }
    }
  }
}
