/** With names that do not collide: ingesters keep their shape, every tenant settles after at
    most three productive reconciles of its own, and settled tenants sit where they should. */
module Convergence {
  import opened Text
  import opened Cluster
  import opened Allocation
  import opened AllocationSafety
  import opened Placement

  /** The groups, tenant names and hand-made ingesters a run works with. */
  datatype Universe = Universe(groups: set<Group>, names: set<string>, manual: set<Key>)

  /** Different groups differ in namespace or base, no tenant or hand-made ingester is named like an
      automatic one, and no hand-made ingester is named like a tenant. */
  predicate NoCollision(u: Universe) {
    && (forall g, h :: g in u.groups && h in u.groups && GroupNs(g) == GroupNs(h) && Base(g) == Base(h) ==> g == h)
    && (forall g, n :: g in u.groups && n in u.names ==> !NamedAuto(g, n))
    && (forall g, k :: g in u.groups && k in u.manual && k.ns == GroupNs(g) ==> !NamedAuto(g, k.name))
    && (forall k :: k in u.manual ==> k.name !in u.names)
  }

  /** Automatic names of different groups, tenant names and hand-made ingesters are apart. */
  ghost predicate NamesApart(u: Universe) {
    && (forall g, h, i: nat, j: nat :: g in u.groups && h in u.groups && AutoKey(g, i) == AutoKey(h, j) ==> g == h)
    && (forall g, i: nat :: g in u.groups ==> AutoKey(g, i).name !in u.names && AutoKey(g, i) !in u.manual)
    && (forall k :: k in u.manual ==> k.name !in u.names)
  }

  /** That is exactly what keeps all names apart, for all indices. */
  lemma NoCollisionIff(u: Universe)
    ensures NoCollision(u) <==> NamesApart(u)
  {
    if NoCollision(u) {
      ApartWithoutCollision(u);
    }
    if NamesApart(u) {
      NoCollisionWhenApart(u);
    }
  }

  lemma ApartWithoutCollision(u: Universe)
    requires NoCollision(u)
    ensures NamesApart(u)
  {
    forall g, h, i: nat, j: nat | g in u.groups && h in u.groups && AutoKey(g, i) == AutoKey(h, j) ensures g == h {
      AutoKeysMeetIff(g, i, h, j);
    }
    forall g, i: nat | g in u.groups ensures AutoKey(g, i).name !in u.names && AutoKey(g, i) !in u.manual {
      NamedAutoIff(g, AutoName(g, i));
    }
  }

  lemma NoCollisionWhenApart(u: Universe)
    requires NamesApart(u)
    ensures NoCollision(u)
  {
    forall g, h | g in u.groups && h in u.groups && GroupNs(g) == GroupNs(h) && Base(g) == Base(h) ensures g == h {
      AutoKeysMeetIff(g, 0, h, 0);
    }
    forall g, n | g in u.groups && n in u.names ensures !NamedAuto(g, n) {
      NamedAutoIff(g, n);
      forall i: nat ensures n != AutoName(g, i) {
        assert AutoKey(g, i).name !in u.names;
      }
    }
    forall g, k | g in u.groups && k in u.manual && k.ns == GroupNs(g) ensures !NamedAuto(g, k.name) {
      NamedAutoIff(g, k.name);
      forall i: nat ensures k.name != AutoName(g, i) {
        assert AutoKey(g, i) !in u.manual;
      }
    }
  }

  ghost predicate Within(s: State, u: Universe) {
    forall n :: n in s.tenants ==>
      && n in u.names
      && (ServiceOf(s, s.tenants[n]).Some? ==> GroupOf(ServiceOf(s, s.tenants[n]).value, s.tenants[n]) in u.groups)
  }

  function OwnGroup(ing: Ingester): Group {
    Group(OrEmpty(ing.labels.service), OrEmpty(ing.labels.storage))
  }

  ghost predicate IsShared(k: Key, ing: Ingester, u: Universe) {
    && OwnGroup(ing) in u.groups
    && InGroup(k, ing, OwnGroup(ing))
    && !IsTrue(ing.labels.exclusive)
    && exists i: nat :: k == AutoKey(OwnGroup(ing), i)
  }

  /** An exclusive ingester is named after a tenant and lists at most that tenant. */
  predicate IsOwnOf(s: State, k: Key, ing: Ingester, u: Universe) {
    && OwnGroup(ing) in u.groups
    && InGroup(k, ing, OwnGroup(ing))
    && IsTrue(ing.labels.exclusive)
    && k.name in u.names
    && forall x :: x in ing.spec.tenants ==> k.name in s.tenants && x == Id(k.name, s.tenants[k.name])
  }

  ghost predicate Shaped(s: State, k: Key, u: Universe)
    requires k in s.ingesters
  {
    || IsShared(k, s.ingesters[k], u)
    || IsOwnOf(s, k, s.ingesters[k], u)
    || (k in u.manual && s.ingesters[k].spec.tenants == [])
  }

  ghost predicate Shape(s: State, u: Universe) {
    forall k :: k in s.ingesters ==> Shaped(s, k, u)
  }

  // ----- writes keep the shape -----

  lemma SharedIsNotOwn(s: State, u: Universe, g: Group, i: nat)
    requires NoCollision(u) && Shape(s, u) && g in u.groups && AutoKey(g, i) in s.ingesters
    ensures IsShared(AutoKey(g, i), s.ingesters[AutoKey(g, i)], u)
    ensures OwnGroup(s.ingesters[AutoKey(g, i)]) == g && AutoKey(g, i) in Members(s, g)
  {
    NoCollisionIff(u);
    var k := AutoKey(g, i);
    assert Shaped(s, k, u);
    var h := OwnGroup(s.ingesters[k]);
    var j: nat :| k == AutoKey(h, j);
  }

  lemma OwnIsNotShared(s: State, u: Universe, k: Key)
    requires NoCollision(u) && Shape(s, u) && k.name in u.names && k in s.ingesters
    ensures IsOwnOf(s, k, s.ingesters[k], u)
  {
    NoCollisionIff(u);
    assert Shaped(s, k, u);
  }

  /** Ingesters with the same labels and no new entries keep their shape while the tenants that
      are still listed keep their ids. */
  ghost predicate NoNewEntries(s: State, s': State) {
    forall k :: k in s'.ingesters ==>
      && k in s.ingesters
      && s'.ingesters[k].labels == s.ingesters[k].labels
      && forall x :: x in s'.ingesters[k].spec.tenants ==> x in s.ingesters[k].spec.tenants
  }

  ghost predicate ListedKeepIds(s: State, s': State) {
    forall n :: n in s.tenants && !Unlisted(s', Id(n, s.tenants[n])) ==>
      n in s'.tenants && Id(n, s'.tenants[n]) == Id(n, s.tenants[n])
  }

  lemma ShapeWithoutNewEntries(s: State, s': State, u: Universe)
    requires Shape(s, u) && NoNewEntries(s, s') && ListedKeepIds(s, s')
    ensures Shape(s', u)
  {
    forall k | k in s'.ingesters ensures Shaped(s', k, u) {
      assert Shaped(s, k, u);
      if IsOwnOf(s, k, s.ingesters[k], u) {
        forall x | x in s'.ingesters[k].spec.tenants
          ensures k.name in s'.tenants && x == Id(k.name, s'.tenants[k.name])
        {
          assert Lists(s', k, x);
        }
      } else if s'.ingesters[k].spec.tenants != [] {
        assert s'.ingesters[k].spec.tenants[0] in s.ingesters[k].spec.tenants;
      }
    }
  }

  /** An Id-keeping write to the tenants and a new version of one ingester. */
  lemma ShapeWithOne(s: State, u: Universe, name: string, t: Tenant, k: Key, ing: Ingester)
    requires Shape(s, u) && name in s.tenants && Id(name, t) == Id(name, s.tenants[name])
    requires var s' := s.(tenants := s.tenants[name := t], ingesters := s.ingesters[k := ing]); Shaped(s', k, u)
    ensures Shape(s.(tenants := s.tenants[name := t], ingesters := s.ingesters[k := ing]), u)
  {
    var s' := s.(tenants := s.tenants[name := t], ingesters := s.ingesters[k := ing]);
    forall l | l in s'.ingesters ensures Shaped(s', l, u) {
      if l != k {
        assert Shaped(s, l, u);
      }
    }
  }

  lemma DetachNoNewEntries(s: State, k: Key, x: string, svc: Service)
    ensures NoNewEntries(s, Detach(s, k, x, svc))
  {
    if k in s.ingesters {
      WithoutMembers(s.ingesters[k].spec.tenants, x);
    }
  }

  lemma PlaceAtShape(s: State, u: Universe, name: string, svc: Service, i: nat)
    requires NoCollision(u) && Shape(s, u) && name in s.tenants && GroupOf(svc, s.tenants[name]) in u.groups
    ensures Shape(PlaceAt(s, name, svc, i), u)
    ensures var k := AutoKey(GroupOf(svc, s.tenants[name]), i); var p := PlaceAt(s, name, svc, i);
      IsShared(k, p.ingesters[k], u) && InGroup(k, p.ingesters[k], GroupOf(svc, s.tenants[name]))
  {
    var t := s.tenants[name];
    var g := GroupOf(svc, t);
    var k := AutoKey(g, i);
    if k in s.ingesters {
      SharedIsNotOwn(s, u, g, i);
    }
    var p := PlaceAt(s, name, svc, i);
    assert k == AutoKey(OwnGroup(p.ingesters[k]), i);
    ShapeWithOne(s, u, name, t.(ingester := Some(k)), k, p.ingesters[k]);
  }

  lemma PlaceExclusiveShape(s: State, u: Universe, name: string, svc: Service)
    requires NoCollision(u) && Shape(s, u) && name in s.tenants && name in u.names
    requires GroupOf(svc, s.tenants[name]) in u.groups
    ensures Shape(PlaceExclusive(s, name, svc), u)
  {
    var t := s.tenants[name];
    var g := GroupOf(svc, t);
    var k := Key(GroupNs(g), name);
    var p := PlaceExclusive(s, name, svc);
    assert OwnGroup(p.ingesters[k]) == g;
    ShapeWithOne(s, u, name, t.(ingester := Some(k)), k, p.ingesters[k]);
  }

  lemma FinalizeNoNewEntries(s: State, name: string, svc: Service)
    requires name in s.tenants && ServiceKey(ServiceLabel(s.tenants[name])).Some?
    ensures NoNewEntries(s, Finalize(s, name, svc))
  {
    var t := s.tenants[name];
    var detached := if t.ingester.Some? then Detach(s, t.ingester.value, Id(name, t), svc) else s;
    if t.ingester.Some? {
      DetachNoNewEntries(s, t.ingester.value, Id(name, t), svc);
    }
    var f := Finalize(s, name, svc);
    assert NoNewEntries(s, detached);
    assert f.ingesters == DropFromStatuses(detached.ingesters, ServiceKey(ServiceLabel(t)).value, name);
    forall k | k in f.ingesters
      ensures k in detached.ingesters && f.ingesters[k].labels == detached.ingesters[k].labels
      ensures f.ingesters[k].spec == detached.ingesters[k].spec
    {
    }
  }

  lemma FinalizeKeepsIds(s: State, name: string, svc: Service)
    requires name in s.tenants && ServiceKey(ServiceLabel(s.tenants[name])).Some?
    requires Unlisted(Finalize(s, name, svc), Id(name, s.tenants[name]))
    ensures ListedKeepIds(s, Finalize(s, name, svc))
  {
    var f := Finalize(s, name, svc);
    forall n | n in s.tenants && n != name ensures n in f.tenants && f.tenants[n] == s.tenants[n] {
    }
  }

  lemma FinalizeShape(s: State, u: Universe, name: string, svc: Service)
    requires Shape(s, u) && Inv(s) && name in s.tenants && ServiceKey(ServiceLabel(s.tenants[name])).Some?
    ensures Shape(Finalize(s, name, svc), u)
  {
    FinalizeNoNewEntries(s, name, svc);
    FinalizeKeeps(s, name, svc);
    FinalizeKeepsIds(s, name, svc);
    ShapeWithoutNewEntries(s, Finalize(s, name, svc), u);
  }

  lemma EvictShape(s: State, u: Universe, name: string, svc: Service)
    requires Shape(s, u) && name in s.tenants && s.tenants[name].ingester.Some?
    ensures Shape(Evict(s, name, svc), u)
  {
    DetachNoNewEntries(s, s.tenants[name].ingester.value, Id(name, s.tenants[name]), svc);
    ShapeWithoutNewEntries(s, Evict(s, name, svc), u);
  }

  lemma PlaceSharedShape(s: State, u: Universe, name: string, svc: Service, s': State)
    requires NoCollision(u) && Shape(s, u) && name in s.tenants && GroupOf(svc, s.tenants[name]) in u.groups
    requires PlaceShared(s, name, svc, s')
    ensures Shape(s', u)
  {
    var t := s.tenants[name];
    if Holders(s, GroupOf(svc, t), Id(name, t)) == {} {
      var i: nat :| LeastOpen(s, GroupOf(svc, t), svc.limit, i) && s' == PlaceAt(s, name, svc, i);
      PlaceAtShape(s, u, name, svc, i);
    } else {
      ShapeWithoutNewEntries(s, s', u);
    }
  }

  lemma TenantStepShape(s: State, u: Universe, name: string, s': State)
    requires NoCollision(u) && Shape(s, u) && Within(s, u) && Inv(s) && ReconcilesTenant(s, name, s')
    ensures Shape(s', u)
  {
    if name in s.tenants && ServiceOf(s, s.tenants[name]).Some? {
      var t, svc := s.tenants[name], ServiceOf(s, s.tenants[name]).value;
      if !t.deleting && FINALIZER_INGESTER !in t.finalizers {
        ShapeWithoutNewEntries(s, s', u);
      } else if t.deleting && FINALIZER_INGESTER in t.finalizers {
        FinalizeShape(s, u, name, svc);
      } else if NeedsReset(s, name, svc) {
        EvictShape(s, u, name, svc);
      } else if IsTrue(t.labels.exclusive) {
        PlaceExclusiveShape(s, u, name, svc);
      } else {
        PlaceSharedShape(s, u, name, svc, s');
      }
    }
  }

  lemma StepShape(s: State, u: Universe, a: Action, s': State)
    requires NoCollision(u) && Shape(s, u) && Within(s, u) && Inv(s) && Next(s, a, s')
    ensures Shape(s', u)
  {
    if a.ReconcileTenant? {
      TenantStepShape(s, u, a.name, s');
    } else {
      OtherActionNoNewEntries(s, a, s');
      OtherActionKeepsIds(s, a, s');
      ShapeWithoutNewEntries(s, s', u);
    }
  }

  lemma OtherActionNoNewEntries(s: State, a: Action, s': State)
    requires Next(s, a, s') && !a.ReconcileTenant?
    ensures NoNewEntries(s, s')
  {
  }

  lemma OtherActionKeepsIds(s: State, a: Action, s': State)
    requires Inv(s) && Next(s, a, s') && !a.ReconcileTenant? && NoNewEntries(s, s')
    ensures ListedKeepIds(s, s')
  {
    forall n | n in s.tenants && !Unlisted(s', Id(n, s.tenants[n]))
      ensures n in s'.tenants && Id(n, s'.tenants[n]) == Id(n, s.tenants[n])
    {
      var k :| Lists(s', k, Id(n, s.tenants[n]));
      assert Lists(s, k, Id(n, s.tenants[n]));
      ListedIsRecorded(s, n, k);
      HeldStays(s, a, s', n);
    }
  }

  lemma HeldStays(s: State, a: Action, s': State, n: string)
    requires Next(s, a, s') && !a.ReconcileTenant?
    requires n in s.tenants && FINALIZER_INGESTER in s.tenants[n].finalizers
    ensures n in s'.tenants && Id(n, s'.tenants[n]) == Id(n, s.tenants[n])
  {
  }

  ghost predicate RunWithin(run: seq<State>, acts: seq<Action>, u: Universe) {
    && IsRun(run, acts) && NeverRevives(run, acts) && NoCollision(u)
    && (forall k :: k in run[0].ingesters ==> k in u.manual)
    && forall i :: 0 <= i < |run| ==> Within(run[i], u)
  }

  /** In every collision-free run, exclusive ingesters list at most their own tenant and shared
      ones carry the automatic name of the group in their labels. */
  lemma {:induction false} RunsKeepShape(run: seq<State>, acts: seq<Action>, u: Universe, n: nat)
    requires RunWithin(run, acts, u) && n < |run|
    ensures Inv(run[n]) && Shape(run[n], u)
  {
    RunsKeepInv(run, acts, n);
    if n > 0 {
      RunsKeepShape(run, acts, u, n - 1);
      assert Next(run[n - 1], acts[n - 1], run[n]);
      assert Within(run[n - 1], u);
      StepShape(run[n - 1], u, acts[n - 1], run[n]);
    }
  }

  // ----- the measure -----

  /** How far the placement of a tenant is from settled. The last case is an exclusive ingester
      whose spec was edited by hand: the next reconcile writes it anew. */
  function PlaceRank(s: State, name: string, svc: Service): nat
    requires name in s.tenants
  {
    var t := s.tenants[name];
    if NeedsReset(s, name, svc) then 2
    else if t.ingester.None? then 1
    else if IsTrue(t.labels.exclusive)
         && s.ingesters[t.ingester.value].spec != IngesterSpec([Id(name, t)], None, None) then 1
    else 0
  }

  function Rank(s: State, name: string): nat {
    if name !in s.tenants || ServiceOf(s, s.tenants[name]).None? then 0
    else
      var t, svc := s.tenants[name], ServiceOf(s, s.tenants[name]).value;
      if t.deleting && FINALIZER_INGESTER in t.finalizers then 3
      else (if !t.deleting && FINALIZER_INGESTER !in t.finalizers then 1 else 0) + PlaceRank(s, name, svc)
  }

  ghost predicate Good(s: State, u: Universe) {
    NoCollision(u) && Shape(s, u) && Within(s, u) && Inv(s)
  }

  lemma ExclusiveSettles(s: State, name: string, svc: Service)
    requires Inv(s) && name in s.tenants && !NeedsReset(s, name, svc) && IsTrue(s.tenants[name].labels.exclusive)
    ensures PlaceRank(PlaceExclusive(s, name, svc), name, svc) == 0
    ensures PlaceRank(s, name, svc) == 0 <==> PlaceExclusive(s, name, svc) == s
  {
    var t := s.tenants[name];
    var p := PlaceExclusive(s, name, svc);
    var g := GroupOf(svc, t);
    var k := Key(GroupNs(g), name);
    assert p.tenants[name].ingester == Some(k);
    assert k in p.ingesters && p.ingesters[k].spec == IngesterSpec([Id(name, t)], None, None);
    if t.ingester.Some? {
      SettledListing(s, name, svc, t.ingester.value);
      assert t.ingester == Some(k);
      if PlaceRank(s, name, svc) == 0 {
        assert p.ingesters[k] == s.ingesters[k];
        assert p.ingesters == s.ingesters;
        assert p.tenants[name] == t;
        assert p.tenants == s.tenants;
      }
    }
  }

  lemma SharedStays(s: State, name: string, svc: Service, s': State)
    requires Inv(s) && name in s.tenants && s.tenants[name].ingester.Some?
    requires !NeedsReset(s, name, svc) && PlaceShared(s, name, svc, s')
    ensures s' == s
  {
    var t := s.tenants[name];
    var g := GroupOf(svc, t);
    SettledListing(s, name, svc, t.ingester.value);
    assert t.ingester.value in Holders(s, g, Id(name, t));
    forall k | k in Holders(s, g, Id(name, t)) ensures k == t.ingester.value {
      ListedOnce(s, k, t.ingester.value, Id(name, t));
    }
    assert s' == SetIngesterRef(s, name, t.ingester);
    assert s.tenants[name := t] == s.tenants;
  }

  lemma SharedArrives(s: State, u: Universe, name: string, svc: Service, s': State)
    requires Good(s, u) && name in s.tenants && ServiceOf(s, s.tenants[name]) == Some(svc)
    requires s.tenants[name].ingester.None? && !IsTrue(s.tenants[name].labels.exclusive)
    requires PlaceShared(s, name, svc, s')
    ensures s' != s && PlaceRank(s', name, svc) == 0
  {
    var t := s.tenants[name];
    var g := GroupOf(svc, t);
    UnrecordedIsUnlisted(s, name);
    assert Holders(s, g, Id(name, t)) == {} by {
      if k :| k in Holders(s, g, Id(name, t)) {
        assert Lists(s, k, Id(name, t));
      }
    }
    var i: nat :| LeastOpen(s, g, svc.limit, i) && s' == PlaceAt(s, name, svc, i);
    PlaceAtShape(s, u, name, svc, i);
    PlacedNeedsNoReset(s, name, svc, i);
  }

  lemma PlacedNeedsNoReset(s: State, name: string, svc: Service, i: nat)
    requires name in s.tenants && !IsTrue(s.tenants[name].labels.exclusive)
    requires var g := GroupOf(svc, s.tenants[name]); var p := PlaceAt(s, name, svc, i);
      InGroup(AutoKey(g, i), p.ingesters[AutoKey(g, i)], g) && !IsTrue(p.ingesters[AutoKey(g, i)].labels.exclusive)
    ensures PlaceRank(PlaceAt(s, name, svc, i), name, svc) == 0
    ensures PlaceAt(s, name, svc, i).tenants[name].ingester.Some?
  {
  }

  /** Each productive reconcile of a tenant lowers its own rank, and rank zero is exactly the
      fixpoint. */
  lemma OwnReconcileLowers(s: State, u: Universe, name: string, s': State)
    requires Good(s, u) && ReconcilesTenant(s, name, s')
    ensures Rank(s, name) == 0 <==> s' == s
    ensures s' == s || Rank(s', name) < Rank(s, name)
  {
    if name in s.tenants && ServiceOf(s, s.tenants[name]).Some? {
      var t, svc := s.tenants[name], ServiceOf(s, s.tenants[name]).value;
      if !t.deleting && FINALIZER_INGESTER !in t.finalizers {
        assert s'.tenants[name].finalizers != t.finalizers;
        FinalizerOnlyChange(s, name, s'.tenants[name], svc);
      } else if t.deleting && FINALIZER_INGESTER in t.finalizers {
        WithoutMembers(t.finalizers, FINALIZER_INGESTER);
        if name in s'.tenants {
          assert FINALIZER_INGESTER !in s'.tenants[name].finalizers;
        }
      } else if NeedsReset(s, name, svc) {
        assert s'.tenants[name].ingester.None?;
      } else if IsTrue(t.labels.exclusive) {
        ExclusiveSettles(s, name, svc);
      } else {
        if t.ingester.Some? {
          SharedStays(s, name, svc, s');
        } else {
          SharedArrives(s, u, name, svc, s');
          SharedTouches(s, name, svc, s');
        }
      }
    }
  }

  lemma FinalizerOnlyChange(s: State, name: string, t': Tenant, svc: Service)
    requires name in s.tenants && Id(name, t') == Id(name, s.tenants[name])
    requires t'.labels == s.tenants[name].labels && t'.ingester == s.tenants[name].ingester
    ensures PlaceRank(s.(tenants := s.tenants[name := t']), name, svc) == PlaceRank(s, name, svc)
  {
  }

  // ----- other reconciles do not undo it -----

  /** The recorded ingester of a placed tenant still lists it, under the same labels; an
      exclusive one is not touched at all. */
  ghost predicate StaysPut(s: State, s': State, n: string)
    requires n in s.tenants
  {
    var t := s.tenants[n];
    t.ingester.Some? && Lists(s, t.ingester.value, Id(n, t)) ==>
      var k := t.ingester.value;
      && Lists(s', k, Id(n, t))
      && s'.ingesters[k].labels == s.ingesters[k].labels
      && (k.name == n && IsTrue(s.ingesters[k].labels.exclusive) ==> s'.ingesters[k].spec == s.ingesters[k].spec)
  }

  lemma StayingPutKeepsRank(s: State, s': State, n: string)
    requires n in s.tenants && n in s'.tenants && s'.tenants[n] == s.tenants[n] && s'.services == s.services
    requires StaysPut(s, s', n)
    ensures Rank(s', n) <= Rank(s, n)
  {
  }

  lemma DetachLetsStay(s: State, u: Universe, name: string, k: Key, svc: Service, n: string)
    requires Good(s, u) && name in s.tenants && n in s.tenants && n != name
    ensures StaysPut(s, Detach(s, k, Id(name, s.tenants[name]), svc), n)
  {
    var x := Id(name, s.tenants[name]);
    if k in s.ingesters {
      WithoutMembers(s.ingesters[k].spec.tenants, x);
      if k.name == n && IsTrue(s.ingesters[k].labels.exclusive) {
        assert Shaped(s, k, u);
        assert Id(n, s.tenants[n]) != x;
      }
    }
  }

  lemma PlaceAtLetsStay(s: State, u: Universe, name: string, svc: Service, i: nat, n: string)
    requires Good(s, u) && name in s.tenants && ServiceOf(s, s.tenants[name]) == Some(svc)
    requires n in s.tenants && n != name
    ensures StaysPut(s, PlaceAt(s, name, svc, i), n)
  {
    var g := GroupOf(svc, s.tenants[name]);
    if AutoKey(g, i) in s.ingesters {
      SharedIsNotOwn(s, u, g, i);
    }
  }

  lemma PlaceExclusiveLetsStay(s: State, u: Universe, name: string, svc: Service, n: string)
    requires Good(s, u) && name in s.tenants && ServiceOf(s, s.tenants[name]) == Some(svc)
    requires n in s.tenants && n != name
    ensures StaysPut(s, PlaceExclusive(s, name, svc), n)
  {
    var k := Key(GroupNs(GroupOf(svc, s.tenants[name])), name);
    if k in s.ingesters {
      OwnIsNotShared(s, u, k);
      assert Id(n, s.tenants[n]) != Id(name, s.tenants[name]);
      assert !Lists(s, k, Id(n, s.tenants[n]));
    }
  }

  lemma ReconcileLetsStay(s: State, u: Universe, name: string, s': State, n: string)
    requires Good(s, u) && ReconcilesTenant(s, name, s') && n in s.tenants && n != name
    ensures StaysPut(s, s', n)
  {
    if name in s.tenants && ServiceOf(s, s.tenants[name]).Some? {
      var t, svc := s.tenants[name], ServiceOf(s, s.tenants[name]).value;
      if !t.deleting && FINALIZER_INGESTER !in t.finalizers {
      } else if t.deleting && FINALIZER_INGESTER in t.finalizers {
        FinalizeLetsStay(s, u, name, svc, n);
      } else if NeedsReset(s, name, svc) {
        EvictLetsStay(s, u, name, svc, n);
      } else if IsTrue(t.labels.exclusive) {
        PlaceExclusiveLetsStay(s, u, name, svc, n);
      } else {
        PlaceSharedLetsStay(s, u, name, svc, s', n);
      }
    }
  }

  lemma FinalizeLetsStay(s: State, u: Universe, name: string, svc: Service, n: string)
    requires Good(s, u) && name in s.tenants && n in s.tenants && n != name
    requires ServiceKey(ServiceLabel(s.tenants[name])).Some?
    ensures StaysPut(s, Finalize(s, name, svc), n)
  {
    var t := s.tenants[name];
    var detached := if t.ingester.Some? then Detach(s, t.ingester.value, Id(name, t), svc) else s;
    if t.ingester.Some? {
      DetachLetsStay(s, u, name, t.ingester.value, svc, n);
    }
    assert StaysPut(s, detached, n);
    DropKeepsSpecs(detached.ingesters, ServiceKey(ServiceLabel(t)).value, name);
  }

  lemma DropKeepsSpecs(ingesters: map<Key, Ingester>, k: Key, name: string)
    ensures DropFromStatuses(ingesters, k, name).Keys == ingesters.Keys
    ensures forall l :: l in ingesters ==>
      && DropFromStatuses(ingesters, k, name)[l].spec == ingesters[l].spec
      && DropFromStatuses(ingesters, k, name)[l].labels == ingesters[l].labels
  {
  }

  lemma EvictLetsStay(s: State, u: Universe, name: string, svc: Service, n: string)
    requires Good(s, u) && name in s.tenants && n in s.tenants && n != name && s.tenants[name].ingester.Some?
    ensures StaysPut(s, Evict(s, name, svc), n)
  {
    DetachLetsStay(s, u, name, s.tenants[name].ingester.value, svc, n);
  }

  lemma PlaceSharedLetsStay(s: State, u: Universe, name: string, svc: Service, s': State, n: string)
    requires Good(s, u) && name in s.tenants && ServiceOf(s, s.tenants[name]) == Some(svc)
    requires n in s.tenants && n != name && PlaceShared(s, name, svc, s')
    ensures StaysPut(s, s', n)
  {
    var t := s.tenants[name];
    if Holders(s, GroupOf(svc, t), Id(name, t)) == {} {
      var i: nat :| LeastOpen(s, GroupOf(svc, t), svc.limit, i) && s' == PlaceAt(s, name, svc, i);
      PlaceAtLetsStay(s, u, name, svc, i, n);
    }
  }

  lemma OtherReconcileKeepsRank(s: State, u: Universe, name: string, s': State, n: string)
    requires Good(s, u) && ReconcilesTenant(s, name, s') && n != name
    ensures Rank(s', n) <= Rank(s, n)
  {
    ReconcileTouches(s, name, s');
    assert n in s'.tenants - {name} <==> n in s.tenants - {name};
    if n in s.tenants {
      assert (s.tenants - {name})[n] == s.tenants[n];
      ReconcileLetsStay(s, u, name, s', n);
      StayingPutKeepsRank(s, s', n);
    }
  }

  predicate IsControllerAction(a: Action) { a.ReconcileTenant? || a.ReconcileIngester? || a.Tick? }

  /** Recycling, status writes and the clock leave every rank alone. */
  lemma QuietActionKeepsRank(s: State, a: Action, s': State, n: string)
    requires Next(s, a, s') && (a.ReconcileIngester? || a.Tick?)
    ensures Rank(s', n) <= Rank(s, n)
  {
    if n in s.tenants {
      StayingPutKeepsRank(s, s', n);
    }
  }

  /** The number of reconciles of tenant n among the first m steps that changed something. */
  ghost function Productive(run: seq<State>, acts: seq<Action>, n: string, m: nat): nat
    requires |run| == |acts| + 1 && m <= |acts|
  {
    if m == 0 then 0
    else Productive(run, acts, n, m - 1)
         + (if acts[m - 1] == ReconcileTenant(n) && run[m] != run[m - 1] then 1 else 0)
  }

  ghost predicate IsControllerRun(run: seq<State>, acts: seq<Action>) {
    && |run| == |acts| + 1
    && (forall i :: 0 <= i < |acts| ==> IsControllerAction(acts[i]) && Next(run[i], acts[i], run[i + 1]))
    && NeverRevives(run, acts)
  }

  lemma {:induction false} ControllerRunStaysGood(run: seq<State>, acts: seq<Action>, u: Universe, m: nat)
    requires IsControllerRun(run, acts) && Good(run[0], u) && m < |run|
    ensures Good(run[m], u)
  {
    if m > 0 {
      ControllerRunStaysGood(run, acts, u, m - 1);
      assert Next(run[m - 1], acts[m - 1], run[m]) && IsControllerAction(acts[m - 1]);
      ControllerStepStaysGood(run[m - 1], u, acts[m - 1], run[m]);
    }
  }

  lemma ControllerStepStaysGood(s: State, u: Universe, a: Action, s': State)
    requires Good(s, u) && Next(s, a, s') && IsControllerAction(a)
    requires a.ReconcileTenant? ==> !WouldRevive(s, a.name)
    ensures Good(s', u)
  {
    StepShape(s, u, a, s');
    ControllerStepStaysWithin(s, u, a, s');
    if a.ReconcileTenant? {
      ReconcileKeeps(s, a.name, s');
    } else {
      OtherActionKeeps(s, a, s');
    }
  }

  lemma ControllerStepStaysWithin(s: State, u: Universe, a: Action, s': State)
    requires Within(s, u) && Next(s, a, s') && IsControllerAction(a)
    ensures Within(s', u)
  {
    if a.ReconcileTenant? {
      ReconcileTouches(s, a.name, s');
      forall n | n in s'.tenants
        ensures n in s.tenants && s'.tenants[n].labels == s.tenants[n].labels
      {
        if n != a.name {
          assert n in s'.tenants - {a.name} && (s'.tenants - {a.name})[n] == s'.tenants[n];
        }
      }
    }
  }

  /** From a good state, with labels and services left alone, under every interleaving of tenant
      reconciles, ingester reconciles and recycling: the productive reconciles of a tenant so
      far and its remaining rank never exceed the rank it started with, which is at most 3. */
  lemma {:induction false} ReconciliationTerminates(run: seq<State>, acts: seq<Action>, u: Universe, n: string, m: nat)
    requires IsControllerRun(run, acts) && Good(run[0], u) && m <= |acts|
    ensures Productive(run, acts, n, m) + Rank(run[m], n) <= Rank(run[0], n) <= 3
  {
    if m > 0 {
      ReconciliationTerminates(run, acts, u, n, m - 1);
      ControllerRunStaysGood(run, acts, u, m - 1);
      var s, a, s' := run[m - 1], acts[m - 1], run[m];
      assert Next(s, a, s') && IsControllerAction(a);
      if a == ReconcileTenant(n) {
        OwnReconcileLowers(s, u, n, s');
      } else if a.ReconcileTenant? {
        OtherReconcileKeepsRank(s, u, a.name, s', n);
      } else {
        QuietActionKeepsRank(s, a, s', n);
      }
    }
  }

  // ----- the fixpoint -----

  /** Tenant n sits in ingester k of its service, resolved storage and exclusiveness. */
  ghost predicate WellPlaced(s: State, n: string, svc: Service, k: Key)
    requires n in s.tenants
  {
    var t := s.tenants[n];
    && Lists(s, k, Id(n, t))
    && (forall l :: Lists(s, l, Id(n, t)) ==> l == k)
    && InGroup(k, s.ingesters[k], GroupOf(svc, t))
    && (IsTrue(s.ingesters[k].labels.exclusive) <==> IsTrue(t.labels.exclusive))
    && (IsTrue(t.labels.exclusive) ==> k.name == n && s.ingesters[k].spec.tenants == [Id(n, t)])
  }

  /** A live tenant with rank zero sits in exactly one ingester, the right one. */
  lemma SettledIsWellPlaced(s: State, u: Universe, n: string)
    requires Good(s, u) && n in s.tenants && !s.tenants[n].deleting
    requires ServiceOf(s, s.tenants[n]).Some? && Rank(s, n) == 0
    ensures s.tenants[n].ingester.Some?
    ensures WellPlaced(s, n, ServiceOf(s, s.tenants[n]).value, s.tenants[n].ingester.value)
  {
    var t, svc := s.tenants[n], ServiceOf(s, s.tenants[n]).value;
    var k := t.ingester.value;
    SettledListing(s, n, svc, k);
    assert Shaped(s, k, u);
    forall l | Lists(s, l, Id(n, t)) ensures l == k {
      ListedOnce(s, l, k, Id(n, t));
    }
    if IsTrue(s.ingesters[k].labels.exclusive) {
      assert Id(k.name, s.tenants[k.name]) == Id(n, t);
    }
  }

  // ----- what happens when names do collide -----

  /** Three ways to the same names in one namespace: the storage's namespace is dropped, a dash may
      belong to the service or to the storage, and the local disk is named like a storage "local". */
  lemma CollidingGroups(ns: string, m: string, n: string, x: string, y: string, z: string, i: nat)
    requires '.' !in ns && '.' !in m && '.' !in n && '.' !in x && '.' !in y && '.' !in z
    ensures AutoKey(Group(ns + ['.'] + x, m + ['.'] + y), i) == AutoKey(Group(ns + ['.'] + x, n + ['.'] + y), i)
    ensures AutoKey(Group(ns + ['.'] + x, m + ['.'] + (y + "-" + z)), i) == AutoKey(Group(ns + ['.'] + (x + "-" + y), n + ['.'] + z), i)
    ensures AutoKey(Group(ns + ['.'] + x, LOCAL_STORAGE), i) == AutoKey(Group(ns + ['.'] + x, m + ['.'] + LOCAL_STORAGE), i)
  {
    BaseOfPairs(ns, x, m, y);
    BaseOfPairs(ns, x, n, y);
    BaseOfPairs(ns, x, m, y + "-" + z);
    BaseOfPairs(ns, x + "-" + y, n, z);
    assert x + "-" + (y + "-" + z) == (x + "-" + y) + "-" + z;
    BaseOfPairs(ns, x, m, LOCAL_STORAGE);
    BaseOfLocal(ns, x);
  }

  lemma BaseOfPairs(ns: string, x: string, m: string, y: string)
    requires '.' !in ns && '.' !in x && '.' !in m && '.' !in y
    ensures var g := Group(ns + ['.'] + x, m + ['.'] + y); GroupNs(g) == ns && Base(g) == x + "-" + y
  {
    PartsAre(ns, x);
    PartsAre(m, y);
  }

  lemma BaseOfLocal(ns: string, x: string)
    requires '.' !in ns && '.' !in x
    ensures var g := Group(ns + ['.'] + x, LOCAL_STORAGE); GroupNs(g) == ns && Base(g) == x + "-" + LOCAL_STORAGE
  {
    PartsAre(ns, x);
    SplitWhole(LOCAL_STORAGE, '.');
  }

  /** The ingester a reconcile writes over although another group or tenant may be using it: the
      exclusive one named after the tenant, or the one at the least open index when List did not
      return it. */
  ghost predicate WritesOver(s: State, name: string, k: Key) {
    && name in s.tenants && ServiceOf(s, s.tenants[name]).Some?
    && var t, svc := s.tenants[name], ServiceOf(s, s.tenants[name]).value;
    var g := GroupOf(svc, t);
    && (t.deleting <==> FINALIZER_INGESTER !in t.finalizers)
    && !NeedsReset(s, name, svc)
    && if IsTrue(t.labels.exclusive) then k == Key(GroupNs(g), name)
       else
         && Holders(s, g, Id(name, t)) == {}
         && k !in Members(s, g)
         && exists i: nat :: LeastOpen(s, g, svc.limit, i) && k == AutoKey(g, i)
  }

  /** A reconcile takes another tenant id off a list exactly when it writes over that ingester. */
  lemma ReconcileDisplacesIff(s: State, name: string, s': State, k: Key, y: string)
    requires ReconcilesTenant(s, name, s') && Lists(s, k, y)
    requires name in s.tenants ==> y != Id(name, s.tenants[name])
    ensures !Lists(s', k, y) <==> WritesOver(s, name, k)
  {
    if name in s.tenants && ServiceOf(s, s.tenants[name]).Some? {
      var t, svc := s.tenants[name], ServiceOf(s, s.tenants[name]).value;
      if !t.deleting && FINALIZER_INGESTER !in t.finalizers {
      } else if t.deleting && FINALIZER_INGESTER in t.finalizers {
        FinalizeDisplacesNone(s, name, svc, k, y);
      } else if NeedsReset(s, name, svc) {
        DetachDisplacesNone(s, t.ingester.value, Id(name, t), svc, k, y);
      } else if IsTrue(t.labels.exclusive) {
      } else if Holders(s, GroupOf(svc, t), Id(name, t)) == {} {
        var i: nat :| LeastOpen(s, GroupOf(svc, t), svc.limit, i) && s' == PlaceAt(s, name, svc, i);
        IndexDisplacesIff(s, name, svc, i, k, y);
      }
    }
  }

  lemma DetachDisplacesNone(s: State, l: Key, x: string, svc: Service, k: Key, y: string)
    requires Lists(s, k, y) && y != x
    ensures Lists(Detach(s, l, x, svc), k, y)
  {
    if l in s.ingesters {
      WithoutMembers(s.ingesters[l].spec.tenants, x);
    }
  }

  lemma FinalizeDisplacesNone(s: State, name: string, svc: Service, k: Key, y: string)
    requires name in s.tenants && ServiceKey(ServiceLabel(s.tenants[name])).Some?
    requires Lists(s, k, y) && y != Id(name, s.tenants[name])
    ensures Lists(Finalize(s, name, svc), k, y)
  {
    var t := s.tenants[name];
    if t.ingester.Some? {
      DetachDisplacesNone(s, t.ingester.value, Id(name, t), svc, k, y);
    }
  }

  lemma IndexDisplacesIff(s: State, name: string, svc: Service, i: nat, k: Key, y: string)
    requires name in s.tenants && Lists(s, k, y) && y != Id(name, s.tenants[name])
    requires LeastOpen(s, GroupOf(svc, s.tenants[name]), svc.limit, i)
    ensures var g := GroupOf(svc, s.tenants[name]);
      !Lists(PlaceAt(s, name, svc, i), k, y) <==>
      k !in Members(s, g) && exists j: nat :: LeastOpen(s, g, svc.limit, j) && k == AutoKey(g, j)
  {
    var g := GroupOf(svc, s.tenants[name]);
    if j: nat :| LeastOpen(s, g, svc.limit, j) && k == AutoKey(g, j) {
      LeastOpenUnique(s, g, svc.limit, i, j);
    }
  }
}
