/** The set-diff reconciler for Store objects: one live Store for each pair of service and
    object storage that some live tenant uses. */
module Stores {
  import opened Text
  import opened Cluster

  /** A Store object; missing labels read as empty. */
  datatype Store = Store(group: Group, deleting: bool)

  type StoreMap = map<Key, Store>

  datatype TenantItem = TenantItem(labels: Labels, deleting: bool)

  predicate IsLive(stores: StoreMap, k: Key) {
    k in stores && !stores[k].deleting
  }

  // ----- what a pass aims at -----

  /** The tenant counts: it is live, has a service, and its storage is not the local disk. Every
      tenant's storage is resolved with the one Service of the tenant being reconciled. */
  predicate Counts(t: TenantItem, svc: Service) {
    !t.deleting && OrEmpty(t.labels.service) != "" && GroupFor(svc, t.labels).storage != LOCAL_STORAGE
  }

  function Expected(tenants: seq<TenantItem>, svc: Service): set<Group> {
    set i | 0 <= i < |tenants| && Counts(tenants[i], svc) :: GroupFor(svc, tenants[i].labels)
  }

  /** The live stores are in bijection with the expected groups. */
  ghost predicate Exact(stores: StoreMap, expected: set<Group>) {
    && (forall k :: IsLive(stores, k) ==> stores[k].group in expected)
    && (forall g :: g in expected ==> exists k :: IsLive(stores, k) && stores[k].group == g)
    && (forall k, l :: IsLive(stores, k) && IsLive(stores, l) && stores[k].group == stores[l].group ==> k == l)
  }

  /** A Store made for a group is in the namespace of its service and named after service and storage. */
  predicate IsHome(k: Key, g: Group) {
    && k.ns == Split(g.service, '.')[0]
    && Part(g.service, 1, "") + "-" + Part(g.storage, 1, "") + "-" <= k.name
  }

  /** A pass makes the stores exact; what it keeps it keeps unchanged, stores under deletion are
      not touched, and a new store is made only for a group that had no live one. */
  ghost predicate Passed(before: StoreMap, expected: set<Group>, after: StoreMap) {
    && Exact(after, expected)
    && (forall k :: k in before && before[k].deleting ==> k in after)
    && (forall k :: k in before && k in after ==> after[k] == before[k])
    && (forall k :: k in after && k !in before ==> !after[k].deleting && IsHome(k, after[k].group))
    && (forall k, l :: k in after && k !in before && IsLive(before, l) ==> before[l].group != after[k].group)
  }

  /** A pass changes nothing exactly when the stores were exact already; so a second pass
      creates and deletes nothing. */
  lemma FixpointIffExact(before: StoreMap, expected: set<Group>, after: StoreMap)
    requires Passed(before, expected, after)
    ensures after == before <==> Exact(before, expected)
  {
    if Exact(before, expected) {
      forall k | k in after ensures k in before {
        if !after[k].deleting {
          assert IsLive(after, k);
          var l :| IsLive(before, l) && before[l].group == after[k].group;
        }
      }
      forall k | k in before ensures k in after {
        if !before[k].deleting {
          assert IsLive(before, k);
          var l :| IsLive(after, l) && after[l].group == before[k].group;
          assert IsLive(before, l);
        }
      }
    }
  }

  lemma ExactForOne(stores: StoreMap, d: set<Group>, e: set<Group>)
    requires Exact(stores, d)
    ensures Exact(stores, e) <==> d == e
  {
    if Exact(stores, e) {
      forall g ensures g in d <==> g in e {
        if g in d {
          var k :| IsLive(stores, k) && stores[k].group == g;
        }
        if g in e {
          var k :| IsLive(stores, k) && stores[k].group == g;
        }
      }
    }
  }

  /** Passes made on behalf of different Services agree exactly when they resolve the tenants to
      the same groups. */
  lemma PassesOfTwoServices(first: Service, second: Service, tenants: seq<TenantItem>,
                            before: StoreMap, middle: StoreMap, after: StoreMap)
    requires Passed(before, Expected(tenants, first), middle) && Passed(middle, Expected(tenants, second), after)
    ensures after == middle <==> Expected(tenants, first) == Expected(tenants, second)
  {
    FixpointIffExact(middle, Expected(tenants, second), after);
    ExactForOne(middle, Expected(tenants, first), Expected(tenants, second));
  }

  ghost predicate HasLive(stores: StoreMap, g: Group) {
    exists k :: IsLive(stores, k) && stores[k].group == g
  }

  /** What the second of the two undoes: it deletes the stores of exactly the groups that only the
      first resolves to, and makes stores for exactly those that only it does. */
  lemma SecondPassUndoes(first: Service, second: Service, tenants: seq<TenantItem>,
                         before: StoreMap, middle: StoreMap, after: StoreMap, g: Group)
    requires Passed(before, Expected(tenants, first), middle) && Passed(middle, Expected(tenants, second), after)
    ensures HasLive(middle, g) && !HasLive(after, g) <==> g in Expected(tenants, first) - Expected(tenants, second)
    ensures !HasLive(middle, g) && HasLive(after, g) <==> g in Expected(tenants, second) - Expected(tenants, first)
  {
    ExactHasLive(middle, Expected(tenants, first), g);
    ExactHasLive(after, Expected(tenants, second), g);
  }

  lemma ExactHasLive(stores: StoreMap, expected: set<Group>, g: Group)
    requires Exact(stores, expected)
    ensures HasLive(stores, g) <==> g in expected
  {
  }

  // ----- the key of a pair -----

  function PairKey(g: Group): string { g.service + "|" + g.storage }

  lemma PairKeyInjective(g: Group, h: Group)
    requires '|' !in g.service && '|' !in h.service && PairKey(g) == PairKey(h)
    ensures g == h
  {
    assert PairKey(g) == g.service + ['|'] + g.storage;
    assert PairKey(h) == h.service + ['|'] + h.storage;
    FirstCutUnique(g.service, g.storage, h.service, h.storage, '|');
  }

  /** What the code keeps for a pair: the pair, and the Store found for it. */
  datatype Elem = Elem(group: Group, store: Key)

  /** Groups by their key. */
  ghost predicate Keyed(m: map<string, Group>, groups: set<Group>) {
    && (forall g :: g in groups ==> PairKey(g) in m && m[PairKey(g)] == g)
    && (forall p :: p in m ==> m[p] in groups && p == PairKey(m[p]))
  }

  predicate Barless(stores: StoreMap) {
    forall k :: k in stores ==> '|' !in stores[k].group.service
  }

  predicate BarlessTenants(tenants: seq<TenantItem>) {
    forall i :: 0 <= i < |tenants| ==> '|' !in OrEmpty(tenants[i].labels.service)
  }

  /** Reading the Storage object of a label without a dot panics. */
  predicate HashPanics(g: Group) { |Split(g.storage, '.')| < 2 }

  /** The Storage object a hash is made of. */
  function StorageKey(g: Group): Key
    requires !HashPanics(g)
  {
    Key(Split(g.storage, '.')[0], Split(g.storage, '.')[1])
  }

  /** Hashing fails when the Storage object is not there; storages are the ones that can be read. */
  predicate HashFails(g: Group, storages: set<Key>) { !HashPanics(g) && StorageKey(g) !in storages }

  /** So does naming a new Store after a service label without a dot. */
  predicate NamePanics(g: Group) { |Split(g.service, '.')| < 2 }

  /** The pass panics over g: it hashes the storage of every expected group, and names a new Store
      for those without a live one. */
  ghost predicate Panics(stores: StoreMap, g: Group) {
    HashPanics(g) || (Missing(stores, g) && NamePanics(g))
  }

  ghost predicate Blocks(stores: StoreMap, storages: set<Key>, g: Group) {
    Panics(stores, g) || HashFails(g, storages)
  }

  /** An expected group that has a live store and blocks: the pass ends before any orphan is
      deleted. */
  ghost predicate BlockedEarly(stores: StoreMap, storages: set<Key>, expected: set<Group>) {
    exists g :: g in expected && !Missing(stores, g) && Blocks(stores, storages, g)
  }

  ghost predicate Missing(stores: StoreMap, g: Group) {
    forall k :: IsLive(stores, k) ==> stores[k].group != g
  }

  // ----- what each part of the pass leaves -----

  /** current has one entry for each pair with a live store, and the live stores left are the
      ones in current. */
  ghost predicate Deduped(before: StoreMap, kept: StoreMap, current: map<string, Elem>) {
    && (forall k :: k in kept ==> k in before && kept[k] == before[k])
    && (forall k :: k in before && before[k].deleting ==> k in kept)
    && (forall k :: IsLive(kept, k) ==>
          PairKey(kept[k].group) in current && current[PairKey(kept[k].group)].store == k)
    && (forall p :: p in current ==>
          IsLive(kept, current[p].store) && kept[current[p].store].group == current[p].group && p == PairKey(current[p].group))
    && (forall k :: IsLive(before, k) ==> PairKey(before[k].group) in current)
  }

  function StoresOf(elems: map<string, Elem>): set<Key> { set p | p in elems :: elems[p].store }

  /** The new stores are at home. */
  ghost predicate NewAreHome(swept: StoreMap, after: StoreMap) {
    forall k :: k in after && k !in swept ==> IsHome(k, after[k].group)
  }

  /** Exactly one new store for each entry of missing, and nothing else new. */
  ghost predicate Created(swept: StoreMap, after: StoreMap, missing: map<string, Group>) {
    && (forall k :: k in swept ==> k in after && after[k] == swept[k])
    && (forall k :: k in after && k !in swept ==> !after[k].deleting && IsEntry(missing, after[k].group))
    && (forall p :: p in missing ==> exists k :: k in after && k !in swept && after[k].group == missing[p])
    && (forall k, l :: k in after && l in after && k !in swept && l !in swept && after[k].group == after[l].group ==> k == l)
  }

  predicate IsEntry(missing: map<string, Group>, g: Group) {
    PairKey(g) in missing && missing[PairKey(g)] == g
  }

  lemma ExpectedSnoc(tenants: seq<TenantItem>, t: TenantItem, svc: Service)
    ensures Expected(tenants + [t], svc) ==
            Expected(tenants, svc) + (if Counts(t, svc) then {GroupFor(svc, t.labels)} else {})
  {
    var all := tenants + [t];
    forall g ensures g in Expected(all, svc) <==> g in Expected(tenants, svc) || (Counts(t, svc) && g == GroupFor(svc, t.labels)) {
      if g in Expected(tenants, svc) {
        var i :| 0 <= i < |tenants| && Counts(tenants[i], svc) && g == GroupFor(svc, tenants[i].labels);
        assert all[i] == tenants[i];
      }
      if Counts(t, svc) && g == GroupFor(svc, t.labels) {
        assert all[|tenants|] == t;
      }
    }
  }

  /** Which groups are expected: those of a live tenant with a service label, whose storage label, or
      the default storage in its place, is not the local disk. */
  lemma ExpectedIff(tenants: seq<TenantItem>, svc: Service, g: Group)
    ensures g in Expected(tenants, svc) <==> exists i :: 0 <= i < |tenants| && Uses(tenants[i], svc, g)
  {
    forall t: TenantItem ensures Uses(t, svc, g) <==> Counts(t, svc) && g == GroupFor(svc, t.labels) {
      ResolveStorageIs(svc, OrEmpty(t.labels.storage));
    }
    if i :| 0 <= i < |tenants| && Uses(tenants[i], svc, g) {
      assert Counts(tenants[i], svc);
    }
  }

  /** The tenant is live, labelled with the service of g, and its own storage label, or where that is
      missing, empty or "default" the one of the Service, is the storage of g and not "local". */
  predicate Uses(t: TenantItem, svc: Service, g: Group) {
    && !t.deleting && t.labels.service == Some(g.service) && g.service != "" && g.storage != "local"
    && (if t.labels.storage in {None, Some(""), Some("default")}
        then svc.storage.Some? && g.storage == svc.storage.value.ns + ['.'] + svc.storage.value.name
        else t.labels.storage == Some(g.storage))
  }

  /** A tenant under deletion adds no group. */
  lemma DeletingAddsNone(tenants: seq<TenantItem>, t: TenantItem, svc: Service)
    requires t.deleting
    ensures Expected(tenants + [t], svc) == Expected(tenants, svc)
  {
    ExpectedSnoc(tenants, t, svc);
  }

  lemma ExpectedBarless(tenants: seq<TenantItem>, svc: Service, g: Group)
    requires BarlessTenants(tenants) && g in Expected(tenants, svc)
    ensures '|' !in g.service && !IsBlank(g)
  {
  }

  /** The live stores with a pair in current that is not expected. */
  lemma LiveGroupIsCurrent(before: StoreMap, kept: StoreMap, current: map<string, Elem>, k: Key)
    requires Barless(before) && Deduped(before, kept, current) && IsLive(before, k)
    ensures var p := PairKey(before[k].group); p in current && current[p].group == before[k].group
  {
    var p := PairKey(before[k].group);
    PairKeyInjective(before[k].group, current[p].group);
  }

  /** After the orphans are gone, the live stores are those of current pairs that are expected. */
  lemma SweptLive(before: StoreMap, kept: StoreMap, current: map<string, Elem>, expected: map<string, Group>,
                  orphans: map<string, Elem>, swept: StoreMap, k: Key)
    requires Deduped(before, kept, current)
    requires orphans == current - expected.Keys && swept == kept - StoresOf(orphans)
    ensures IsLive(swept, k) <==> IsLive(kept, k) && PairKey(kept[k].group) in expected
  {
    if IsLive(kept, k) {
      var p := PairKey(kept[k].group);
      if p !in expected {
        assert orphans[p].store == k;
      }
      if k in StoresOf(orphans) {
        var q :| q in orphans && orphans[q].store == k;
        assert q == p;
      }
    }
  }

  lemma SweptDeleting(before: StoreMap, kept: StoreMap, current: map<string, Elem>, orphans: map<string, Elem>, k: Key)
    requires Deduped(before, kept, current) && orphans.Keys <= current.Keys
    requires forall p :: p in orphans ==> orphans[p] == current[p]
    requires k in before && before[k].deleting
    ensures k in kept - StoresOf(orphans)
  {
    forall q | q in orphans ensures orphans[q].store != k {
      assert IsLive(kept, current[q].store);
    }
  }

  /** All that the parts of one pass have left behind. */
  ghost predicate Parts(before: StoreMap, kept: StoreMap, swept: StoreMap, after: StoreMap, groups: set<Group>,
                        current: map<string, Elem>, expected: map<string, Group>)
  {
    && Barless(before) && (forall g :: g in groups ==> '|' !in g.service)
    && Deduped(before, kept, current) && Keyed(expected, groups)
    && swept == kept - StoresOf(current - expected.Keys)
    && Created(swept, after, expected - current.Keys) && NewAreHome(swept, after)
    && forall k :: k in after && k !in swept ==> k !in before
  }

  /** A live store after the pass either is an old one of an expected pair, the only one of its
      pair, or a new one of a pair that had none. */
  lemma LiveAfter(before: StoreMap, kept: StoreMap, swept: StoreMap, after: StoreMap, groups: set<Group>,
                  current: map<string, Elem>, expected: map<string, Group>, k: Key)
    requires Parts(before, kept, swept, after, groups, current, expected) && IsLive(after, k)
    ensures after[k].group in groups
    ensures k in swept ==> PairKey(after[k].group) in current && current[PairKey(after[k].group)].store == k
    ensures k !in swept ==> PairKey(after[k].group) !in current
  {
    if k in swept {
      SweptLive(before, kept, current, expected, current - expected.Keys, swept, k);
      PairKeyInjective(kept[k].group, expected[PairKey(kept[k].group)]);
    } else {
      assert IsEntry(expected - current.Keys, after[k].group);
    }
  }

  lemma GroupHasStore(before: StoreMap, kept: StoreMap, swept: StoreMap, after: StoreMap, groups: set<Group>,
                      current: map<string, Elem>, expected: map<string, Group>, g: Group)
    requires Parts(before, kept, swept, after, groups, current, expected) && g in groups
    ensures exists k :: IsLive(after, k) && after[k].group == g
  {
    var p := PairKey(g);
    if p in current {
      var k := current[p].store;
      PairKeyInjective(current[p].group, g);
      SweptLive(before, kept, current, expected, current - expected.Keys, swept, k);
      assert IsLive(after, k) && after[k].group == g;
    } else {
      var missing := expected - current.Keys;
      assert p in missing && missing[p] == g;
      var k :| k in after && k !in swept && after[k].group == missing[p];
      assert IsLive(after, k);
    }
  }

  /** The parts together make a pass. */
  lemma PartsMakePass(before: StoreMap, kept: StoreMap, swept: StoreMap, after: StoreMap, groups: set<Group>,
                      current: map<string, Elem>, expected: map<string, Group>)
    requires Parts(before, kept, swept, after, groups, current, expected)
    ensures Passed(before, groups, after)
  {
    forall k | IsLive(after, k)
      ensures after[k].group in groups
      ensures k in swept ==> PairKey(after[k].group) in current && current[PairKey(after[k].group)].store == k
      ensures k !in swept ==> PairKey(after[k].group) !in current
    {
      LiveAfter(before, kept, swept, after, groups, current, expected, k);
    }
    forall g | g in groups ensures exists k :: IsLive(after, k) && after[k].group == g {
      GroupHasStore(before, kept, swept, after, groups, current, expected, g);
    }
    forall k | k in before && before[k].deleting ensures k in after {
      SweptDeleting(before, kept, current, current - expected.Keys, k);
    }
    forall k | k in after && k !in before ensures !after[k].deleting && k !in swept {
    }
  }

  /** The pairs to be created are the expected groups without a live store. */
  lemma MissingAre(before: StoreMap, kept: StoreMap, current: map<string, Elem>, expected: map<string, Group>, groups: set<Group>, g: Group)
    requires Barless(before) && forall h :: h in groups ==> '|' !in h.service
    requires Deduped(before, kept, current) && Keyed(expected, groups)
    ensures g in groups && Missing(before, g) <==> IsEntry(expected - current.Keys, g)
  {
    if g in groups {
      if PairKey(g) in current {
        var k := current[PairKey(g)].store;
        PairKeyInjective(current[PairKey(g)].group, g);
        assert IsLive(before, k) && before[k].group == g;
      }
      if k :| IsLive(before, k) && before[k].group == g {
        LiveGroupIsCurrent(before, kept, current, k);
      }
    }
  }

  datatype Outcome = Done | Panicked | Failed

  /** A label is missing on one side of the pair. */
  predicate IsBlank(g: Group) { g.service == "" || g.storage == "" }

  /** A Store for the group cannot be named, or its storage not be looked up. */
  predicate CannotCreate(g: Group) { NamePanics(g) || HashPanics(g) }

  /** The pairs on both sides are the expected groups with a live store. */
  lemma BothAre(before: StoreMap, kept: StoreMap, current: map<string, Elem>, expected: map<string, Group>, groups: set<Group>)
    requires Barless(before) && forall h :: h in groups ==> '|' !in h.service
    requires Deduped(before, kept, current) && Keyed(expected, groups)
    ensures forall p :: p in current && p in expected ==>
      current[p].group == expected[p] && expected[p] in groups && !Missing(before, expected[p])
    ensures forall g :: g in groups && !Missing(before, g) ==>
      PairKey(g) in current && PairKey(g) in expected && expected[PairKey(g)] == g
  {
    forall p | p in current && p in expected
      ensures current[p].group == expected[p] && !Missing(before, expected[p])
    {
      var k := current[p].store;
      assert IsLive(kept, k) && IsLive(before, k) && before[k].group == current[p].group;
      PairKeyInjective(current[p].group, expected[p]);
    }
    forall g | g in groups && !Missing(before, g) ensures PairKey(g) in current {
      var k :| IsLive(before, k) && before[k].group == g;
    }
  }

  lemma MissingAll(before: StoreMap, kept: StoreMap, current: map<string, Elem>, expected: map<string, Group>, groups: set<Group>)
    requires Barless(before) && forall h :: h in groups ==> '|' !in h.service
    requires Deduped(before, kept, current) && Keyed(expected, groups)
    ensures forall g :: g in groups && Missing(before, g) <==> IsEntry(expected - current.Keys, g)
  {
    forall g ensures g in groups && Missing(before, g) <==> IsEntry(expected - current.Keys, g) {
      MissingAre(before, kept, current, expected, groups, g);
    }
  }

  lemma DedupedKeepsLive(before: StoreMap, kept: StoreMap, current: map<string, Elem>)
    requires Barless(before) && Deduped(before, kept, current)
    ensures forall g :: HasLive(kept, g) <==> HasLive(before, g)
  {
    forall g ensures HasLive(kept, g) <==> HasLive(before, g) {
      if k :| IsLive(before, k) && before[k].group == g {
        LiveGroupIsCurrent(before, kept, current, k);
        var l := current[PairKey(g)].store;
        assert IsLive(kept, l) && kept[l].group == g;
      }
      if k :| IsLive(kept, k) && kept[k].group == g {
        assert IsLive(before, k);
      }
    }
  }

  /** Without the orphans every live store is of an expected group, however many are made. */
  lemma LiveIsExpected(before: StoreMap, kept: StoreMap, current: map<string, Elem>, expected: map<string, Group>,
                       groups: set<Group>, swept: StoreMap, after: StoreMap)
    requires Barless(before) && forall h :: h in groups ==> '|' !in h.service
    requires Deduped(before, kept, current) && Keyed(expected, groups)
    requires swept == kept - StoresOf(current - expected.Keys)
    requires forall k :: k in swept ==> k in after && after[k] == swept[k]
    requires forall k :: k in after && k !in swept ==> IsEntry(expected - current.Keys, after[k].group)
    ensures forall k :: IsLive(after, k) ==> after[k].group in groups
  {
    forall k | IsLive(after, k) ensures after[k].group in groups {
      if k in swept {
        SweptLive(before, kept, current, expected, current - expected.Keys, swept, k);
        PairKeyInjective(kept[k].group, expected[PairKey(kept[k].group)]);
      }
    }
  }

  class StoreReconciler {
    var stores: StoreMap
    /** The Storage objects that exist, with all that their hash is made of. */
    const storages: set<Key>

    constructor (stores: StoreMap, storages: set<Key>)
      ensures this.stores == stores && this.storages == storages
    {
      this.stores := stores;
      this.storages := storages;
    }

    /** sortTenantsByStorageAndService. */
    method ExpectedStores(tenants: seq<TenantItem>, svc: Service) returns (m: map<string, Group>)
      requires BarlessTenants(tenants)
      ensures Keyed(m, Expected(tenants, svc))
    {
      m := map[];
      for i := 0 to |tenants|
        invariant Keyed(m, Expected(tenants[..i], svc))
      {
        var t := tenants[i];
        ExpectedSnoc(tenants[..i], t, svc);
        assert tenants[..i + 1] == tenants[..i] + [t];
        if t.deleting {
          continue;
        }
        if t.labels.service.None? || t.labels.service.value == "" {
          continue;
        }
        var storage := ResolveStorage(svc, OrEmpty(t.labels.storage));
        if storage == LOCAL_STORAGE {
          continue;
        }
        var g := Group(t.labels.service.value, storage);
        forall h | h in Expected(tenants[..i], svc) && PairKey(h) == PairKey(g) ensures h == g {
          ExpectedBarless(tenants[..i], svc, h);
          PairKeyInjective(h, g);
        }
        m := m[PairKey(g) := g];
      }
      assert tenants[..|tenants|] == tenants;
    }

    /** The first pass over the list: the first live store of each pair stays for now, later ones
        of the same pair are deleted. */
    method DropDuplicates() returns (current: map<string, Elem>)
      modifies this`stores
      ensures Deduped(old(stores), stores, current)
    {
      current := map[];
      var rest := stores.Keys;
      while rest != {}
        invariant rest <= stores.Keys
        invariant forall k :: k in stores ==> k in old(stores) && stores[k] == old(stores)[k]
        invariant forall k :: k in old(stores) && (old(stores)[k].deleting || k in rest) ==> k in stores
        invariant forall k :: IsLive(stores, k) && k !in rest ==>
                    PairKey(stores[k].group) in current && current[PairKey(stores[k].group)].store == k
        invariant forall p :: p in current ==>
                    (IsLive(stores, current[p].store) && current[p].store !in rest
                     && stores[current[p].store].group == current[p].group && p == PairKey(current[p].group))
        invariant forall k :: IsLive(old(stores), k) && k !in rest ==> PairKey(old(stores)[k].group) in current
        decreases |rest|
      {
        var k :| k in rest;
        rest := rest - {k};
        var store := stores[k];
        if store.deleting {
          continue;
        }
        var p := PairKey(store.group);
        if p in current {
          stores := stores - {k};
        } else {
          current := current[p := Elem(store.group, k)];
        }
      }
    }

    /** Pairs on both sides are settled: their hashes are brought up to date and they leave both
        maps, unless hashing the storage of one of them ends the pass. */
    method Settle(current: map<string, Elem>, expected: map<string, Group>)
      returns (outcome: Outcome, orphans: map<string, Elem>, missing: map<string, Group>)
      requires forall p :: p in current && p in expected ==> current[p].group == expected[p] && !IsBlank(expected[p])
      ensures outcome == Done <==> forall p :: p in current && p in expected ==> !HashPanics(expected[p]) && !HashFails(expected[p], storages)
      ensures outcome == Panicked ==> exists p :: p in current && p in expected && HashPanics(expected[p])
      ensures outcome == Failed ==> exists p :: p in current && p in expected && HashFails(expected[p], storages)
      ensures outcome == Done ==> orphans == current - expected.Keys && missing == expected - current.Keys
    {
      orphans, missing := current, expected;
      var todo := expected.Keys;
      while todo != {}
        invariant todo <= expected.Keys
        invariant forall p :: p in orphans <==> p in current && (p !in expected || p in todo)
        invariant forall p :: p in orphans ==> orphans[p] == current[p]
        invariant forall p :: p in missing <==> p in expected && (p !in current || p in todo)
        invariant forall p :: p in missing ==> missing[p] == expected[p]
        invariant forall p :: p in current && p in expected && p !in todo ==>
                    !HashPanics(expected[p]) && !HashFails(expected[p], storages)
        decreases |todo|
      {
        var p :| p in todo;
        todo := todo - {p};
        if p in orphans {
          var g := orphans[p].group;
          if g.service != "" && g.storage != "" {
            var hashed := HashStorage(g);
            if hashed != Done {
              return hashed, orphans, missing;
            }
          }
          orphans := orphans - {p};
          missing := missing - {p};
        }
      }
      assert orphans == current - expected.Keys;
      assert missing == expected - current.Keys;
      outcome := Done;
    }

    /** GetStorageHash, as far as it ends the pass. */
    method HashStorage(g: Group) returns (outcome: Outcome)
      ensures outcome == Panicked <==> HashPanics(g)
      ensures outcome == Failed <==> HashFails(g, storages)
    {
      var parts := Split(g.storage, '.');
      if |parts| < 2 {
        return Panicked;
      }
      if Key(parts[0], parts[1]) !in storages {
        return Failed;
      }
      return Done;
    }

    method DropOrphans(orphans: map<string, Elem>)
      modifies this`stores
      ensures stores == old(stores) - StoresOf(orphans)
    {
      var rest := orphans.Keys;
      while rest != {}
        invariant rest <= orphans.Keys
        invariant stores == old(stores) - StoresOf(orphans - rest)
        decreases |rest|
      {
        var p :| p in rest;
        assert StoresOf(orphans - (rest - {p})) == StoresOf(orphans - rest) + {orphans[p].store} by {
          var smaller, larger := orphans - rest, orphans - (rest - {p});
          assert forall q :: q in larger <==> q in smaller || q == p;
        }
        rest := rest - {p};
        stores := stores - {orphans[p].store};
      }
      assert orphans - {} == orphans;
    }

    /** A generated name is new: no store has it, and none of the names taken before had it. */
    method CreateStore(g: Group, taken: set<Key>) returns (k: Key)
      modifies this`stores
      ensures k !in old(stores) && k !in taken && stores == old(stores)[k := Store(g, false)]
      ensures IsHome(k, g)
    {
      var prefix := Part(g.service, 1, "") + "-" + Part(g.storage, 1, "") + "-";
      var name := prefix;
      ghost var all := stores.Keys + taken;
      ghost var seen: set<Key> := {};
      while Key(GroupNs(g), name) in stores || Key(GroupNs(g), name) in taken
        invariant seen <= all && stores == old(stores) && prefix <= name
        invariant forall l :: l in seen ==> |l.name| < |name|
        decreases |all - seen|
      {
        assert all - (seen + {Key(GroupNs(g), name)}) == (all - seen) - {Key(GroupNs(g), name)};
        seen := seen + {Key(GroupNs(g), name)};
        name := name + "x";
      }
      k := Key(GroupNs(g), name);
      stores := stores[k := Store(g, false)];
    }

    /** Naming, hashing and creating one store. */
    method CreateOne(g: Group, taken: set<Key>) returns (outcome: Outcome, ghost k: Key)
      modifies this`stores
      ensures outcome == Done <==> !CannotCreate(g) && !HashFails(g, storages)
      ensures outcome == Panicked ==> CannotCreate(g)
      ensures outcome == Failed ==> HashFails(g, storages)
      ensures outcome == Done ==> IsHome(k, g)
      ensures if outcome == Done then k !in old(stores) && k !in taken && stores == old(stores)[k := Store(g, false)]
              else stores == old(stores)
    {
      k := Key("", "");
      if |Split(g.service, '.')| < 2 || |Split(g.storage, '.')| < 2 {
        return Panicked, k;
      }
      outcome := HashStorage(g);
      if outcome == Done {
        k := CreateStore(g, taken);
      }
    }

    /** Creating the missing stores, until a name or a hash ends it. */
    method CreateMissing(missing: map<string, Group>, taken: set<Key>) returns (outcome: Outcome)
      requires forall p :: p in missing ==> p == PairKey(missing[p])
      modifies this`stores
      ensures outcome == Done <==> forall p :: p in missing ==> !CannotCreate(missing[p]) && !HashFails(missing[p], storages)
      ensures outcome == Panicked ==> exists p :: p in missing && CannotCreate(missing[p])
      ensures outcome == Failed ==> exists p :: p in missing && HashFails(missing[p], storages)
      ensures outcome == Done ==> Created(old(stores), stores, missing)
      ensures NewAreHome(old(stores), stores)
      ensures forall k :: k in old(stores) ==> k in stores && stores[k] == old(stores)[k]
      ensures forall k :: k in stores && k !in old(stores) ==> k !in taken && IsEntry(missing, stores[k].group)
    {
      var todo := missing.Keys;
      ghost var done: map<string, Group> := map[];
      while todo != {}
        invariant todo <= missing.Keys
        invariant forall p :: p in done <==> p in missing && p !in todo
        invariant forall p :: p in done ==>
                    done[p] == missing[p] && !CannotCreate(missing[p]) && !HashFails(missing[p], storages)
        invariant Created(old(stores), stores, done)
        invariant NewAreHome(old(stores), stores)
        invariant forall k :: k in stores && k !in old(stores) ==> k !in taken
        decreases |todo|
      {
        var p :| p in todo;
        ghost var now := stores;
        var created, k := CreateOne(missing[p], taken);
        if created != Done {
          return created;
        }
        CreatedOneMore(old(stores), now, done, p, missing[p], k);
        todo := todo - {p};
        done := done[p := missing[p]];
      }
      assert done == missing;
      return Done;
    }

    /** store(): the whole pass. It is done exactly when no expected group blocks it. One that has a
        live store blocks it before any orphan is deleted and any store made. */
    method Reconcile(tenants: seq<TenantItem>, svc: Service) returns (outcome: Outcome)
      requires Barless(stores) && BarlessTenants(tenants)
      modifies this`stores
      ensures outcome == Done <==> forall g :: g in Expected(tenants, svc) ==> !Blocks(old(stores), storages, g)
      ensures outcome == Panicked ==> exists g :: g in Expected(tenants, svc) && Panics(old(stores), g)
      ensures outcome == Failed ==> exists g :: g in Expected(tenants, svc) && HashFails(g, storages)
      ensures outcome == Done ==> Passed(old(stores), Expected(tenants, svc), stores)
      ensures BlockedEarly(old(stores), storages, Expected(tenants, svc)) ==>
        forall g :: HasLive(stores, g) <==> HasLive(old(stores), g)
      ensures !BlockedEarly(old(stores), storages, Expected(tenants, svc)) ==>
        forall k :: IsLive(stores, k) ==> stores[k].group in Expected(tenants, svc)
    {
      ghost var before, groups := stores, Expected(tenants, svc);
      var taken := stores.Keys;
      var current := DropDuplicates();
      ghost var kept := stores;
      var expected := ExpectedStores(tenants, svc);
      forall g | g in groups ensures '|' !in g.service && !IsBlank(g) {
        ExpectedBarless(tenants, svc, g);
      }
      BothAre(before, kept, current, expected, groups);
      var orphans, missing;
      outcome, orphans, missing := Settle(current, expected);
      if outcome != Done {
        DedupedKeepsLive(before, kept, current);
        return;
      }
      DropOrphans(orphans);
      ghost var swept := stores;
      outcome := CreateMissing(missing, taken);
      MissingAll(before, kept, current, expected, groups);
      LiveIsExpected(before, kept, current, expected, groups, swept, stores);
      if outcome == Done {
        PartsMakePass(before, kept, swept, stores, groups, current, expected);
      }
    }
  }

  // ----- inputs that fail -----

  function Labelled(service: string, storage: string): TenantItem {
    TenantItem(Labels(Some(service), if storage == "" then None else Some(storage), None, None), false)
  }

  /** A live Store and a live tenant share a storage label without a dot: every pass panics, and
      keeps every orphan. */
  lemma DotlessStorageBlocks(k: Key, service: string, storage: string, svc: Service, storages: set<Key>)
    requires service != "" && storage != "" && storage != DEFAULT_STORAGE && storage != LOCAL_STORAGE && '.' !in storage
    ensures var stores := map[k := Store(Group(service, storage), false)];
      var expected := Expected([Labelled(service, storage)], svc);
      BlockedEarly(stores, storages, expected) && exists g :: g in expected && Panics(stores, g) && !Missing(stores, g)
  {
    SplitWhole(storage, '.');
    var g := Group(service, storage);
    var stores := map[k := Store(g, false)];
    assert Counts([Labelled(service, storage)][0], svc);
    assert IsLive(stores, k) && g in Expected([Labelled(service, storage)], svc);
  }

  /** So does a Storage object that is gone while its Store and tenant live on, with an error. */
  lemma AbsentStorageBlocks(k: Key, service: string, storage: Key, svc: Service, storages: set<Key>)
    requires service != "" && '.' !in storage.ns && '.' !in storage.name && storage !in storages
    ensures var text := storage.ns + ['.'] + storage.name;
      var stores := map[k := Store(Group(service, text), false)];
      var expected := Expected([Labelled(service, text)], svc);
      && BlockedEarly(stores, storages, expected) && HashFails(Group(service, text), storages)
      && !HashFails(Group(service, text), storages + {storage}) && !HashPanics(Group(service, text))
  {
    SplitAtFirst(storage.ns, storage.name, '.');
    SplitWhole(storage.name, '.');
    var text := storage.ns + ['.'] + storage.name;
    assert text[|storage.ns|] == '.';
    var g := Group(service, text);
    var stores := map[k := Store(g, false)];
    assert Counts([Labelled(service, text)][0], svc);
    assert IsLive(stores, k) && g in Expected([Labelled(service, text)], svc);
  }

  lemma DefaultsDiffer(service: string, first: Service, second: Service)
    requires first.storage.Some? && second.storage.Some? && first.storage != second.storage
    requires '.' !in first.storage.value.ns && '.' !in second.storage.value.ns
    ensures var g, h := GroupFor(first, Labelled(service, "").labels), GroupFor(second, Labelled(service, "").labels);
      g != h && g.storage != LOCAL_STORAGE && h.storage != LOCAL_STORAGE
  {
    var a, b := first.storage.value, second.storage.value;
    var g, h := a.ns + ['.'] + a.name, b.ns + ['.'] + b.name;
    assert g[|a.ns|] == '.' && h[|b.ns|] == '.';
    if g == h {
      FirstCutUnique(a.ns, a.name, b.ns, b.name, '.');
    }
  }

  /** One tenant on default storage and two Services with different defaults: a pass of the second
      deletes the Store a pass of the first has made. */
  lemma DefaultsUndoEachOther(service: string, first: Service, second: Service, k: Key, l: Key)
    returns (middle: StoreMap, after: StoreMap)
    requires service != "" && first.storage.Some? && second.storage.Some? && first.storage != second.storage
    requires '.' !in first.storage.value.ns && '.' !in second.storage.value.ns && k != l
    requires IsHome(k, GroupFor(first, Labelled(service, "").labels)) && IsHome(l, GroupFor(second, Labelled(service, "").labels))
    ensures var tenants := [Labelled(service, "")];
      Passed(map[], Expected(tenants, first), middle) && Passed(middle, Expected(tenants, second), after)
    ensures var g := GroupFor(first, Labelled(service, "").labels); HasLive(middle, g) && !HasLive(after, g)
  {
    var tenants := [Labelled(service, "")];
    var g, h := GroupFor(first, tenants[0].labels), GroupFor(second, tenants[0].labels);
    DefaultsDiffer(service, first, second);
    assert Counts(tenants[0], first) && Counts(tenants[0], second);
    assert Expected(tenants, first) == {g} && Expected(tenants, second) == {h};
    middle, after := map[k := Store(g, false)], map[l := Store(h, false)];
    assert IsLive(middle, k) && IsLive(after, l);
  }

  lemma CreatedOneMore(swept: StoreMap, now: StoreMap, done: map<string, Group>, p: string, g: Group, k: Key)
    requires Created(swept, now, done) && p !in done && p == PairKey(g) && k !in now
    ensures Created(swept, now[k := Store(g, false)], done[p := g])
  {
    var after, more := now[k := Store(g, false)], done[p := g];
    forall q | q in more ensures exists l :: l in after && l !in swept && after[l].group == more[q] {
      if q == p {
        assert k in after && k !in swept && after[k].group == g;
      } else {
        var l :| l in now && l !in swept && now[l].group == done[q];
        assert l in after;
      }
    }
    forall l | l in now && l !in swept ensures now[l].group != g {
      assert IsEntry(done, now[l].group);
    }
  }
}
