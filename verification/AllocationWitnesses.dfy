/** Runs of the operator that reach what the other modules exclude: a lingering tenant that would be
    placed again, and placements that take another tenant off its list. */
module AllocationWitnesses {
  import opened Text
  import opened Cluster
  import opened Allocation
  import opened AllocationSafety
  import opened Placement
  import opened Convergence
  import opened OperatorRuns
  import C = Compaction

  function NewTenant(service: Key, storage: string, exclusive: bool, finalizers: seq<string>): Tenant {
    Tenant("", Labels(Some(service.ns + ['.'] + service.name), Some(storage), if exclusive then Some("true") else None, None),
           finalizers, false, None)
  }

  /** A cluster with one Service and nothing else. */
  function Start(service: Key, svc: Service): State {
    State(map[], map[], map[service := svc], 0)
  }

  predicate Dotless(k: Key) { '.' !in k.ns && '.' !in k.name }

  lemma ServiceIsFound(s: State, service: Key, t: Tenant)
    requires Dotless(service) && service in s.services && t.labels.service == Some(service.ns + ['.'] + service.name)
    ensures ServiceOf(s, t) == Some(s.services[service])
  {
    PartsAre(service.ns, service.name);
  }

  lemma OperatorRunExtended(run: seq<State>, acts: seq<Action>, a: Action, s': State)
    requires IsOperatorRun(run, acts) && OperatorNext(run[|run| - 1], a, s')
    ensures IsOperatorRun(run + [s'], acts + [a])
  {
    var run', acts' := run + [s'], acts + [a];
    forall i | 0 <= i < |acts'| ensures OperatorNext(run'[i], acts'[i], run'[i + 1]) {
      if i < |acts| {
        assert OperatorNext(run[i], acts[i], run[i + 1]);
      }
    }
  }

  // ----- steps -----

  function Admitted(t: Tenant, name: string): Tenant {
    t.(finalizers := t.finalizers + [FINALIZER_INGESTER] + [C.FINALIZER_COMPACTOR], tenantId := Id(name, t))
  }

  /** The first whole reconcile of a tenant adds both finalizers. */
  lemma FirstReconcile(s: State, name: string)
    requires name in s.tenants && ServiceOf(s, s.tenants[name]).Some? && !s.tenants[name].deleting
    requires FINALIZER_INGESTER !in s.tenants[name].finalizers && C.FINALIZER_COMPACTOR !in s.tenants[name].finalizers
    ensures WholeReconcile(s, name, s.(tenants := s.tenants[name := Admitted(s.tenants[name], name)]))
  {
    var t := s.tenants[name];
    var m := SetFinalizers(s, name, t.finalizers + [FINALIZER_INGESTER]);
    assert ReconcilesTenant(s, name, m);
    assert CompactorFinalizers(m.tenants[name]) == t.finalizers + [FINALIZER_INGESTER] + [C.FINALIZER_COMPACTOR];
    assert |CompactorFinalizers(m.tenants[name])| != |m.tenants[name].finalizers|;
    assert Id(name, m.tenants[name]) == Id(name, t);
    assert AfterCompactor(m, name).tenants == s.tenants[name := Admitted(t, name)];
  }

  /** A part that leaves the tenant with both finalizers is the whole reconcile. */
  lemma PartIsWhole(s: State, name: string, m: State)
    requires ReconcilesTenant(s, name, m) && name in s.tenants && ServiceOf(s, s.tenants[name]).Some?
    requires name in m.tenants && (m.tenants[name].deleting <==> C.FINALIZER_COMPACTOR !in m.tenants[name].finalizers)
    ensures WholeReconcile(s, name, m)
  {
    assert AfterCompactor(m, name) == m;
  }

  /** Creating a tenant and reconciling it once. */
  lemma Introduced(run: seq<State>, acts: seq<Action>, service: Key, name: string, t: Tenant)
    returns (run': seq<State>, acts': seq<Action>)
    requires IsOperatorRun(run, acts) && Dotless(service) && service in run[|run| - 1].services
    requires t.labels.service == Some(service.ns + ['.'] + service.name) && t.ingester.None? && !t.deleting
    requires FINALIZER_INGESTER !in t.finalizers && C.FINALIZER_COMPACTOR !in t.finalizers
    requires name !in run[|run| - 1].tenants && FreshId(run[|run| - 1], name, t)
    ensures IsOperatorRun(run', acts') && run'[0] == run[0]
    ensures var s := run[|run| - 1];
      run'[|run'| - 1] == s.(tenants := s.tenants[name := Admitted(t, name)])
  {
    var s := run[|run| - 1];
    var s1 := s.(tenants := s.tenants[name := t]);
    OperatorRunExtended(run, acts, CreateTenant(name, t), s1);
    run', acts' := run + [s1], acts + [CreateTenant(name, t)];
    ServiceIsFound(s1, service, t);
    FirstReconcile(s1, name);
    var s2 := s1.(tenants := s1.tenants[name := Admitted(t, name)]);
    assert s2.tenants == s.tenants[name := Admitted(t, name)];
    OperatorRunExtended(run', acts', ReconcileTenant(name), s2);
    run', acts' := run' + [s2], acts' + [ReconcileTenant(name)];
  }

  // ----- a lingering tenant -----

  /** Tenant name alone in the cluster, in its exclusive ingester k. */
  ghost predicate Alone(s: State, service: Key, name: string, t: Tenant, k: Key) {
    && s.tenants == map[name := t]
    && service in s.services && t.labels.service == Some(service.ns + ['.'] + service.name)
    && t.tenantId == name && t.ingester == Some(k)
    && s.ingesters.Keys == {k}
  }

  lemma PlacedAlone(service: Key, svc: Service, name: string, storage: string, foreign: string)
    returns (run: seq<State>, acts: seq<Action>, k: Key)
    requires Dotless(service) && name != "" && !IsOwn(foreign)
    ensures IsOperatorRun(run, acts) && run[0] == Start(service, svc)
    ensures var t := Admitted(NewTenant(service, storage, true, [foreign]), name).(ingester := Some(k));
      && Alone(run[|acts|], service, name, t, k) && run[|acts|].ingesters[k].spec.tenants == [name]
      && run[|acts|].services == map[service := svc]
  {
    var t := NewTenant(service, storage, true, [foreign]);
    run, acts := Introduced([Start(service, svc)], [], service, name, t);
    var s := run[|run| - 1];
    assert s.tenants == map[name := Admitted(t, name)];
    ServiceIsFound(s, service, s.tenants[name]);
    assert ServiceOf(s, s.tenants[name]) == Some(svc);
    k := Key(GroupNs(GroupOf(svc, t)), name);
    var p := PlaceExclusive(s, name, svc);
    PartIsWhole(s, name, p);
    run, acts := Advanced(run, acts, ReconcileTenant(name), p);
  }

  /** With any foreign finalizer: create, reconcile twice, delete, reconcile twice. The tenant now
      lingers without ingester and reference, and the next reconcile places it again. */
  lemma RevivalReached(service: Key, svc: Service, name: string, storage: string, foreign: string)
    returns (run: seq<State>, acts: seq<Action>)
    requires Dotless(service) && name != "" && !IsOwn(foreign)
    ensures IsOperatorRun(run, acts) && run[0] == Start(service, svc)
    ensures WouldRevive(run[|acts|], name) && Unlisted(run[|acts|], name)
  {
    var k;
    run, acts, k := PlacedAlone(service, svc, name, storage, foreign);
    var s := run[|acts|];
    var t := s.tenants[name].(deleting := true);
    var deleted := s.(tenants := s.tenants[name := t]);
    run, acts := Advanced(run, acts, DeleteTenant(name), deleted);
    ServiceIsFound(deleted, service, t);
    assert Alone(deleted, service, name, t, k);
    var finalized := LastReconcile(deleted, service, name, foreign, k);
    run, acts := Advanced(run, acts, ReconcileTenant(name), finalized);
    var evicted := EvictedAfter(finalized, service, name, foreign, k);
    run, acts := Advanced(run, acts, ReconcileTenant(name), evicted);
  }

  lemma Advanced(run: seq<State>, acts: seq<Action>, a: Action, s': State) returns (run': seq<State>, acts': seq<Action>)
    requires IsOperatorRun(run, acts) && OperatorNext(run[|run| - 1], a, s')
    ensures IsOperatorRun(run', acts') && run' == run + [s'] && acts' == acts + [a]
  {
    OperatorRunExtended(run, acts, a, s');
    run', acts' := run + [s'], acts + [a];
  }

  /** The reconcile of a tenant under deletion that another finalizer holds: its entry goes, and
      both of the operator's finalizers, not its reference. */
  lemma LastReconcile(s: State, service: Key, name: string, foreign: string, k: Key) returns (s': State)
    requires name in s.tenants && Alone(s, service, name, s.tenants[name], k) && Dotless(service)
    requires s.tenants[name].finalizers == [foreign] + [FINALIZER_INGESTER] + [C.FINALIZER_COMPACTOR] && !IsOwn(foreign)
    requires name != "" && s.tenants[name].deleting && s.ingesters[k].spec.tenants == [name]
    ensures WholeReconcile(s, name, s') && s'.ingesters[k].spec.tenants == []
    ensures Alone(s', service, name, s.tenants[name].(finalizers := [foreign]), k)
  {
    var t := s.tenants[name];
    ServiceIsFound(s, service, t);
    var svc := s.services[service];
    var m := Finalize(s, name, svc);
    assert ReconcilesTenant(s, name, m);
    WithoutSnoc([foreign] + [FINALIZER_INGESTER], C.FINALIZER_COMPACTOR, FINALIZER_INGESTER);
    WithoutSnoc([foreign], FINALIZER_INGESTER, FINALIZER_INGESTER);
    WithoutSnoc([], foreign, FINALIZER_INGESTER);
    assert [] + [foreign] == [foreign];
    assert m.tenants == map[name := t.(finalizers := [foreign] + [C.FINALIZER_COMPACTOR])];
    WithoutSnoc([foreign], C.FINALIZER_COMPACTOR, C.FINALIZER_COMPACTOR);
    WithoutSnoc([], foreign, C.FINALIZER_COMPACTOR);
    s' := AfterCompactor(m, name);
    assert Without(s.ingesters[k].spec.tenants, name) == [];
    assert m.ingesters.Keys == {k} && m.ingesters[k].spec.tenants == [];
    assert s'.tenants == map[name := t.(finalizers := [foreign])];
  }

  /** The reconcile after that clears the reference. */
  lemma EvictedAfter(s: State, service: Key, name: string, foreign: string, k: Key) returns (s': State)
    requires name in s.tenants && Alone(s, service, name, s.tenants[name], k) && Dotless(service)
    requires s.tenants[name].finalizers == [foreign] && !IsOwn(foreign)
    requires name != "" && s.tenants[name].deleting && s.ingesters[k].spec.tenants == []
    ensures WholeReconcile(s, name, s') && WouldRevive(s', name) && Unlisted(s', name)
  {
    ServiceIsFound(s, service, s.tenants[name]);
    var svc := s.services[service];
    assert NeedsReset(s, name, svc);
    s' := Evict(s, name, svc);
    PartIsWhole(s, name, s');
    ServiceIsFound(s', service, s'.tenants[name]);
  }

  // ----- displaced tenants -----

  /** The last step is a reconcile of tenant name that takes y off the list of k. */
  ghost predicate EndsInDisplacement(run: seq<State>, acts: seq<Action>, name: string, k: Key, y: string) {
    && IsOperatorRun(run, acts) && |acts| > 0
    && acts[|acts| - 1] == ReconcileTenant(name)
    && name in run[|acts| - 1].tenants && Id(name, run[|acts| - 1].tenants[name]) != y
    && Lists(run[|acts| - 1], k, y) && !Lists(run[|acts|], k, y)
  }

  predicate IsResolved(storage: string) { storage != "" && storage != DEFAULT_STORAGE }

  function GroupNamed(service: Key, storage: string): Group { Group(service.ns + ['.'] + service.name, storage) }

  /** Tenant a alone in the first automatic ingester of its group. */
  ghost predicate InFirst(s: State, service: Key, svc: Service, a: string, storage: string) {
    var g := GroupNamed(service, storage);
    && s.tenants == map[a := Admitted(NewTenant(service, storage, false, []), a).(ingester := Some(AutoKey(g, 0)))]
    && s.services == map[service := svc]
    && s.ingesters == map[AutoKey(g, 0) := NewIngester(g, a, false)]
  }

  lemma FirstPlaced(service: Key, svc: Service, a: string, storage: string)
    returns (run: seq<State>, acts: seq<Action>)
    requires Dotless(service) && a != "" && IsResolved(storage)
    ensures IsOperatorRun(run, acts) && run[0] == Start(service, svc)
    ensures InFirst(run[|acts|], service, svc, a, storage)
  {
    var t := NewTenant(service, storage, false, []);
    run, acts := Introduced([Start(service, svc)], [], service, a, t);
    var s := run[|run| - 1];
    ServiceIsFound(s, service, s.tenants[a]);
    var g := GroupNamed(service, storage);
    assert GroupOf(svc, s.tenants[a]) == g;
    assert Holders(s, g, a) == {};
    assert LeastOpen(s, g, svc.limit, 0);
    var p := PlaceAt(s, a, svc, 0);
    assert ReconcilesTenant(s, a, p);
    PartIsWhole(s, a, p);
    run, acts := Advanced(run, acts, ReconcileTenant(a), p);
  }

  /** Any two storages whose groups collide: the second tenant's placement finds no ingester in its
      group and writes over the first one's. */
  lemma DisplacementReached(service: Key, svc: Service, a: string, b: string, first: string, second: string)
    returns (run: seq<State>, acts: seq<Action>, k: Key)
    requires Dotless(service) && a != "" && b != "" && a != b
    requires IsResolved(first) && IsResolved(second) && first != second
    requires Base(GroupNamed(service, first)) == Base(GroupNamed(service, second))
    ensures run != [] && run[0] == Start(service, svc) && EndsInDisplacement(run, acts, b, k, a)
  {
    k := AutoKey(GroupNamed(service, first), 0);
    PartsAre(service.ns, service.name);
    AutoKeysMeetIff(GroupNamed(service, first), 0, GroupNamed(service, second), 0);
    run, acts := FirstPlaced(service, svc, a, first);
    run, acts := Introduced(run, acts, service, b, NewTenant(service, second, false, []));
    var p := PlacedOver(run[|run| - 1], service, svc, a, b, first, second);
    run, acts := Advanced(run, acts, ReconcileTenant(b), p);
  }

  /** Such as two storages of one name in different namespaces. */
  lemma StorageNamespacesDisplace(service: Key, svc: Service, a: string, b: string, m: string, n: string, x: string)
    returns (run: seq<State>, acts: seq<Action>, k: Key)
    requires Dotless(service) && a != "" && b != "" && a != b
    requires '.' !in m && '.' !in n && '.' !in x && m != n
    ensures run != [] && run[0] == Start(service, svc) && EndsInDisplacement(run, acts, b, k, a)
  {
    var first, second := m + ['.'] + x, n + ['.'] + x;
    assert first[|m|] == '.' && second[|n|] == '.';
    if first == second {
      FirstCutUnique(m, x, n, x, '.');
    }
    PartsAre(m, x);
    PartsAre(n, x);
    run, acts, k := DisplacementReached(service, svc, a, b, first, second);
  }

  lemma PlacedOver(s: State, service: Key, svc: Service, a: string, b: string, first: string, second: string)
    returns (p: State)
    requires Dotless(service) && IsResolved(second) && first != second && b != "" && a != b
    requires s.services == map[service := svc] && b in s.tenants
    requires s.tenants[b] == Admitted(NewTenant(service, second, false, []), b)
    requires var g := GroupNamed(service, first);
      && s.ingesters == map[AutoKey(g, 0) := NewIngester(g, a, false)]
      && AutoKey(g, 0) == AutoKey(GroupNamed(service, second), 0)
    ensures WholeReconcile(s, b, p) && !Lists(p, AutoKey(GroupNamed(service, second), 0), a)
    ensures p == PlaceAt(s, b, svc, 0)
  {
    var h := GroupNamed(service, second);
    ServiceIsFound(s, service, s.tenants[b]);
    assert GroupOf(svc, s.tenants[b]) == h;
    assert Members(s, h) == {};
    assert LeastOpen(s, h, svc.limit, 0);
    p := PlaceAt(s, b, svc, 0);
    assert ReconcilesTenant(s, b, p);
    PartIsWhole(s, b, p);
  }

  /** An exclusive tenant that is named like the first automatic ingester of its group. */
  lemma ExclusiveDisplacementReached(service: Key, svc: Service, a: string, storage: string)
    returns (run: seq<State>, acts: seq<Action>, k: Key)
    requires Dotless(service) && a != "" && IsResolved(storage)
    requires a != AutoName(GroupNamed(service, storage), 0)
    ensures run != [] && run[0] == Start(service, svc) && EndsInDisplacement(run, acts, k.name, k, a)
  {
    var g := GroupNamed(service, storage);
    k := AutoKey(g, 0);
    var b := k.name;
    run, acts := FirstPlaced(service, svc, a, storage);
    run, acts := Introduced(run, acts, service, b, NewTenant(service, storage, true, []));
    var p := PlacedExclusivelyOver(run[|run| - 1], service, svc, b, storage);
    run, acts := Advanced(run, acts, ReconcileTenant(b), p);
  }

  lemma PlacedExclusivelyOver(s: State, service: Key, svc: Service, b: string, storage: string) returns (p: State)
    requires Dotless(service) && IsResolved(storage) && s.services == map[service := svc]
    requires b in s.tenants && s.tenants[b] == Admitted(NewTenant(service, storage, true, []), b) && b != ""
    ensures WholeReconcile(s, b, p)
    ensures var k := Key(GroupNs(GroupNamed(service, storage)), b); k in p.ingesters && p.ingesters[k].spec.tenants == [b]
  {
    ServiceIsFound(s, service, s.tenants[b]);
    assert GroupOf(svc, s.tenants[b]) == GroupNamed(service, storage);
    p := PlaceExclusive(s, b, svc);
    assert ReconcilesTenant(s, b, p);
    PartIsWhole(s, b, p);
  }

  // ----- colliding groups never settle -----

  /** Two tenants whose groups share the automatic name k: a is placed in it, b is not placed. */
  ghost predicate Fighting(s: State, service: Key, svc: Service, a: string, b: string, first: string, second: string) {
    var g := GroupNamed(service, first);
    var k := AutoKey(g, 0);
    && a != b && a != "" && b != "" && first != second && IsResolved(first) && IsResolved(second)
    && AutoKey(GroupNamed(service, second), 0) == k
    && s.services == map[service := svc]
    && s.tenants == map[a := Admitted(NewTenant(service, first, false, []), a).(ingester := Some(k)),
                        b := Admitted(NewTenant(service, second, false, []), b)]
    && s.ingesters == map[k := NewIngester(g, a, false)]
  }

  /** b is placed over a's ingester, a's reference is cleared, and the two have changed places. */
  lemma PlacesChanged(s: State, service: Key, svc: Service, a: string, b: string, first: string, second: string)
    returns (s1: State, s2: State)
    requires Dotless(service) && Fighting(s, service, svc, a, b, first, second)
    ensures WholeReconcile(s, b, s1) && WholeReconcile(s1, a, s2)
    ensures s1 != s && s2 != s1 && s2.now == s.now && Fighting(s2, service, svc, b, a, second, first)
  {
    var h := GroupNamed(service, second);
    var k := AutoKey(h, 0);
    s1 := PlacedOver(s, service, svc, a, b, first, second);
    ServiceIsFound(s1, service, s1.tenants[a]);
    assert a !in s1.ingesters[k].spec.tenants;
    assert NeedsReset(s1, a, svc);
    s2 := Evict(s1, a, svc);
    assert s2.ingesters == s1.ingesters;
    assert s2.tenants[a] == Admitted(NewTenant(service, first, false, []), a);
    assert s2.tenants.Keys == {a, b};
    PartIsWhole(s1, a, s2);
  }

  /** So with colliding groups no bound on productive reconciles exists: four of them lead back. */
  lemma CollidingNeverSettle(s: State, service: Key, svc: Service, a: string, b: string, first: string, second: string)
    returns (s1: State, s2: State, s3: State)
    requires Dotless(service) && Fighting(s, service, svc, a, b, first, second)
    ensures WholeReconcile(s, b, s1) && WholeReconcile(s1, a, s2) && WholeReconcile(s2, a, s3) && WholeReconcile(s3, b, s)
    ensures s1 != s && s2 != s1 && s3 != s2 && s != s3
  {
    s1, s2 := PlacesChanged(s, service, svc, a, b, first, second);
    var s4;
    s3, s4 := PlacesChanged(s2, service, svc, b, a, second, first);
    assert s4.tenants == s.tenants;
    assert s4 == s;
  }

  lemma FightReached(service: Key, svc: Service, a: string, b: string, first: string, second: string)
    returns (run: seq<State>, acts: seq<Action>)
    requires Dotless(service) && a != "" && b != "" && a != b
    requires IsResolved(first) && IsResolved(second) && first != second
    requires Base(GroupNamed(service, first)) == Base(GroupNamed(service, second))
    ensures IsOperatorRun(run, acts) && Fighting(run[|acts|], service, svc, a, b, first, second)
  {
    PartsAre(service.ns, service.name);
    AutoKeysMeetIff(GroupNamed(service, first), 0, GroupNamed(service, second), 0);
    run, acts := FirstPlaced(service, svc, a, first);
    run, acts := Introduced(run, acts, service, b, NewTenant(service, second, false, []));
  }

  // ----- a deletion that is never finished -----

  /** Placed, then given the label of a Service that does not exist, then deleted: the tenant stays
      listed, and no reconcile changes anything. */
  lemma NeverFinalizedReached(service: Key, svc: Service, name: string, storage: string, foreign: string, missing: string)
    returns (run: seq<State>, acts: seq<Action>, k: Key)
    requires Dotless(service) && name != "" && !IsOwn(foreign)
    requires FindService(map[service := svc], missing).None?
    ensures IsOperatorRun(run, acts) && run[0] == Start(service, svc)
    ensures var s := run[|acts|];
      && name in s.tenants && s.tenants[name].deleting && Lists(s, k, name)
      && forall s' :: WholeReconcile(s, name, s') ==> s' == s
  {
    run, acts, k := PlacedAlone(service, svc, name, storage, foreign);
    var s := run[|acts|];
    var labels := s.tenants[name].labels.(service := Some(missing));
    var moved := s.(tenants := s.tenants[name := s.tenants[name].(labels := labels)]);
    run, acts := Advanced(run, acts, Relabel(name, labels), moved);
    var deleted := moved.(tenants := moved.tenants[name := moved.tenants[name].(deleting := true)]);
    run, acts := Advanced(run, acts, DeleteTenant(name), deleted);
    assert deleted.services == map[service := svc];
  }
}
