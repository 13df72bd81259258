/** The tenant controller and the ingester controller as they run: objects that read and write
    the API server, proved to perform the transitions of module Allocation. */
module Controllers {
  import opened Text
  import opened Cluster
  import opened Allocation
  import opened Placement
  import O = OperatorRuns
  import C = Compaction
  import opened IngesterStatus

  method ContainsString(slice: seq<string>, x: string) returns (found: bool)
    ensures found <==> x in slice
  {
    for i := 0 to |slice|
      invariant x !in slice[..i]
    {
      if slice[i] == x {
        return true;
      }
    }
    return false;
  }

  method RemoveString(slice: seq<string>, x: string) returns (result: seq<string>)
    ensures result == Without(slice, x)
  {
    result := [];
    for i := 0 to |slice|
      invariant result == Without(slice[..i], x)
    {
      assert slice[..i + 1] == slice[..i] + [slice[i]];
      WithoutSnoc(slice[..i], slice[i], x);
      if slice[i] != x {
        result := result + [slice[i]];
      }
    }
    assert slice[..|slice|] == slice;
  }

  lemma {:induction false} DropStatusSnoc(status: seq<TenantStatus>, e: TenantStatus, name: string)
    ensures DropStatus(status + [e], name) == DropStatus(status, name) + (if e.name == name then [] else [e])
  {
    if status == [] {
      assert status + [e] == [e] && [e][1..] == [];
    } else {
      var rest := status[1..];
      assert (status + [e])[1..] == rest + [e] && (status + [e])[0] == status[0];
      DropStatusSnoc(rest, e, name);
      var head := if status[0].name == name then [] else [status[0]];
      assert DropStatus(status + [e], name) == head + DropStatus(rest + [e], name);
      assert DropStatus(status, name) == head + DropStatus(rest, name);
    }
  }

  /** The API server: every call succeeds, reads are up to date. */
  class Api {
    var tenants: map<string, Tenant>
    var ingesters: map<Key, Ingester>
    var services: map<Key, Service>
    var now: int

    ghost function Snapshot(): State
      reads this
    {
      State(tenants, ingesters, services, now)
    }

    /** util.CreateOrUpdate on an Ingester. */
    method CreateOrUpdate(k: Key, desired: Ingester)
      modifies this`ingesters
      ensures ingesters == Upsert(old(ingesters), k, desired)
    {
      if k !in ingesters {
        ingesters := ingesters[k := desired.(status := [])];
      } else {
        var current := ingesters[k];
        var merged := desired.(labels := MergeLabels(current.labels, desired.labels),
                               annotations := MergeAnnotations(current.annotations, desired.annotations),
                               status := current.status);
        ingesters := ingesters[k := merged];
      }
    }

    /** Client.Update on a Tenant: metadata and spec, not the status. */
    method UpdateTenant(name: string, t: Tenant)
      requires name in tenants
      modifies this`tenants
      ensures Snapshot() == WriteTenant(old(Snapshot()), name, t.(ingester := old(tenants[name].ingester)))
    {
      if t.deleting && |t.finalizers| == 0 {
        tenants := tenants - {name};
      } else {
        tenants := tenants[name := t.(ingester := tenants[name].ingester)];
      }
    }

    /** Client.Status().Update on a Tenant: the status only. */
    method UpdateTenantStatus(name: string, t: Tenant)
      requires name in tenants
      modifies this`tenants
      ensures Snapshot() == SetIngesterRef(old(Snapshot()), name, t.ingester)
    {
      tenants := tenants[name := tenants[name].(ingester := t.ingester)];
    }

    /** Client.List on Ingesters: a namespace, a service label and perhaps a storage label. */
    method List(ns: string, service: string, storage: Option<string>) returns (items: seq<Key>)
      ensures NoDup(items)
      ensures forall k :: k in items <==> k in ingesters && Selected(k, ingesters[k], ns, service, storage)
    {
      items := [];
      var rest := ingesters.Keys;
      while rest != {}
        invariant rest <= ingesters.Keys && NoDup(items)
        invariant forall k :: k in items <==>
                    k in ingesters && k !in rest && Selected(k, ingesters[k], ns, service, storage)
        decreases |rest|
      {
        var k :| k in rest;
        rest := rest - {k};
        if Selected(k, ingesters[k], ns, service, storage) {
          items := items + [k];
        }
      }
    }
  }

  predicate Selected(k: Key, ing: Ingester, ns: string, service: string, storage: Option<string>) {
    k.ns == ns && ing.labels.service == Some(service) && (storage.Some? ==> ing.labels.storage == storage)
  }

  /** One reconcile of one Tenant: the object fetched from the API, with its id defaulted, and
      the Service its label names. */
  class TenantReconciler {
    const api: Api
    const name: string
    const service: Service
    var tenant: Tenant

    constructor (api: Api, name: string, service: Service, tenant: Tenant)
      ensures this.api == api && this.name == name && this.service == service && this.tenant == tenant
    {
      this.api := api;
      this.name := name;
      this.service := service;
      this.tenant := tenant;
    }

    /** The in-memory object still is what the API server holds. */
    ghost predicate Fetched()
      reads this, api
    {
      && name in api.tenants
      && tenant == api.tenants[name].(tenantId := Id(name, api.tenants[name]))
      && tenant.tenantId == Id(name, api.tenants[name])
      && ServiceOf(api.Snapshot(), api.tenants[name]) == Some(service)
    }

    method NeedResetIngester() returns (need: bool)
      requires Fetched()
      ensures need <==> NeedsReset(api.Snapshot(), name, service)
    {
      if tenant.ingester.None? {
        return false;
      }
      var k := tenant.ingester.value;
      if k !in api.ingesters {
        return true;
      }
      var ing := api.ingesters[k];
      var listed := ContainsString(ing.spec.tenants, tenant.tenantId);
      if !listed {
        return true;
      }
      if ing.labels.service.None? || ing.labels.service.value != OrEmpty(tenant.labels.service) {
        return true;
      }
      if ing.labels.storage.None?
        || ing.labels.storage.value != ResolveStorage(service, OrEmpty(tenant.labels.storage)) {
        return true;
      }
      if tenant.labels.exclusive == Some("true") {
        if ing.labels.exclusive.None? || ing.labels.exclusive.value != "true" || k.name != name {
          return true;
        }
      } else {
        if ing.labels.exclusive == Some("true") && k.name == name {
          return true;
        }
      }
      return false;
    }

    /** The retention of an emptied ingester, with the source's detours: an unset local retention
        parses to zero, and zero falls back to the default. */
    method RetentionPeriod(ing: Ingester) returns (period: int)
      ensures period == Retention(service, ing)
    {
      period := 0;
      if ing.labels.storage.Some? && ing.labels.storage.value != LOCAL_STORAGE {
        period := service.retention;
      } else {
        if ing.spec.localRetention.Some? {
          period := ing.spec.localRetention.value;
        }
        if period <= 0 {
          period := service.retention;
        }
      }
    }

    method RemoveTenantFromIngesterByName(k: Key)
      modifies this`tenant, api`ingesters
      ensures tenant == old(tenant).(ingester := None)
      ensures api.Snapshot() == Detach(old(api.Snapshot()), k, old(tenant).tenantId, service)
    {
      tenant := tenant.(ingester := None);
      if k !in api.ingesters {
        return;
      }
      var ing := api.ingesters[k];
      var listed := ContainsString(ing.spec.tenants, tenant.tenantId);
      if listed {
        var rest := RemoveString(ing.spec.tenants, tenant.tenantId);
        ing := ing.(spec := ing.spec.(tenants := rest));
        if |ing.spec.tenants| == 0 {
          var period := RetentionPeriod(ing);
          ing := ing.(annotations := Annotations(Some(Deleting), Some(At(UnixSeconds(api.now + period)))));
        }
        api.CreateOrUpdate(k, ing);
      }
    }

    /** The deletion branch's sweep over the ingesters of the service. */
    method CleanStatuses(service: Key)
      modifies api`ingesters
      ensures api.ingesters == DropFromStatuses(old(api.ingesters), service, name)
      ensures Dropped(old(api.ingesters), api.ingesters, service, name)
    {
      var items := api.List(service.ns, service.ns + "." + service.name, None);
      ghost var before := api.ingesters;
      for i := 0 to |items|
        invariant api.ingesters.Keys == before.Keys
        invariant forall k :: k in before ==>
                    api.ingesters[k] == if k in items[..i] then before[k].(status := DropStatus(before[k].status, name))
                                        else before[k]
      {
        var k := items[i];
        assert k in items && k !in items[..i];
        assert k in before && api.ingesters[k] == before[k];
        var ing := api.ingesters[k];
        ghost var here := api.ingesters;
        var kept: seq<TenantStatus> := [];
        for j := 0 to |ing.status|
          invariant api.ingesters == here
          invariant kept == DropStatus(ing.status[..j], name)
        {
          assert ing.status[..j + 1] == ing.status[..j] + [ing.status[j]];
          DropStatusSnoc(ing.status[..j], ing.status[j], name);
          if ing.status[j].name != name {
            kept := kept + [ing.status[j]];
          }
        }
        assert ing.status[..|ing.status|] == ing.status;
        if kept != ing.status {
          api.ingesters := api.ingesters[k := ing.(status := kept)];
        }
        assert api.ingesters[k] == before[k].(status := DropStatus(before[k].status, name));
        assert forall l :: l in items[..i + 1] <==> l in items[..i] || l == k;
      }
      assert items[..|items|] == items;
      assert forall k :: k in before ==> (k in items <==> IsCleaned(k, before[k], service));
      assert api.ingesters == DropFromStatuses(before, service, name);
      DropFromStatusesDrops(before, service, name);
    }

    /** The labels name the service by a label of two parts. */
    ghost predicate IsLabelOf(key: Key, labels: Labels) {
      '.' !in key.ns && '.' !in key.name && labels.service == Some(key.ns + ['.'] + key.name)
    }

    method FinalizeTenant()
      requires Fetched() && tenant.deleting && FINALIZER_INGESTER in tenant.finalizers
      modifies this`tenant, api`ingesters, api`tenants
      ensures api.Snapshot() == Finalize(old(api.Snapshot()), name, service)
      ensures forall key :: IsLabelOf(key, old(tenant.labels)) ==> Dropped(old(api.ingesters), api.ingesters, key, name)
    {
      ghost var s := api.Snapshot();
      forall key | IsLabelOf(key, tenant.labels) ensures Dropped(s.ingesters, Finalize(s, name, service).ingesters, key, name) {
        FinalizeDrops(s, name, key, service);
      }
      if tenant.ingester.Some? {
        RemoveTenantFromIngesterByName(tenant.ingester.value);
      }
      var parts := Split(OrEmpty(tenant.labels.service), '.');
      CleanStatuses(Key(parts[0], parts[1]));
      var rest := RemoveString(tenant.finalizers, FINALIZER_INGESTER);
      tenant := tenant.(finalizers := rest);
      assert api.tenants == s.tenants;
      api.UpdateTenant(name, tenant);
    }

    /** Choosing among the ingesters of the group, by index: the first missing name or the first
        ingester with room. The loop bound is one more than the number of listed ingesters. */
    method PlaceByIndex(g: Group, ghost members: set<Key>, mapping: map<string, Ingester>)
      requires Fetched() && g == GroupOf(service, tenant)
      requires members == Members(api.Snapshot(), g)
      requires forall k :: k in members ==> k.name in mapping && mapping[k.name] == api.ingesters[k]
      requires forall n :: n in mapping ==> Key(GroupNs(g), n) in members
      modifies this`tenant, api`ingesters, api`tenants
      ensures exists i: nat :: LeastOpen(old(api.Snapshot()), g, service.limit, i)
                               && api.Snapshot() == PlaceAt(old(api.Snapshot()), name, service, i)
    {
      ghost var s := api.Snapshot();
      var i := FindIndex(g, members, mapping);
      var n := AutoName(g, i);
      var k := Key(GroupNs(g), n);
      var chosen := NewIngester(g, tenant.tenantId, false);
      if n in mapping {
        chosen := WithTenant(mapping[n], tenant.tenantId);
      }
      tenant := tenant.(ingester := Some(k));
      api.CreateOrUpdate(k, chosen);
      api.UpdateTenantStatus(name, tenant);
      assert api.Snapshot() == PlaceAt(s, name, service, i);
    }

    method FindIndex(g: Group, ghost members: set<Key>, mapping: map<string, Ingester>) returns (i: nat)
      requires Fetched() && g == GroupOf(service, tenant)
      requires members == Members(api.Snapshot(), g)
      requires forall k :: k in members ==> k.name in mapping && mapping[k.name] == api.ingesters[k]
      requires forall n :: n in mapping ==> Key(GroupNs(g), n) in members
      ensures LeastOpen(api.Snapshot(), g, service.limit, i)
    {
      ghost var s := api.Snapshot();
      MappingSize(mapping, members, GroupNs(g));
      LeastOpenExists(s, g, service.limit);
      ghost var least: nat :| least <= |members| && LeastOpen(s, g, service.limit, least);
      i := 0;
      while i < |mapping| + 1
        invariant i <= least
      {
        MappingShowsOpen(s, g, service.limit, members, mapping, i);
        if i < least {
          BelowLeast(s, g, service.limit, least, i);
        }
        var n := AutoName(g, i);
        if n in mapping {
          if |mapping[n].spec.tenants| < service.limit {
            break;
          }
        } else {
          break;
        }
        i := i + 1;
      }
    }

    method PlaceAmongShared()
      requires Fetched()
      modifies this`tenant, api`ingesters, api`tenants
      ensures PlaceShared(old(api.Snapshot()), name, service, api.Snapshot())
    {
      ghost var s := api.Snapshot();
      var g := Group(OrEmpty(tenant.labels.service), ResolveStorage(service, OrEmpty(tenant.labels.storage)));
      var parts := Split(g.service, '.');
      var items := api.List(parts[0], g.service, Some(g.storage));
      ghost var members := Members(s, g);
      assert forall k :: k in items <==> k in members;

      var mapping: map<string, Ingester> := map[];
      for i := 0 to |items|
        invariant forall j :: 0 <= j < i ==>
                    items[j].name in mapping && mapping[items[j].name] == api.ingesters[items[j]]
        invariant forall n :: n in mapping ==> Key(parts[0], n) in items[..i]
      {
        mapping := mapping[items[i].name := api.ingesters[items[i]]];
      }

      for i := 0 to |items|
        invariant Fetched() && api.Snapshot() == s && tenant == old(tenant)
        invariant forall j :: 0 <= j < i ==> tenant.tenantId !in api.ingesters[items[j]].spec.tenants
      {
        var listed := ContainsString(api.ingesters[items[i]].spec.tenants, tenant.tenantId);
        if listed {
          assert items[i] in items;
          assert items[i] in Holders(s, g, tenant.tenantId);
          tenant := tenant.(ingester := Some(items[i]));
          api.UpdateTenantStatus(name, tenant);
          return;
        }
      }
      assert Holders(s, g, tenant.tenantId) == {} by {
        forall k | k in members ensures tenant.tenantId !in s.ingesters[k].spec.tenants {
          assert k in items;
        }
      }
      PlaceByIndex(g, members, mapping);
    }

    method PlaceInExclusive()
      requires Fetched()
      modifies this`tenant, api`ingesters, api`tenants
      ensures api.Snapshot() == PlaceExclusive(old(api.Snapshot()), name, service)
    {
      var g := Group(OrEmpty(tenant.labels.service), ResolveStorage(service, OrEmpty(tenant.labels.storage)));
      var parts := Split(g.service, '.');
      var k := Key(parts[0], name);
      tenant := tenant.(ingester := Some(k));
      api.CreateOrUpdate(k, NewIngester(g, tenant.tenantId, true));
      api.UpdateTenantStatus(name, tenant);
    }

    /** ingester(): the whole ingester part of a tenant reconcile. */
    method Ingester()
      requires Fetched()
      modifies this`tenant, api`ingesters, api`tenants
      ensures TenantStep(old(api.Snapshot()), name, service, api.Snapshot())
    {
      var finalized := ContainsString(tenant.finalizers, FINALIZER_INGESTER);
      if !tenant.deleting {
        if !finalized {
          tenant := tenant.(finalizers := tenant.finalizers + [FINALIZER_INGESTER]);
          api.UpdateTenant(name, tenant);
          return;
        }
      } else {
        if finalized {
          FinalizeTenant();
          return;
        }
      }
      var need := NeedResetIngester();
      if need {
        RemoveTenantFromIngesterByName(tenant.ingester.value);
        api.UpdateTenantStatus(name, tenant);
        return;
      }
      if tenant.labels.exclusive == Some("true") {
        PlaceInExclusive();
        return;
      }
      PlaceAmongShared();
    }
  }

  lemma MappingShowsOpen(s: State, g: Group, limit: int, members: set<Key>, mapping: map<string, Ingester>, i: nat)
    requires members == Members(s, g)
    requires forall k :: k in members ==> k.name in mapping && mapping[k.name] == s.ingesters[k]
    requires forall n :: n in mapping ==> Key(GroupNs(g), n) in members
    ensures Open(s, g, limit, i) <==>
      AutoName(g, i) !in mapping || |mapping[AutoName(g, i)].spec.tenants| < limit
  {
    assert AutoKey(g, i).name == AutoName(g, i);
  }

  lemma MappingSize(mapping: map<string, Ingester>, members: set<Key>, ns: string)
    requires forall k :: k in members ==> k.ns == ns && k.name in mapping
    requires forall n :: n in mapping ==> Key(ns, n) in members
    ensures |mapping| == |members|
  {
    KeySetSize(mapping.Keys, members, ns);
    assert |mapping| == |mapping.Keys|;
  }

  lemma {:induction false} KeySetSize(names: set<string>, members: set<Key>, ns: string)
    requires forall k :: k in members ==> k.ns == ns && k.name in names
    requires forall n :: n in names ==> Key(ns, n) in members
    ensures |names| == |members|
    decreases |names|
  {
    if names == {} {
      assert members == {} by {
        if k :| k in members {
          assert k.name in names;
        }
      }
    } else {
      var n :| n in names;
      var k := Key(ns, n);
      KeySetSize(names - {n}, members - {k}, ns);
    }
  }

  /** The controller around it: fetch, default the id, require a service label, find the Service. A
      label without a dot panics in the search. */
  method ReconcileTenantObject(api: Api, name: string) returns (panicked: bool)
    modifies api`ingesters, api`tenants
    ensures ReconcilesTenant(old(api.Snapshot()), name, api.Snapshot())
    ensures panicked <==>
      && name in old(api.tenants)
      && ServiceLabel(old(api.tenants)[name]) != "" && |Split(ServiceLabel(old(api.tenants)[name]), '.')| < 2
  {
    panicked := false;
    if name !in api.tenants {
      return;
    }
    var instance := api.tenants[name];
    if instance.tenantId == "" {
      instance := instance.(tenantId := name);
    }
    if instance.labels.service.None? || instance.labels.service.value == "" {
      return;
    }
    var parts := Split(instance.labels.service.value, '.');
    if |parts| < 2 {
      return true;
    }
    if Key(parts[0], parts[1]) !in api.services {
      return;
    }
    var r := new TenantReconciler(api, name, api.services[Key(parts[0], parts[1])], instance);
    r.Ingester();
  }

  /** The write of the compactor's finalizer, at the beginning of compactor(). */
  method WriteCompactorFinalizer(api: Api, name: string)
    modifies api`tenants
    ensures api.Snapshot() == O.AfterCompactor(old(api.Snapshot()), name)
  {
    if name !in api.tenants {
      return;
    }
    var t := api.tenants[name];
    var finalized := ContainsString(t.finalizers, C.FINALIZER_COMPACTOR);
    if t.deleting == finalized {
      O.PendingIff(api.Snapshot(), name);
      if t.tenantId == "" {
        t := t.(tenantId := name);
      }
      var finalizers := t.finalizers + [C.FINALIZER_COMPACTOR];
      if t.deleting {
        finalizers := RemoveString(t.finalizers, C.FINALIZER_COMPACTOR);
      }
      api.UpdateTenant(name, t.(finalizers := finalizers));
    } else {
      O.PendingIff(api.Snapshot(), name);
    }
  }

  /** Tenant.Reconcile as far as finalizers and ingesters go: the ingester's part and then the
      compactor's. */
  method ReconcileWholeTenant(api: Api, name: string)
    modifies api`ingesters, api`tenants
    ensures O.WholeReconcile(old(api.Snapshot()), name, api.Snapshot())
  {
    if name !in api.tenants {
      return;
    }
    var parts := Split(OrEmpty(api.tenants[name].labels.service), '.');
    var found := |parts| >= 2 && Key(parts[0], parts[1]) in api.services;
    var panicked := ReconcileTenantObject(api, name);
    if found && !panicked {
      WriteCompactorFinalizer(api, name);
    }
  }

  // ----- the ingester controller -----

  /** The status the spec asks for, by the source's two loops over the old status and the spec. */
  method DesiredStatus(tenants: seq<string>, status: seq<TenantStatus>) returns (desired: seq<TenantStatus>)
    ensures desired == MergeStatus(tenants, status)
  {
    var tenantSet: set<string> := {};
    for i := 0 to |tenants|
      invariant forall x :: x in tenantSet <==> x in tenants[..i]
    {
      tenantSet := tenantSet + {tenants[i]};
    }
    var known: set<string> := {};
    desired := [];
    for i := 0 to |status|
      invariant forall x :: x in known <==> InStatus(status[..i], x)
      invariant desired == MarkObsolete(tenants, status[..i])
    {
      InStatusSnoc(status[..i], status[i]);
      MarkObsoleteSnoc(tenants, status[..i], status[i]);
      assert status[..i + 1] == status[..i] + [status[i]];
      known := known + {status[i].name};
      desired := desired + [TenantStatus(status[i].name, status[i].name !in tenantSet)];
    }
    assert status[..|status|] == status;
    for i := 0 to |tenants|
      invariant desired == MarkObsolete(tenants, status) + NewNames(tenants[..i], status)
    {
      NewNamesSnoc(tenants[..i], tenants[i], status);
      assert tenants[..i + 1] == tenants[..i] + [tenants[i]];
      if tenants[i] !in known {
        desired := desired + [TenantStatus(tenants[i], false)];
      }
    }
    assert tenants[..|tenants|] == tenants;
  }

  lemma InStatusSnoc(status: seq<TenantStatus>, e: TenantStatus)
    ensures forall x :: InStatus(status + [e], x) <==> InStatus(status, x) || x == e.name
  {
    var all := status + [e];
    forall x ensures InStatus(all, x) <==> InStatus(status, x) || x == e.name {
      if i :| 0 <= i < |status| && status[i].name == x {
        assert all[i].name == x;
      }
      assert all[|status|].name == e.name;
    }
  }

  lemma {:induction false} MarkObsoleteSnoc(tenants: seq<string>, status: seq<TenantStatus>, e: TenantStatus)
    ensures MarkObsolete(tenants, status + [e])
         == MarkObsolete(tenants, status) + [TenantStatus(e.name, e.name !in tenants)]
  {
    if status == [] {
      assert status + [e] == [e];
    } else {
      assert (status + [e])[1..] == status[1..] + [e];
      MarkObsoleteSnoc(tenants, status[1..], e);
    }
  }

  lemma {:induction false} NewNamesSnoc(tenants: seq<string>, x: string, status: seq<TenantStatus>)
    ensures NewNames(tenants + [x], status)
         == NewNames(tenants, status) + (if InStatus(status, x) then [] else [TenantStatus(x, false)])
  {
    if tenants == [] {
      assert tenants + [x] == [x];
    } else {
      assert (tenants + [x])[1..] == tenants[1..] + [x];
      NewNamesSnoc(tenants[1..], x, status);
    }
  }

  /** Reconcile of the ingester controller, up to the generation of the workload. */
  method ReconcileIngesterObject(api: Api, k: Key) returns (outcome: IngesterOutcome)
    modifies api`ingesters
    ensures outcome == IngesterReaction(old(api.Snapshot()), k)
    ensures api.Snapshot() == AfterIngester(old(api.Snapshot()), k)
  {
    if k !in api.ingesters {
      return Ignored;
    }
    var ing := api.ingesters[k];
    if ing.labels.service.None? || ing.labels.service.value == "" {
      return Ignored;
    }
    var parts := Split(ing.labels.service.value, '.');
    if |parts| != 2 {
      return Panicked;
    }
    if Key(parts[0], parts[1]) !in api.services {
      return Ignored;
    }
    var desired := DesiredStatus(ing.spec.tenants, ing.status);
    if desired != ing.status {
      api.ingesters := api.ingesters[k := ing.(status := desired)];
      return StatusWritten;
    }
    if ing.annotations.phase == Some(Deleting) && |ing.spec.tenants| == 0 {
      if ing.annotations.deletingTime.Some? && ing.annotations.deletingTime.value.At? {
        var d := api.now - ing.annotations.deletingTime.value.sec * SECOND;
        if d < 0 {
          return Requeued(-d);
        } else {
          api.ingesters := api.ingesters - {k};
          return Recycled;
        }
      }
    }
    return Applied;
  }
}
