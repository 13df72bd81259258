/** The compactor part of a tenant reconcile as it runs, proved to perform the transitions of
    module Compaction. */
module CompactorController {
  import opened Text
  import opened Cluster
  import C = Compaction
  import opened Controllers

  class CompactorApi {
    var clients: map<string, C.Client>
    var compactors: map<Key, C.Compactor>
    var services: map<Key, Service>

    ghost function Snapshot(): C.Compactors
      reads this
    {
      C.Compactors(clients, compactors, services)
    }

    /** util.CreateOrUpdate on a named Compactor. */
    method CreateOrUpdate(k: Key, desired: C.Compactor)
      modifies this`compactors
      ensures compactors == C.Upsert(old(compactors), k, desired)
    {
      if k !in compactors {
        compactors := compactors[k := desired];
      } else {
        compactors := compactors[k := desired.(labels := MergeLabels(compactors[k].labels, desired.labels))];
      }
    }

    /** Creating an object with a generated name: some new name with the prefix. */
    method CreateGenerated(g: Group, desired: C.Compactor) returns (k: Key)
      modifies this`compactors
      ensures C.MayGenerate(old(Snapshot()), g, k) && compactors == old(compactors)[k := desired]
    {
      var suffix := "x";
      ghost var all := compactors.Keys;
      ghost var seen: set<Key> := {};
      while Key(GroupNs(g), C.GeneratePrefix(g) + suffix) in compactors
        invariant seen <= all && |suffix| >= 1
        invariant forall l :: l in seen ==> |l.name| < |C.GeneratePrefix(g)| + |suffix|
        decreases |all - seen|
      {
        var taken := Key(GroupNs(g), C.GeneratePrefix(g) + suffix);
        assert taken !in seen;
        assert all - (seen + {taken}) == (all - seen) - {taken};
        seen := seen + {taken};
        suffix := suffix + "x";
      }
      k := Key(GroupNs(g), C.GeneratePrefix(g) + suffix);
      compactors := compactors[k := desired];
    }

    /** Client.List on Compactors of a group, in some order. */
    method List(g: Group) returns (items: seq<Key>)
      ensures forall k :: k in items <==> k in C.Members(Snapshot(), g)
    {
      items := [];
      var rest := compactors.Keys;
      while rest != {}
        invariant rest <= compactors.Keys
        invariant forall k :: k in items <==> k in C.Members(Snapshot(), g) && k !in rest
        decreases |rest|
      {
        var k :| k in rest;
        rest := rest - {k};
        if C.InGroup(k, compactors[k], g) {
          items := items + [k];
        }
      }
    }

    method SetStatus(name: string, ref: Option<Key>)
      requires name in clients
      modifies this`clients
      ensures Snapshot() == C.SetRef(old(Snapshot()), name, ref)
    {
      clients := clients[name := clients[name].(compactor := ref)];
    }

    method SetFinalizers(name: string, finalizers: seq<string>)
      requires name in clients
      modifies this`clients
      ensures Snapshot() == C.SetFinalizers(old(Snapshot()), name, finalizers)
    {
      if clients[name].deleting && |finalizers| == 0 {
        clients := clients - {name};
      } else {
        clients := clients[name := clients[name].(finalizers := finalizers)];
      }
    }

    method RemoveTenantFromCompactorByName(k: Key, name: string)
      modifies this`compactors
      ensures Snapshot() == C.Detach(old(Snapshot()), k, name)
    {
      if k !in compactors {
        return;
      }
      var c := compactors[k];
      var listed := ContainsString(c.tenants, name);
      if listed {
        var rest := RemoveString(c.tenants, name);
        c := c.(tenants := rest);
      } else {
        WithoutAbsent(c.tenants, name);
      }
      if |c.tenants| == 0 {
        compactors := compactors - {k};
      } else {
        CreateOrUpdate(k, c);
        assert compactors == old(compactors)[k := c];
      }
    }

    method NeedResetCompactor(name: string, svc: Service) returns (need: bool)
      requires name in clients
      ensures need <==> C.NeedsReset(Snapshot(), name, svc)
    {
      var t := clients[name];
      if t.compactor.None? {
        return false;
      }
      var k := t.compactor.value;
      if k !in compactors {
        return true;
      }
      var c := compactors[k];
      var listed := ContainsString(c.tenants, name);
      if !listed {
        return true;
      }
      if c.labels.service.None? || c.labels.service.value != OrEmpty(t.labels.service) {
        return true;
      }
      if c.labels.storage.None? || c.labels.storage.value != ResolveStorage(svc, OrEmpty(t.labels.storage)) {
        return true;
      }
      if t.labels.exclusive == Some("true") {
        return c.labels.exclusive != Some("true") || k.name != name;
      }
      return c.labels.exclusive == Some("true") && k.name == name;
    }

    method PlaceAmongShared(name: string, svc: Service) returns (panicked: bool)
      requires name in clients
      modifies this`clients, this`compactors
      ensures C.PlaceShared(old(Snapshot()), name, svc, Snapshot())
      ensures panicked <==> C.HasNoPlace(old(Snapshot()), name, svc, GroupFor(svc, old(clients)[name].labels))
      ensures var g := GroupFor(svc, old(clients)[name].labels);
        !C.SomeHolds(old(Snapshot()), g.service, g.storage, name) ==>
          && (C.SomeHasRoom(old(Snapshot()), g.service, g.storage, svc.compactorLimit) <==>
              exists k :: C.JoinedAt(old(Snapshot()), name, svc.compactorLimit, Snapshot(), k))
          && (panicked <==> !C.SomeHasRoom(old(Snapshot()), g.service, g.storage, svc.compactorLimit) && '.' !in g.storage)
    {
      panicked := FindPlace(name, svc);
      ghost var s := old(Snapshot());
      ghost var g := GroupFor(svc, s.clients[name].labels);
      if !C.SomeHolds(s, g.service, g.storage, name) {
        C.RoomIsUsed(s, name, svc, Snapshot());
      }
    }

    method FindPlace(name: string, svc: Service) returns (panicked: bool)
      requires name in clients
      modifies this`clients, this`compactors
      ensures C.PlaceShared(old(Snapshot()), name, svc, Snapshot())
      ensures panicked <==> C.HasNoPlace(old(Snapshot()), name, svc, GroupFor(svc, old(clients)[name].labels))
    {
      panicked := false;
      ghost var s := Snapshot();
      var g := GroupFor(svc, clients[name].labels);
      var items := List(g);
      for i := 0 to |items|
        invariant Snapshot() == s
        invariant forall j :: 0 <= j < i ==> items[j] in s.compactors && name !in s.compactors[items[j]].tenants
      {
        assert items[i] in items;
        var listed := ContainsString(compactors[items[i]].tenants, name);
        if listed {
          assert items[i] in C.Holders(s, g, name);
          SetStatus(name, Some(items[i]));
          return;
        }
      }
      assert C.Holders(s, g, name) == {} by {
        forall k | k in C.Members(s, g) ensures name !in s.compactors[k].tenants {
          assert k in items;
        }
      }
      for i := 0 to |items|
        invariant Snapshot() == s
        invariant forall j :: 0 <= j < i ==>
                    items[j] in s.compactors && |s.compactors[items[j]].tenants| >= svc.compactorLimit
      {
        assert items[i] in items;
        var c := compactors[items[i]];
        if |c.tenants| < svc.compactorLimit {
          assert items[i] in C.Roomy(s, g, svc.compactorLimit);
          c := c.(tenants := c.tenants + [name]);
          CreateOrUpdate(items[i], c);
          SetStatus(name, Some(items[i]));
          assert Snapshot() == C.AddTo(s, name, items[i]);
          return;
        }
      }
      assert C.Roomy(s, g, svc.compactorLimit) == {} by {
        forall k | k in C.Members(s, g) ensures |s.compactors[k].tenants| >= svc.compactorLimit {
          assert k in items;
        }
      }
      if |Split(g.storage, '.')| < 2 {
        return true;
      }
      var k := CreateGenerated(g, C.NewCompactor(g, name, false));
      SetStatus(name, Some(Key(GroupNs(g), "")));
      assert Snapshot() == C.Generate(s, name, g, k);
    }

    /** compactor(): the whole compactor part of a tenant reconcile. It panics while building a
        compactor whose storage label has no dot. */
    method Compactor(name: string, svc: Service) returns (panicked: bool)
      requires name in clients && C.ServiceFor(Snapshot(), clients[name]) == Some(svc)
      modifies this`clients, this`compactors
      ensures C.ClientStep(old(Snapshot()), name, svc, Snapshot())
      ensures panicked <==> C.Stuck(old(Snapshot()), name)
    {
      panicked := false;
      var t := clients[name];
      var finalized := ContainsString(t.finalizers, C.FINALIZER_COMPACTOR);
      if !t.deleting {
        if !finalized {
          SetFinalizers(name, t.finalizers + [C.FINALIZER_COMPACTOR]);
          return;
        }
      } else if finalized {
        if t.compactor.Some? {
          RemoveTenantFromCompactorByName(t.compactor.value, name);
        }
        var rest := RemoveString(t.finalizers, C.FINALIZER_COMPACTOR);
        SetFinalizers(name, rest);
        return;
      }
      var need := NeedResetCompactor(name, svc);
      if need {
        RemoveTenantFromCompactorByName(t.compactor.value, name);
        SetStatus(name, None);
        return;
      }
      if ResolveStorage(svc, OrEmpty(t.labels.storage)) == LOCAL_STORAGE {
        return;
      }
      if t.labels.exclusive == Some("true") {
        var g := GroupFor(svc, t.labels);
        var k := Key(GroupNs(g), name);
        CreateOrUpdate(k, C.NewCompactor(g, name, true));
        SetStatus(name, Some(k));
        return;
      }
      panicked := PlaceAmongShared(name, svc);
    }
  }
}
