/** Runs of the compactor allocator that reach what its laws exclude. */
module CompactionWitnesses {
  import opened Text
  import opened Cluster
  import opened Compaction
  import opened CompactionSafety

  function NewClient(service: Key, storage: string, exclusive: bool, finalizers: seq<string>): Client {
    Client(ClientLabels(service, storage, exclusive), finalizers, false, None)
  }

  function ClientLabels(service: Key, storage: string, exclusive: bool): Labels {
    Labels(Some(service.ns + ['.'] + service.name), Some(storage), if exclusive then Some("true") else None, None)
  }

  /** Resolved to itself, not local, and a name for a new compactor can be made of it. */
  predicate IsUsable(storage: string) {
    storage != "" && storage != DEFAULT_STORAGE && storage != LOCAL_STORAGE && |Split(storage, '.')| >= 2
  }

  /** One client in a cluster of one Service. */
  ghost predicate OnlyClient(s: Compactors, service: Key, svc: Service, name: string, c: Client) {
    s.clients == map[name := c] && s.services == map[service := svc] && '.' !in service.ns && '.' !in service.name
  }

  lemma ServiceIsFound(s: Compactors, service: Key, svc: Service, name: string, storage: string, exclusive: bool)
    requires name in s.clients && s.services == map[service := svc] && '.' !in service.ns && '.' !in service.name
    requires s.clients[name].labels == ClientLabels(service, storage, exclusive)
    ensures ServiceFor(s, s.clients[name]) == Some(svc)
  {
    SplitAtFirst(service.ns, service.name, '.');
    SplitWhole(service.name, '.');
  }

  lemma Advanced(run: seq<Compactors>, acts: seq<Action>, a: Action, s': Compactors)
    returns (run': seq<Compactors>, acts': seq<Action>)
    requires IsRun(run, acts) && Next(run[|acts|], a, s')
    ensures IsRun(run', acts') && run' == run + [s'] && acts' == acts + [a]
  {
    run', acts' := run + [s'], acts + [a];
    forall i | 0 <= i < |acts'| ensures Next(run'[i], acts'[i], run'[i + 1]) {
      if i < |acts| {
        assert Next(run[i], acts[i], run[i + 1]);
      }
    }
  }

  /** Created, and given the finalizer by the first reconcile. */
  lemma Introduced(service: Key, svc: Service, name: string, storage: string, exclusive: bool, finalizers: seq<string>)
    returns (run: seq<Compactors>, acts: seq<Action>)
    requires '.' !in service.ns && '.' !in service.name && FINALIZER_COMPACTOR !in finalizers
    ensures IsRun(run, acts)
    ensures OnlyClient(run[|acts|], service, svc, name, NewClient(service, storage, exclusive, finalizers + [FINALIZER_COMPACTOR]))
    ensures run[|acts|].compactors == map[]
  {
    var s0 := Compactors(map[], map[], map[service := svc]);
    var c := NewClient(service, storage, exclusive, finalizers);
    run, acts := Advanced([s0], [], Create(name, c), s0.(clients := map[name := c]));
    var s := run[|acts|];
    ServiceIsFound(s, service, svc, name, storage, exclusive);
    run, acts := Advanced(run, acts, Reconcile(name), SetFinalizers(s, name, finalizers + [FINALIZER_COMPACTOR]));
  }

  // ----- during the detour -----

  /** In the detour: listed by a generated compactor k, recorded under the empty name. */
  ghost predicate InDetour(s: Compactors, service: Key, svc: Service, name: string, storage: string, k: Key) {
    && OnlyClient(s, service, svc, name,
                  NewClient(service, storage, false, [FINALIZER_COMPACTOR]).(compactor := Some(Key(service.ns, ""))))
    && s.compactors == map[k := NewCompactor(Group(service.ns + ['.'] + service.name, storage), name, false)]
    && k.ns == service.ns && k.name != "" && k.name != name
  }

  lemma DetourReached(service: Key, svc: Service, name: string, storage: string)
    returns (run: seq<Compactors>, acts: seq<Action>, k: Key)
    requires '.' !in service.ns && '.' !in service.name && IsUsable(storage)
    ensures IsRun(run, acts) && InDetour(run[|acts|], service, svc, name, storage, k)
  {
    run, acts := Introduced(service, svc, name, storage, false, []);
    var s := run[|acts|];
    assert [] + [FINALIZER_COMPACTOR] == [FINALIZER_COMPACTOR];
    ServiceIsFound(s, service, svc, name, storage, false);
    var g := Group(service.ns + ['.'] + service.name, storage);
    assert GroupFor(svc, s.clients[name].labels) == g;
    SplitAtFirst(service.ns, service.name, '.');
    var prefix := GeneratePrefix(g);
    k := Key(service.ns, if prefix + "x" == name then prefix + "y" else prefix + "x");
    assert (prefix + "x")[|prefix|] == 'x' && (prefix + "y")[|prefix|] == 'y';
    assert Holders(s, g, name) == {};
    assert MayGenerate(s, g, k);
    run, acts := Advanced(run, acts, Reconcile(name), Generate(s, name, g, k));
  }

  /** Deleting the tenant now leaves its entry on the generated compactor for good. */
  lemma LeakReached(service: Key, svc: Service, name: string, storage: string)
    returns (run: seq<Compactors>, acts: seq<Action>, k: Key)
    requires '.' !in service.ns && '.' !in service.name && IsUsable(storage)
    ensures IsRun(run, acts) && |acts| > 0 && LeavesBehind(run[|acts| - 1], name)
    ensures name !in run[|acts|].clients && Lists(run[|acts|], k, name)
  {
    run, acts, k := DetourReached(service, svc, name, storage);
    var s := run[|acts|];
    var d := s.(clients := map[name := s.clients[name].(deleting := true)]);
    run, acts := Advanced(run, acts, DeleteClient(name), d);
    ServiceIsFound(d, service, svc, name, storage, false);
    assert Lists(d, k, name) && d.clients[name].compactor != Some(k);
    assert LeavesBehind(d, name);
    assert Without([FINALIZER_COMPACTOR], FINALIZER_COMPACTOR) == [];
    var f := SetFinalizers(Detach(d, Key(service.ns, ""), name), name, []);
    assert Lists(f, k, name) && name !in f.clients;
    run, acts := Advanced(run, acts, Reconcile(name), f);
  }

  /** Making the tenant exclusive now puts it on two compactors of its group. */
  lemma SecondHolderReached(service: Key, svc: Service, name: string, storage: string)
    returns (run: seq<Compactors>, acts: seq<Action>)
    requires '.' !in service.ns && '.' !in service.name && IsUsable(storage)
    ensures IsRun(run, acts) && !Unique(run[|acts|])
  {
    var k;
    run, acts, k := DetourReached(service, svc, name, storage);
    var s := run[|acts|];
    var e := s.(clients := map[name := s.clients[name].(labels := ClientLabels(service, storage, true))]);
    run, acts := Advanced(run, acts, Relabel(name, ClientLabels(service, storage, true)), e);
    ServiceIsFound(e, service, svc, name, storage, true);
    assert NeedsReset(e, name, svc);
    var r := SetRef(e, name, None);
    run, acts := Advanced(run, acts, Reconcile(name), r);
    ServiceIsFound(r, service, svc, name, storage, true);
    SplitAtFirst(service.ns, service.name, '.');
    var g := GroupFor(svc, r.clients[name].labels);
    assert k in Holders(r, g, name);
    SecondHolder(r, name, svc, k);
    run, acts := Advanced(run, acts, Reconcile(name), PlaceExclusive(r, name, svc));
  }

  lemma SecondHolder(s: Compactors, name: string, svc: Service, k: Key)
    requires name in s.clients && k in Holders(s, GroupFor(svc, s.clients[name].labels), name) && k.name != name
    ensures !Unique(PlaceExclusive(s, name, svc))
  {
    var g, p := GroupFor(svc, s.clients[name].labels), PlaceExclusive(s, name, svc);
    assert k in Holders(p, g, name) && Key(GroupNs(g), name) in Holders(p, g, name);
  }

  // ----- a lingering client -----

  /** With any foreign finalizer: create, reconcile twice, delete, reconcile twice; the next
      reconcile places the client again. */
  lemma RevivalReached(service: Key, svc: Service, name: string, storage: string, foreign: string)
    returns (run: seq<Compactors>, acts: seq<Action>)
    requires '.' !in service.ns && '.' !in service.name && IsUsable(storage) && foreign != FINALIZER_COMPACTOR
    ensures IsRun(run, acts) && WouldRevive(run[|acts|], name) && run[|acts|].compactors == map[]
  {
    run, acts := Introduced(service, svc, name, storage, true, [foreign]);
    var s := run[|acts|];
    ServiceIsFound(s, service, svc, name, storage, true);
    var k := Key(GroupNs(GroupFor(svc, s.clients[name].labels)), name);
    var p := PlaceExclusive(s, name, svc);
    run, acts := Advanced(run, acts, Reconcile(name), p);
    assert p.compactors.Keys == {k} && p.compactors[k].tenants == [name];
    var d := p.(clients := map[name := p.clients[name].(deleting := true)]);
    run, acts := Advanced(run, acts, DeleteClient(name), d);
    var f := Finalized(d, service, svc, name, storage, foreign, k);
    run, acts := Advanced(run, acts, Reconcile(name), f);
    ServiceIsFound(f, service, svc, name, storage, true);
    var r := SetRef(f, name, None);
    run, acts := Advanced(run, acts, Reconcile(name), r);
    ServiceIsFound(r, service, svc, name, storage, true);
  }

  lemma Finalized(d: Compactors, service: Key, svc: Service, name: string, storage: string, foreign: string, k: Key)
    returns (f: Compactors)
    requires name in d.clients && OnlyClient(d, service, svc, name, d.clients[name])
    requires d.clients[name].labels == ClientLabels(service, storage, true) && d.clients[name].deleting
    requires d.clients[name].finalizers == [foreign] + [FINALIZER_COMPACTOR] && foreign != FINALIZER_COMPACTOR
    requires d.clients[name].compactor == Some(k) && d.compactors.Keys == {k} && d.compactors[k].tenants == [name]
    ensures Reconciles(d, name, f) && f.compactors == map[]
    ensures OnlyClient(f, service, svc, name, d.clients[name].(finalizers := [foreign]))
  {
    ServiceIsFound(d, service, svc, name, storage, true);
    WithoutSnoc([foreign], FINALIZER_COMPACTOR, FINALIZER_COMPACTOR);
    WithoutSnoc([], foreign, FINALIZER_COMPACTOR);
    assert [] + [foreign] == [foreign];
    assert Without([name], name) == [];
    f := SetFinalizers(Detach(d, k, name), name, [foreign]);
  }
}
