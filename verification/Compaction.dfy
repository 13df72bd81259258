/** The second allocator over the tenants: compactors. Tenant names and tenant ids are the same
    here, as the controller defaults them. */
module Compaction {
  import opened Text
  import opened Cluster

  const FINALIZER_COMPACTOR := "finalizers.monitoring.whizard.io/compactor"

  datatype Compactor = Compactor(labels: Labels, tenants: seq<string>)

  /** compactor is Status.Compactor. */
  datatype Client = Client(labels: Labels, finalizers: seq<string>, deleting: bool, compactor: Option<Key>)

  datatype Compactors = Compactors(clients: map<string, Client>, compactors: map<Key, Compactor>, services: map<Key, Service>)

  predicate Lists(s: Compactors, k: Key, x: string) {
    k in s.compactors && x in s.compactors[k].tenants
  }

  predicate InGroup(k: Key, c: Compactor, g: Group) {
    k.ns == GroupNs(g) && c.labels.service == Some(g.service) && c.labels.storage == Some(g.storage)
  }

  function Members(s: Compactors, g: Group): set<Key> {
    set k | k in s.compactors && InGroup(k, s.compactors[k], g)
  }

  function Holders(s: Compactors, g: Group, x: string): set<Key> {
    set k | k in Members(s, g) && x in s.compactors[k].tenants
  }

  function Roomy(s: Compactors, g: Group, limit: int): set<Key> {
    set k | k in Members(s, g) && |s.compactors[k].tenants| < limit
  }

  function ServiceFor(s: Compactors, c: Client): Option<Service> {
    FindService(s.services, OrEmpty(c.labels.service))
  }

  // ----- writes -----

  function SetRef(s: Compactors, name: string, ref: Option<Key>): Compactors
    requires name in s.clients
  {
    s.(clients := s.clients[name := s.clients[name].(compactor := ref)])
  }

  function SetFinalizers(s: Compactors, name: string, finalizers: seq<string>): Compactors
    requires name in s.clients
  {
    if s.clients[name].deleting && finalizers == [] then s.(clients := s.clients - {name})
    else s.(clients := s.clients[name := s.clients[name].(finalizers := finalizers)])
  }

  function Upsert(compactors: map<Key, Compactor>, k: Key, desired: Compactor): map<Key, Compactor> {
    compactors[k := if k in compactors then desired.(labels := MergeLabels(compactors[k].labels, desired.labels)) else desired]
  }

  /** removeTenantFromCompactorByName: a compactor left without tenants is deleted. */
  function Detach(s: Compactors, k: Key, x: string): Compactors {
    if k !in s.compactors then s
    else
      var rest := Without(s.compactors[k].tenants, x);
      if rest == [] then s.(compactors := s.compactors - {k})
      else s.(compactors := s.compactors[k := s.compactors[k].(tenants := rest)])
  }

  predicate NeedsReset(s: Compactors, name: string, svc: Service)
    requires name in s.clients
  {
    var t := s.clients[name];
    t.compactor.Some? &&
    var k := t.compactor.value;
    (k !in s.compactors ||
     var c := s.compactors[k];
     || name !in c.tenants
     || c.labels.service != Some(OrEmpty(t.labels.service))
     || c.labels.storage != Some(GroupFor(svc, t.labels).storage)
     || (if IsTrue(t.labels.exclusive)
         then !IsTrue(c.labels.exclusive) || k.name != name
         else IsTrue(c.labels.exclusive) && k.name == name))
  }

  function NewCompactor(g: Group, x: string, exclusive: bool): Compactor {
    Compactor(Labels(Some(g.service), Some(g.storage), if exclusive then Some("true") else None, None), [x])
  }

  function PlaceExclusive(s: Compactors, name: string, svc: Service): Compactors
    requires name in s.clients
  {
    var g := GroupFor(svc, s.clients[name].labels);
    var k := Key(GroupNs(g), name);
    SetRef(s.(compactors := Upsert(s.compactors, k, NewCompactor(g, name, true))), name, Some(k))
  }

  function AddTo(s: Compactors, name: string, k: Key): Compactors
    requires name in s.clients && k in s.compactors
  {
    var c := s.compactors[k];
    SetRef(s.(compactors := s.compactors[k := c.(tenants := c.tenants + [name])]), name, Some(k))
  }

  /** A generated name starts with the given prefix and is new; the status is written with the
      name the object had before the server named it, which is empty. */
  function GeneratePrefix(g: Group): string { Part(g.service, 1, "") + "-" + Part(g.storage, 1, "") + "-" }

  predicate MayGenerate(s: Compactors, g: Group, k: Key) {
    k !in s.compactors && k.ns == GroupNs(g) && GeneratePrefix(g) < k.name
  }

  function Generate(s: Compactors, name: string, g: Group, k: Key): Compactors
    requires name in s.clients
  {
    SetRef(s.(compactors := s.compactors[k := NewCompactor(g, name, false)]), name, Some(Key(GroupNs(g), "")))
  }

  /** The shared branch. The lists are met in API order and the server picks the name; a storage
      label without a dot panics while the new object is being built. */
  ghost predicate PlaceShared(s: Compactors, name: string, svc: Service, s': Compactors)
    requires name in s.clients
  {
    var g := GroupFor(svc, s.clients[name].labels);
    if Holders(s, g, name) != {} then exists k :: k in Holders(s, g, name) && s' == SetRef(s, name, Some(k))
    else if Roomy(s, g, svc.compactorLimit) != {} then
      exists k :: k in Roomy(s, g, svc.compactorLimit) && s' == AddTo(s, name, k)
    else if |Split(g.storage, '.')| < 2 then s' == s
    else exists k :: MayGenerate(s, g, k) && s' == Generate(s, name, g, k)
  }

  /** No compactor of the group lists the tenant, none has room, and none can be named. */
  predicate HasNoPlace(s: Compactors, name: string, svc: Service, g: Group) {
    Holders(s, g, name) == {} && Roomy(s, g, svc.compactorLimit) == {} && |Split(g.storage, '.')| < 2
  }

  /** The reconcile gets past finalizers, reset and the check for local storage. */
  predicate IsPlaced(s: Compactors, name: string) {
    && name in s.clients && ServiceFor(s, s.clients[name]).Some?
    && var t, svc := s.clients[name], ServiceFor(s, s.clients[name]).value;
    && (t.deleting <==> FINALIZER_COMPACTOR !in t.finalizers)
    && !NeedsReset(s, name, svc)
    && GroupFor(svc, t.labels).storage != LOCAL_STORAGE
  }

  predicate PlacesExclusively(s: Compactors, name: string) {
    IsPlaced(s, name) && IsTrue(s.clients[name].labels.exclusive)
  }

  function GroupIn(s: Compactors, name: string): Group
    requires name in s.clients && ServiceFor(s, s.clients[name]).Some?
  {
    GroupFor(ServiceFor(s, s.clients[name]).value, s.clients[name].labels)
  }

  /** A shared tenant has to be placed, finds no room, and its storage label cannot name a new
      compactor: the reconcile panics. */
  predicate Stuck(s: Compactors, name: string) {
    && IsPlaced(s, name) && !IsTrue(s.clients[name].labels.exclusive)
    && HasNoPlace(s, name, ServiceFor(s, s.clients[name]).value, GroupIn(s, name))
  }

  ghost predicate ClientStep(s: Compactors, name: string, svc: Service, s': Compactors)
    requires name in s.clients && ServiceFor(s, s.clients[name]) == Some(svc)
  {
    var t := s.clients[name];
    if !t.deleting && FINALIZER_COMPACTOR !in t.finalizers then
      s' == SetFinalizers(s, name, t.finalizers + [FINALIZER_COMPACTOR])
    else if t.deleting && FINALIZER_COMPACTOR in t.finalizers then
      s' == SetFinalizers(if t.compactor.Some? then Detach(s, t.compactor.value, name) else s, name,
                          Without(t.finalizers, FINALIZER_COMPACTOR))
    else if NeedsReset(s, name, svc) then
      s' == SetRef(Detach(s, t.compactor.value, name), name, None)
    else if GroupFor(svc, t.labels).storage == LOCAL_STORAGE then s' == s
    else if IsTrue(t.labels.exclusive) then s' == PlaceExclusive(s, name, svc)
    else PlaceShared(s, name, svc, s')
  }

  ghost predicate Reconciles(s: Compactors, name: string, s': Compactors) {
    if name in s.clients && ServiceFor(s, s.clients[name]).Some?
    then ClientStep(s, name, ServiceFor(s, s.clients[name]).value, s')
    else s' == s
  }

  datatype Action =
    | Reconcile(name: string)
    | Create(name: string, client: Client)
    | Relabel(name: string, labels: Labels)
    | DeleteClient(name: string)
    | EditFinalizers(name: string, finalizers: seq<string>)
    | PutService(key: Key, service: Service)

  ghost predicate Next(s: Compactors, a: Action, s': Compactors) {
    match a
    case Reconcile(name) => Reconciles(s, name, s')
    case Create(name, c) => name !in s.clients && c.compactor.None? && s' == s.(clients := s.clients[name := c])
    case Relabel(name, labels) =>
      name in s.clients && s' == s.(clients := s.clients[name := s.clients[name].(labels := labels)])
    case DeleteClient(name) =>
      && name in s.clients
      && s' == if s.clients[name].finalizers == [] then s.(clients := s.clients - {name})
               else s.(clients := s.clients[name := s.clients[name].(deleting := true)])
    case EditFinalizers(name, fs) => name in s.clients && s' == SetFinalizers(s, name, fs)
    case PutService(k, svc) => s' == s.(services := s.services[k := svc])
  }

  // ----- at most one compactor of a group lists a tenant -----

  ghost predicate Unique(s: Compactors) {
    forall g, x, k, l :: k in Holders(s, g, x) && l in Holders(s, g, x) ==> k == l
  }

  /** Which tenants are exclusive is fixed: the labels agree with it, and only a compactor of its
      own name lists an exclusive tenant. */
  ghost predicate Apart(s: Compactors, exclusive: string -> bool) {
    && (forall n :: n in s.clients ==> (IsTrue(s.clients[n].labels.exclusive) <==> exclusive(n)))
    && (forall k, x :: Lists(s, k, x) && exclusive(x) ==> k.name == x)
  }

  ghost predicate Good(s: Compactors, exclusive: string -> bool) {
    && Unique(s) && Apart(s, exclusive)
    && forall k :: k in s.compactors ==> NoDup(s.compactors[k].tenants)
  }

  /** Compactors only lose entries and keep their labels. */
  lemma LosingKeeps(s: Compactors, s': Compactors, exclusive: string -> bool)
    requires Good(s, exclusive)
    requires forall k :: k in s'.compactors ==>
      && k in s.compactors && s'.compactors[k].labels == s.compactors[k].labels
      && NoDup(s'.compactors[k].tenants)
      && forall x :: x in s'.compactors[k].tenants ==> x in s.compactors[k].tenants
    requires forall n :: n in s'.clients ==> (IsTrue(s'.clients[n].labels.exclusive) <==> exclusive(n))
    ensures Good(s', exclusive)
  {
    forall g, x, k, l | k in Holders(s', g, x) && l in Holders(s', g, x) ensures k == l {
      assert k in Holders(s, g, x) && l in Holders(s, g, x);
    }
    forall k, x | Lists(s', k, x) && exclusive(x) ensures k.name == x {
      assert Lists(s, k, x);
    }
  }

  lemma DetachKeeps(s: Compactors, k: Key, x: string, exclusive: string -> bool)
    requires Good(s, exclusive)
    ensures Good(Detach(s, k, x), exclusive)
  {
    if k in s.compactors {
      WithoutMembers(s.compactors[k].tenants, x);
      WithoutNoDup(s.compactors[k].tenants, x);
    }
    LosingKeeps(s, Detach(s, k, x), exclusive);
  }

  /** Writing compactor k: its entries are old ones of the same compactor, kept under the same
      labels, and one tenant that no other compactor of its new group lists. */
  lemma WritingKeeps(s: Compactors, name: string, g: Group, k: Key, c: Compactor, exclusive: string -> bool)
    requires Good(s, exclusive) && InGroup(k, c, g) && NoDup(c.tenants)
    requires forall l :: l in Holders(s, g, name) ==> l == k
    requires exclusive(name) ==> k.name == name
    requires forall x :: x in c.tenants && x != name ==> Lists(s, k, x) && s.compactors[k].labels == c.labels
    ensures Good(s.(compactors := s.compactors[k := c]), exclusive)
  {
    WritingUnique(s, name, g, k, c);
    var s' := s.(compactors := s.compactors[k := c]);
    forall l, x | Lists(s', l, x) && exclusive(x) ensures l.name == x {
      assert x != name || l != k ==> Lists(s, l, x);
    }
  }

  lemma WritingUnique(s: Compactors, name: string, g: Group, k: Key, c: Compactor)
    requires Unique(s) && InGroup(k, c, g)
    requires forall l :: l in Holders(s, g, name) ==> l == k
    requires forall x :: x in c.tenants && x != name ==> Lists(s, k, x) && s.compactors[k].labels == c.labels
    ensures Unique(s.(compactors := s.compactors[k := c]))
  {
    var s' := s.(compactors := s.compactors[k := c]);
    forall h, x, p, q | p in Holders(s', h, x) && q in Holders(s', h, x) ensures p == q {
      if x == name {
        if p == k || q == k {
          assert h == g;
          assert p != k ==> p in Holders(s, g, name);
          assert q != k ==> q in Holders(s, g, name);
        } else {
          assert p in Holders(s, h, x) && q in Holders(s, h, x);
        }
      } else {
        assert p in Holders(s, h, x) && q in Holders(s, h, x);
      }
    }
  }

  lemma RefKeeps(s: Compactors, name: string, ref: Option<Key>, exclusive: string -> bool)
    requires Good(s, exclusive) && name in s.clients
    ensures Good(SetRef(s, name, ref), exclusive)
  {
    LosingKeeps(s, SetRef(s, name, ref), exclusive);
  }

  lemma PlaceExclusiveKeeps(s: Compactors, name: string, svc: Service, exclusive: string -> bool)
    requires Good(s, exclusive) && name in s.clients && exclusive(name)
    ensures Good(PlaceExclusive(s, name, svc), exclusive)
  {
    var g := GroupFor(svc, s.clients[name].labels);
    var k := Key(GroupNs(g), name);
    forall l | l in Holders(s, g, name) ensures l == k {
      assert Lists(s, l, name);
    }
    var c := Upsert(s.compactors, k, NewCompactor(g, name, true))[k];
    WritingKeeps(s, name, g, k, c, exclusive);
    RefKeeps(s.(compactors := s.compactors[k := c]), name, Some(k), exclusive);
  }

  lemma PlaceSharedKeeps(s: Compactors, name: string, svc: Service, s': Compactors, exclusive: string -> bool)
    requires Good(s, exclusive) && name in s.clients && !exclusive(name) && PlaceShared(s, name, svc, s')
    ensures Good(s', exclusive)
  {
    var g := GroupFor(svc, s.clients[name].labels);
    if Holders(s, g, name) != {} {
      var k :| k in Holders(s, g, name) && s' == SetRef(s, name, Some(k));
      RefKeeps(s, name, Some(k), exclusive);
    } else if Roomy(s, g, svc.compactorLimit) != {} {
      var k :| k in Roomy(s, g, svc.compactorLimit) && s' == AddTo(s, name, k);
      var c := s.compactors[k].(tenants := s.compactors[k].tenants + [name]);
      assert name !in s.compactors[k].tenants by {
        assert k !in Holders(s, g, name);
      }
      WritingKeeps(s, name, g, k, c, exclusive);
      RefKeeps(s.(compactors := s.compactors[k := c]), name, Some(k), exclusive);
    } else if |Split(g.storage, '.')| >= 2 {
      var k :| MayGenerate(s, g, k) && s' == Generate(s, name, g, k);
      WritingKeeps(s, name, g, k, NewCompactor(g, name, false), exclusive);
      RefKeeps(s.(compactors := s.compactors[k := NewCompactor(g, name, false)]), name, Some(Key(GroupNs(g), "")), exclusive);
    }
  }

  lemma ReconcileKeeps(s: Compactors, name: string, s': Compactors, exclusive: string -> bool)
    requires Good(s, exclusive) && Reconciles(s, name, s')
    ensures Good(s', exclusive)
  {
    if name in s.clients && ServiceFor(s, s.clients[name]).Some? {
      var t, svc := s.clients[name], ServiceFor(s, s.clients[name]).value;
      if !t.deleting && FINALIZER_COMPACTOR !in t.finalizers {
        LosingKeeps(s, s', exclusive);
      } else if t.deleting && FINALIZER_COMPACTOR in t.finalizers {
        var d := if t.compactor.Some? then Detach(s, t.compactor.value, name) else s;
        if t.compactor.Some? {
          DetachKeeps(s, t.compactor.value, name, exclusive);
        }
        LosingKeeps(d, s', exclusive);
      } else if NeedsReset(s, name, svc) {
        DetachKeeps(s, t.compactor.value, name, exclusive);
        RefKeeps(Detach(s, t.compactor.value, name), name, None, exclusive);
      } else if GroupFor(svc, t.labels).storage == LOCAL_STORAGE {
      } else if IsTrue(t.labels.exclusive) {
        PlaceExclusiveKeeps(s, name, svc, exclusive);
      } else {
        PlaceSharedKeeps(s, name, svc, s', exclusive);
      }
    }
  }

  /** Users keep the exclusive labels as they are. */
  predicate KeepsExclusive(a: Action, exclusive: string -> bool) {
    match a
    case Create(name, c) => IsTrue(c.labels.exclusive) <==> exclusive(name)
    case Relabel(name, labels) => IsTrue(labels.exclusive) <==> exclusive(name)
    case _ => true
  }

  ghost predicate IsRun(run: seq<Compactors>, acts: seq<Action>) {
    && |run| == |acts| + 1
    && run[0].clients == map[] && run[0].compactors == map[]
    && forall i :: 0 <= i < |acts| ==> Next(run[i], acts[i], run[i + 1])
  }

  /** Over every run, whatever the interleaving of reconciles, relabelling of service and storage,
      changes of the services' default storage, deletion and re-creation, and through the
      detour of the empty name: no two compactors of a group list the same tenant, as long as
      no tenant changes its exclusiveness. */
  lemma {:induction false} RunsKeepUnique(run: seq<Compactors>, acts: seq<Action>, exclusive: string -> bool, n: nat)
    requires IsRun(run, acts) && n < |run|
    requires forall i :: 0 <= i < |acts| ==> KeepsExclusive(acts[i], exclusive)
    ensures Good(run[n], exclusive)
  {
    if n > 0 {
      RunsKeepUnique(run, acts, exclusive, n - 1);
      assert Next(run[n - 1], acts[n - 1], run[n]) && KeepsExclusive(acts[n - 1], exclusive);
      StepKeeps(run[n - 1], acts[n - 1], run[n], exclusive);
    }
  }

  lemma StepKeeps(s: Compactors, a: Action, s': Compactors, exclusive: string -> bool)
    requires Good(s, exclusive) && Next(s, a, s') && KeepsExclusive(a, exclusive)
    ensures Good(s', exclusive)
  {
    if a.Reconcile? {
      ReconcileKeeps(s, a.name, s', exclusive);
    } else {
      LosingKeeps(s, s', exclusive);
    }
  }

  /** What goes wrong when exclusiveness changes: making a tenant exclusive puts it on a second
      list of its group exactly when some compactor that is not its own still lists it. */
  lemma ExclusivePlacementUniqueIff(s: Compactors, name: string, svc: Service)
    requires Unique(s) && name in s.clients
    ensures var g := GroupFor(svc, s.clients[name].labels);
      Unique(PlaceExclusive(s, name, svc)) <==> forall k :: k in Holders(s, g, name) ==> k.name == name
  {
    var g := GroupFor(svc, s.clients[name].labels);
    var k, s' := Key(GroupNs(g), name), PlaceExclusive(s, name, svc);
    assert k in Holders(s', g, name);
    if l :| l in Holders(s, g, name) && l.name != name {
      assert l in Holders(s', g, name);
    } else {
      forall h, x, p, q | p in Holders(s', h, x) && q in Holders(s', h, x) ensures p == q {
        if p == k || q == k {
          assert x == name && h == g;
          assert p != k ==> p in Holders(s, g, name);
          assert q != k ==> q in Holders(s, g, name);
        } else {
          assert p in Holders(s, h, x) && q in Holders(s, h, x);
        }
      }
    }
  }

  /** Compactors that only lose entries stay unique. */
  lemma LosingUnique(s: Compactors, s': Compactors)
    requires Unique(s)
    requires forall k, x :: Lists(s', k, x) ==> Lists(s, k, x) && s'.compactors[k].labels == s.compactors[k].labels
    ensures Unique(s')
  {
    forall g, x, k, l | k in Holders(s', g, x) && l in Holders(s', g, x) ensures k == l {
      assert Lists(s', k, x) && Lists(s', l, x);
      assert k in Holders(s, g, x) && l in Holders(s, g, x);
    }
  }

  lemma DetachLoses(s: Compactors, k: Key, x: string, s': Compactors)
    requires s'.compactors == Detach(s, k, x).compactors && Unique(s)
    ensures Unique(s')
  {
    if k in s.compactors {
      WithoutMembers(s.compactors[k].tenants, x);
    }
    LosingUnique(s, s');
  }

  lemma PlaceSharedUnique(s: Compactors, name: string, svc: Service, s': Compactors)
    requires Unique(s) && name in s.clients && PlaceShared(s, name, svc, s')
    ensures Unique(s')
  {
    var g := GroupFor(svc, s.clients[name].labels);
    if Holders(s, g, name) != {} {
      LosingUnique(s, s');
    } else if Roomy(s, g, svc.compactorLimit) != {} {
      var k :| k in Roomy(s, g, svc.compactorLimit) && s' == AddTo(s, name, k);
      var c := s.compactors[k].(tenants := s.compactors[k].tenants + [name]);
      WritingUnique(s, name, g, k, c);
      LosingUnique(s.(compactors := s.compactors[k := c]), s');
    } else if |Split(g.storage, '.')| >= 2 {
      var k :| MayGenerate(s, g, k) && s' == Generate(s, name, g, k);
      WritingUnique(s, name, g, k, NewCompactor(g, name, false));
      LosingUnique(s.(compactors := s.compactors[k := NewCompactor(g, name, false)]), s');
    }
  }

  /** A reconcile puts a tenant on a second list of a group exactly when it places it exclusively
      while another compactor of the group lists it. */
  lemma ReconcileKeepsUniqueIff(s: Compactors, name: string, s': Compactors)
    requires Unique(s) && Reconciles(s, name, s')
    ensures Unique(s') <==>
      !(PlacesExclusively(s, name) && exists k :: k in Holders(s, GroupIn(s, name), name) && k.name != name)
  {
    if name in s.clients && ServiceFor(s, s.clients[name]).Some? {
      var t, svc := s.clients[name], ServiceFor(s, s.clients[name]).value;
      if !t.deleting && FINALIZER_COMPACTOR !in t.finalizers {
        LosingUnique(s, s');
      } else if t.deleting && FINALIZER_COMPACTOR in t.finalizers {
        if t.compactor.Some? {
          DetachLoses(s, t.compactor.value, name, s');
        } else {
          LosingUnique(s, s');
        }
      } else if NeedsReset(s, name, svc) {
        DetachLoses(s, t.compactor.value, name, s');
      } else if GroupFor(svc, t.labels).storage == LOCAL_STORAGE {
      } else if IsTrue(t.labels.exclusive) {
        ExclusivePlacementUniqueIff(s, name, svc);
      } else {
        PlaceSharedUnique(s, name, svc, s');
      }
    }
  }

  /** Deleting a tenant takes it off the one list its status names; it stays listed exactly when
      some other compactor lists it, as during the detour. */
  lemma DeletionLeavesListedIff(s: Compactors, name: string, s': Compactors)
    requires Reconciles(s, name, s') && name in s.clients && ServiceFor(s, s.clients[name]).Some?
    requires s.clients[name].deleting && FINALIZER_COMPACTOR in s.clients[name].finalizers
    ensures (exists k :: Lists(s', k, name)) <==> exists k :: Lists(s, k, name) && s.clients[name].compactor != Some(k)
  {
    var t := s.clients[name];
    if t.compactor.Some? && t.compactor.value in s.compactors {
      WithoutMembers(s.compactors[t.compactor.value].tenants, name);
    }
    if k :| Lists(s, k, name) && t.compactor != Some(k) {
      assert Lists(s', k, name);
    }
    if k :| Lists(s', k, name) {
      assert Lists(s, k, name) && t.compactor != Some(k);
    }
  }

  // ----- the detour of the empty name -----

  /** The three reconciles after a compactor was generated: the empty name is recorded, found
      missing and cleared, and then the compactor that lists the tenant is recorded. No second
      compactor is made. */
  lemma DetourRepairs(s: Compactors, name: string, svc: Service, k: Key, s1: Compactors, s2: Compactors, s3: Compactors)
    requires Unique(s) && name in s.clients && ServiceFor(s, s.clients[name]) == Some(svc)
    requires !s.clients[name].deleting && FINALIZER_COMPACTOR in s.clients[name].finalizers
    requires !IsTrue(s.clients[name].labels.exclusive)
    requires var g := GroupFor(svc, s.clients[name].labels);
      && g.storage != LOCAL_STORAGE && MayGenerate(s, g, k) && Holders(s, g, name) == {}
      && Key(GroupNs(g), "") !in s.compactors
      && s1 == Generate(s, name, g, k)
    requires Reconciles(s1, name, s2) && Reconciles(s2, name, s3)
    ensures s2 == SetRef(s1, name, None)
    ensures s3 == SetRef(s1, name, Some(k)) && s3.compactors == s1.compactors
  {
    var g := GroupFor(svc, s.clients[name].labels);
    assert NeedsReset(s1, name, svc);
    assert s2 == SetRef(s1, name, None);
    assert k in Holders(s2, g, name);
    assert forall l :: l != k ==> (l in Holders(s2, g, name) <==> l in Holders(s, g, name));
    assert s3 == SetRef(s2, name, Some(k));
  }

  // ----- capacity -----

  function LimitOf(s: Compactors, c: Compactor): int {
    var svc := FindService(s.services, OrEmpty(c.labels.service));
    if svc.Some? then svc.value.compactorLimit else 0
  }

  ghost predicate WithinLimits(s: Compactors) {
    forall k :: k in s.compactors ==> |s.compactors[k].tenants| <= Max(1, LimitOf(s, s.compactors[k]))
  }

  ghost predicate LimitsKept(s: Compactors, s': Compactors) {
    forall k :: k in s.services ==> k in s'.services && s.services[k].compactorLimit <= s'.services[k].compactorLimit
  }

  lemma LosingStaysWithin(s: Compactors, s': Compactors)
    requires WithinLimits(s) && LimitsKept(s, s')
    requires forall k :: k in s'.compactors ==>
      && k in s.compactors && s'.compactors[k].labels == s.compactors[k].labels
      && |s'.compactors[k].tenants| <= |s.compactors[k].tenants|
    ensures WithinLimits(s')
  {
    forall k | k in s'.compactors ensures |s'.compactors[k].tenants| <= Max(1, LimitOf(s', s'.compactors[k])) {
      assert |s.compactors[k].tenants| <= Max(1, LimitOf(s, s.compactors[k]));
    }
  }

  lemma PlaceSharedWithin(s: Compactors, name: string, svc: Service, s': Compactors)
    requires WithinLimits(s) && name in s.clients && ServiceFor(s, s.clients[name]) == Some(svc)
    requires PlaceShared(s, name, svc, s')
    ensures WithinLimits(s')
  {
    var g := GroupFor(svc, s.clients[name].labels);
    if Holders(s, g, name) != {} {
      LosingStaysWithin(s, s');
    } else if Roomy(s, g, svc.compactorLimit) != {} {
      var k :| k in Roomy(s, g, svc.compactorLimit) && s' == AddTo(s, name, k);
      forall l | l in s'.compactors ensures |s'.compactors[l].tenants| <= Max(1, LimitOf(s', s'.compactors[l])) {
        assert l != k ==> |s.compactors[l].tenants| <= Max(1, LimitOf(s, s.compactors[l]));
      }
    } else if |Split(g.storage, '.')| >= 2 {
      var k :| MayGenerate(s, g, k) && s' == Generate(s, name, g, k);
      forall l | l in s'.compactors ensures |s'.compactors[l].tenants| <= Max(1, LimitOf(s', s'.compactors[l])) {
        assert l != k ==> |s.compactors[l].tenants| <= Max(1, LimitOf(s, s.compactors[l]));
      }
    }
  }

  lemma DetachWithin(s: Compactors, k: Key, x: string)
    requires WithinLimits(s)
    ensures WithinLimits(Detach(s, k, x))
  {
    if k in s.compactors {
      WithoutMembers(s.compactors[k].tenants, x);
    }
    LosingStaysWithin(s, Detach(s, k, x));
  }

  lemma PlaceExclusiveWithin(s: Compactors, name: string, svc: Service)
    requires WithinLimits(s) && name in s.clients
    ensures WithinLimits(PlaceExclusive(s, name, svc))
  {
    var s' := PlaceExclusive(s, name, svc);
    forall l | l in s'.compactors ensures |s'.compactors[l].tenants| <= Max(1, LimitOf(s', s'.compactors[l])) {
      assert l in s.compactors ==> |s.compactors[l].tenants| <= Max(1, LimitOf(s, s.compactors[l]));
    }
  }

  lemma ReconcileStaysWithin(s: Compactors, name: string, s': Compactors)
    requires WithinLimits(s) && Reconciles(s, name, s')
    ensures WithinLimits(s')
  {
    if name in s.clients && ServiceFor(s, s.clients[name]).Some? {
      var t, svc := s.clients[name], ServiceFor(s, s.clients[name]).value;
      if !t.deleting && FINALIZER_COMPACTOR !in t.finalizers {
        LosingStaysWithin(s, s');
      } else if t.deleting && FINALIZER_COMPACTOR in t.finalizers {
        var d := if t.compactor.Some? then Detach(s, t.compactor.value, name) else s;
        if t.compactor.Some? {
          DetachWithin(s, t.compactor.value, name);
        }
        LosingStaysWithin(d, s');
      } else if NeedsReset(s, name, svc) {
        DetachWithin(s, t.compactor.value, name);
        LosingStaysWithin(Detach(s, t.compactor.value, name), s');
      } else if GroupFor(svc, t.labels).storage == LOCAL_STORAGE {
      } else if IsTrue(t.labels.exclusive) {
        PlaceExclusiveWithin(s, name, svc);
      } else {
        PlaceSharedWithin(s, name, svc, s');
      }
    }
  }

  /** Over every run in which no Service lowers its limit, no compactor lists more than
      max(1, limit) tenants. */
  lemma {:induction false} RunsStayWithinLimits(run: seq<Compactors>, acts: seq<Action>, n: nat)
    requires IsRun(run, acts) && n < |run|
    requires forall i :: 0 <= i < |acts| ==> LimitsKept(run[i], run[i + 1])
    ensures WithinLimits(run[n])
  {
    if n > 0 {
      RunsStayWithinLimits(run, acts, n - 1);
      assert Next(run[n - 1], acts[n - 1], run[n]);
      assert LimitsKept(run[n - 1], run[n - 1 + 1]);
      if acts[n - 1].Reconcile? {
        ReconcileStaysWithin(run[n - 1], acts[n - 1].name, run[n]);
      } else {
        LosingStaysWithin(run[n - 1], run[n]);
      }
    }
  }

  // ----- room is used -----

  /** A compactor of the group, with its labels written out, that lists fewer than the limit. */
  ghost predicate SomeHasRoom(s: Compactors, service: string, storage: string, limit: int) {
    exists k :: k in s.compactors
      && k.ns == Split(service, '.')[0]
      && s.compactors[k].labels.service == Some(service) && s.compactors[k].labels.storage == Some(storage)
      && |s.compactors[k].tenants| < limit
  }

  ghost predicate SomeHolds(s: Compactors, service: string, storage: string, name: string) {
    exists k :: k in s.compactors
      && k.ns == Split(service, '.')[0]
      && s.compactors[k].labels.service == Some(service) && s.compactors[k].labels.storage == Some(storage)
      && name in s.compactors[k].tenants
  }

  /** The tenant was appended to the list of compactor k, which had room, and is recorded there. */
  predicate JoinedAt(s: Compactors, name: string, limit: int, s': Compactors, k: Key) {
    && k in s.compactors && |s.compactors[k].tenants| < limit
    && s'.compactors == s.compactors[k := s.compactors[k].(tenants := s.compactors[k].tenants + [name])]
    && name in s'.clients && s'.clients[name].compactor == Some(k)
  }

  /** A new compactor k lists the tenant alone, with the labels of its group, and nothing else was
      changed. */
  predicate MadeFor(s: Compactors, name: string, service: string, storage: string, s': Compactors, k: Key) {
    && k !in s.compactors && k.ns == Split(service, '.')[0]
    && Part(service, 1, "") + "-" + Part(storage, 1, "") + "-" < k.name
    && s'.compactors == s.compactors[k := Compactor(Labels(Some(service), Some(storage), None, None), [name])]
  }

  /** A shared tenant that no compactor of its group lists joins one with room, whenever there is one.
      A new compactor is made, or the reconcile panics, only when every compactor of the group lists
      as many as the limit allows. */
  lemma RoomIsUsed(s: Compactors, name: string, svc: Service, s': Compactors)
    requires name in s.clients && PlaceShared(s, name, svc, s')
    requires var g := GroupFor(svc, s.clients[name].labels); !SomeHolds(s, g.service, g.storage, name)
    ensures var g := GroupFor(svc, s.clients[name].labels);
      && (SomeHasRoom(s, g.service, g.storage, svc.compactorLimit) <==>
          exists k :: JoinedAt(s, name, svc.compactorLimit, s', k))
      && (!SomeHasRoom(s, g.service, g.storage, svc.compactorLimit) ==>
          s' == s || exists k :: MadeFor(s, name, g.service, g.storage, s', k))
      && ((exists k :: MadeFor(s, name, g.service, g.storage, s', k)) ==>
          !SomeHasRoom(s, g.service, g.storage, svc.compactorLimit))
      && (HasNoPlace(s, name, svc, g) <==> !SomeHasRoom(s, g.service, g.storage, svc.compactorLimit) && '.' !in g.storage)
  {
    var g := GroupFor(svc, s.clients[name].labels);
    HoldersAre(s, g, name);
    RoomyAre(s, g, svc.compactorLimit);
    SplitCount(g.storage, '.');
    if Roomy(s, g, svc.compactorLimit) != {} {
      var k :| k in Roomy(s, g, svc.compactorLimit) && s' == AddTo(s, name, k);
      assert JoinedAt(s, name, svc.compactorLimit, s', k);
      forall l ensures !MadeFor(s, name, g.service, g.storage, s', l) {
        assert s'.compactors.Keys == s.compactors.Keys;
      }
    } else if |Split(g.storage, '.')| >= 2 {
      var k :| MayGenerate(s, g, k) && s' == Generate(s, name, g, k);
      assert MadeFor(s, name, g.service, g.storage, s', k);
      forall l ensures !JoinedAt(s, name, svc.compactorLimit, s', l) {
        assert k in s'.compactors;
      }
    } else {
      forall l ensures !JoinedAt(s, name, svc.compactorLimit, s', l) {
        if l in s.compactors {
          assert |s.compactors[l].tenants + [name]| != |s.compactors[l].tenants|;
        }
      }
    }
  }

  lemma HoldersAre(s: Compactors, g: Group, name: string)
    ensures Holders(s, g, name) == {} <==> !SomeHolds(s, g.service, g.storage, name)
  {
    if k :| (k in s.compactors && k.ns == Split(g.service, '.')[0]
      && s.compactors[k].labels.service == Some(g.service) && s.compactors[k].labels.storage == Some(g.storage)
      && name in s.compactors[k].tenants)
    {
      assert k in Holders(s, g, name);
    }
  }

  lemma RoomyAre(s: Compactors, g: Group, limit: int)
    ensures Roomy(s, g, limit) != {} <==> SomeHasRoom(s, g.service, g.storage, limit)
  {
    if k :| (k in s.compactors && k.ns == Split(g.service, '.')[0]
      && s.compactors[k].labels.service == Some(g.service) && s.compactors[k].labels.storage == Some(g.storage)
      && |s.compactors[k].tenants| < limit)
    {
      assert k in Roomy(s, g, limit);
    }
  }

  /** A recorded tenant stays where it is exactly when that compactor exists, lists it, has its service
      and its storage as labels, and is its own exclusive compactor if and only if the tenant is
      exclusive. */
  lemma StaysIff(s: Compactors, name: string, svc: Service, k: Key)
    requires name in s.clients && s.clients[name].compactor == Some(k)
    ensures !NeedsReset(s, name, svc) <==>
      && k in s.compactors && name in s.compactors[k].tenants
      && s.compactors[k].labels.service == Some(OrEmpty(s.clients[name].labels.service))
      && s.compactors[k].labels.storage == Some(ResolveStorage(svc, OrEmpty(s.clients[name].labels.storage)))
      && (s.clients[name].labels.exclusive == Some("true") <==>
          s.compactors[k].labels.exclusive == Some("true") && k.name == name)
  {
  }
}
