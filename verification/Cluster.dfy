/** The part of the API server the tenant allocator works on: Tenant, Ingester and Service
    objects, their labels, and the names the allocator derives from them. */
module Cluster {
  import opened Text

  const FINALIZER_INGESTER := "finalizers.monitoring.whizard.io/ingester"
  const DEFAULT_STORAGE := "default"
  const LOCAL_STORAGE := "local"

  /** Nanoseconds in a second: durations and clock readings are nanoseconds. */
  const SECOND := 1_000_000_000

  /** types.NamespacedName. */
  datatype Key = Key(ns: string, name: string)

  /** The labels the allocator reads; None is an absent label. */
  datatype Labels = Labels(service: Option<string>, storage: Option<string>,
                           exclusive: Option<string>, softTenant: Option<string>)

  const NO_LABELS := Labels(None, None, None, None)

  /** The ingester-state annotation. */
  datatype Phase = Deleting | Running

  /** The ingester-deleting-time annotation: blanked, or a Unix time in seconds. */
  datatype DeletingTime = Blank | At(sec: int)

  datatype Annotations = Annotations(phase: Option<Phase>, deletingTime: Option<DeletingTime>)

  const NO_ANNOTATIONS := Annotations(None, None)

  datatype TenantStatus = TenantStatus(name: string, obsolete: bool)

  /** localRetention is the parsed LocalTsdbRetention; None when the field is empty. */
  datatype IngesterSpec = IngesterSpec(tenants: seq<string>, localRetention: Option<int>, replicas: Option<nat>)

  datatype Ingester = Ingester(labels: Labels, annotations: Annotations, spec: IngesterSpec, status: seq<TenantStatus>)

  /** ingester is Status.Ingester. */
  datatype Tenant = Tenant(tenantId: string, labels: Labels, finalizers: seq<string>, deleting: bool, ingester: Option<Key>)

  /** limit is DefaultTenantsPerIngester, compactorLimit DefaultTenantsPerCompactor, retention the
      parsed DefaultIngesterRetentionPeriod. */
  datatype Service = Service(storage: Option<Key>, limit: int, compactorLimit: int, retention: int,
                             replicas: Option<nat>, defaultTenantId: string)

  datatype State = State(tenants: map<string, Tenant>, ingesters: map<Key, Ingester>, services: map<Key, Service>, now: int)

  function Max(a: int, b: int): int { if a >= b then a else b }

  // ----- labels -----

  /** Reading a missing key of a Go map gives the empty string. */
  function OrEmpty(v: Option<string>): string {
    if v.Some? then v.value else ""
  }

  predicate IsTrue(v: Option<string>) { v == Some("true") }

  function Newer<T>(current: Option<T>, desired: Option<T>): Option<T> {
    if desired.Some? then desired else current
  }

  /** labels.Merge: the second argument wins. */
  function MergeLabels(current: Labels, desired: Labels): Labels {
    Labels(Newer(current.service, desired.service), Newer(current.storage, desired.storage),
           Newer(current.exclusive, desired.exclusive), Newer(current.softTenant, desired.softTenant))
  }

  function MergeAnnotations(current: Annotations, desired: Annotations): Annotations {
    Annotations(Newer(current.phase, desired.phase), Newer(current.deletingTime, desired.deletingTime))
  }

  /** Writing an Ingester: the spec is replaced, labels and annotations are merged, the status
      belongs to its own subresource and is not touched. */
  function Upsert(ingesters: map<Key, Ingester>, k: Key, desired: Ingester): map<Key, Ingester> {
    if k in ingesters then
      var current := ingesters[k];
      ingesters[k := desired.(labels := MergeLabels(current.labels, desired.labels),
                              annotations := MergeAnnotations(current.annotations, desired.annotations),
                              status := current.status)]
    else
      ingesters[k := desired.(status := [])]
  }

  // ----- services, storages and groups -----

  /** The tenant id, defaulted to the object name. */
  function Id(name: string, t: Tenant): string {
    if t.tenantId == "" then name else t.tenantId
  }

  function ServiceLabel(t: Tenant): string { OrEmpty(t.labels.service) }

  /** Namespace and name in a service label: its first two dot-separated parts. */
  function ServiceKey(text: string): Option<Key> {
    var parts := Split(text, '.');
    if |parts| >= 2 then Some(Key(parts[0], parts[1])) else None
  }

  /** The Service a tenant reconcile works with; None when the reconcile ends before it starts:
      an empty label, a label without a dot, or a Service that does not exist. */
  function ServiceOf(s: State, t: Tenant): Option<Service> {
    FindService(s.services, ServiceLabel(t))
  }

  function FindService(services: map<Key, Service>, text: string): Option<Service> {
    var k := ServiceKey(text);
    if text != "" && k.Some? && k.value in services then Some(services[k.value]) else None
  }

  /** GetStorage: the default storage is the one of the Service, else the local disk. */
  function ResolveStorage(svc: Service, text: string): string {
    if text == "" || text == DEFAULT_STORAGE then
      if svc.storage.Some? then svc.storage.value.ns + "." + svc.storage.value.name else LOCAL_STORAGE
    else text
  }

  /** Tenants share ingesters only inside a group: one service label and one resolved storage. */
  datatype Group = Group(service: string, storage: string)

  function GroupOf(svc: Service, t: Tenant): Group { GroupFor(svc, t.labels) }

  function GroupFor(svc: Service, labels: Labels): Group {
    Group(OrEmpty(labels.service), ResolveStorage(svc, OrEmpty(labels.storage)))
  }

  function GroupNs(g: Group): string { Split(g.service, '.')[0] }

  function Part(text: string, i: nat, default: string): string {
    var parts := Split(text, '.');
    if i < |parts| then parts[i] else default
  }

  /** What names a group's ingesters: the name parts of its service and its storage. Neither the
      storage's namespace nor the place of the dash can be read back from it. */
  function Base(g: Group): string { Part(g.service, 1, "") + "-" + Part(g.storage, 1, LOCAL_STORAGE) }

  /** createIngesterInstanceName. */
  function AutoName(g: Group, i: nat): string { Base(g) + "-auto-" + Itoa(i) }

  function AutoKey(g: Group, i: nat): Key { Key(GroupNs(g), AutoName(g, i)) }

  /** The storage of a group: a label that says something else than "default" is taken as it is; else
      the Service's storage is taken, or the local disk where it has none. */
  lemma ResolveStorageIs(svc: Service, text: string)
    ensures text != "" && text != "default" ==> ResolveStorage(svc, text) == text
    ensures text in {"", "default"} && svc.storage.Some? ==>
      ResolveStorage(svc, text) == svc.storage.value.ns + ['.'] + svc.storage.value.name
    ensures text in {"", "default"} && svc.storage.None? ==> ResolveStorage(svc, text) == "local"
    ensures ResolveStorage(svc, ResolveStorage(svc, text)) == ResolveStorage(svc, text)
  {
    if text in {"", "default"} && svc.storage.Some? {
      var full := svc.storage.value.ns + ['.'] + svc.storage.value.name;
      assert full[|svc.storage.value.ns|] == '.';
    }
  }

  /** The automatic names of a group, written out. */
  lemma AutoKeyIs(ns: string, service: string, m: string, storage: string, i: nat)
    requires '.' !in ns && '.' !in service && '.' !in m && '.' !in storage
    ensures AutoKey(Group(ns + ['.'] + service, m + ['.'] + storage), i) == Key(ns, service + "-" + storage + "-auto-" + Itoa(i))
    ensures AutoKey(Group(ns + ['.'] + service, "local"), i) == Key(ns, service + "-" + "local" + "-auto-" + Itoa(i))
  {
    PartsAre(ns, service);
    PartsAre(m, storage);
    SplitWhole("local", '.');
    assert Part("local", 1, LOCAL_STORAGE) == "local";
  }

  lemma PartsAre(a: string, b: string)
    requires '.' !in a && '.' !in b
    ensures Split(a + ['.'] + b, '.') == [a, b]
    ensures forall default :: Part(a + ['.'] + b, 0, default) == a && Part(a + ['.'] + b, 1, default) == b
  {
    SplitAtFirst(a, b, '.');
    SplitWhole(b, '.');
  }

  /** n is an automatic name of the group, for some index. */
  predicate NamedAuto(g: Group, n: string) {
    var prefix := Base(g) + "-auto-";
    prefix <= n && IsSequenceNumber(n[|prefix|..])
  }

  /** The selector of the allocator's List call. */
  predicate InGroup(k: Key, ing: Ingester, g: Group) {
    k.ns == GroupNs(g) && ing.labels.service == Some(g.service) && ing.labels.storage == Some(g.storage)
  }

  function Members(s: State, g: Group): set<Key> {
    set k | k in s.ingesters && InGroup(k, s.ingesters[k], g)
  }

  lemma AutoNameInjective(g: Group, i: nat, j: nat)
    requires AutoName(g, i) == AutoName(g, j)
    ensures i == j
  {
    AutoKeysMeetIff(g, i, g, j);
  }

  /** Two automatic names are the same exactly when the index, the namespace and the base are. */
  lemma AutoKeysMeetIff(g: Group, i: nat, h: Group, j: nat)
    ensures AutoKey(g, i) == AutoKey(h, j) <==> i == j && GroupNs(g) == GroupNs(h) && Base(g) == Base(h)
  {
    if AutoKey(g, i) == AutoKey(h, j) {
      ItoaHasNo(i, '-');
      ItoaHasNo(j, '-');
      assert AutoName(g, i) == Base(g) + "-auto" + ['-'] + Itoa(i);
      assert AutoName(h, j) == Base(h) + "-auto" + ['-'] + Itoa(j);
      LastCutUnique(Base(g) + "-auto", Itoa(i), Base(h) + "-auto", Itoa(j), '-');
      ItoaInjective(i, j);
      assert |Base(g)| == |Base(h)|;
      assert (Base(g) + "-auto")[..|Base(g)|] == Base(g) && (Base(h) + "-auto")[..|Base(h)|] == Base(h);
    }
  }

  /** Whether a name is automatic can be read off it. */
  lemma NamedAutoIff(g: Group, n: string)
    ensures NamedAuto(g, n) <==> exists i: nat :: n == AutoName(g, i)
  {
    var prefix := Base(g) + "-auto-";
    if NamedAuto(g, n) {
      SequenceNumberIffPrinted(n[|prefix|..]);
      var i: nat :| n[|prefix|..] == Itoa(i);
      assert n == prefix + n[|prefix|..] == AutoName(g, i);
    }
    if i: nat :| n == AutoName(g, i) {
      ItoaReadsBack(i);
      assert n == prefix + Itoa(i);
      assert n[|prefix|..] == Itoa(i);
    }
  }

  // ----- retention -----

  /** How long an emptied ingester is kept: the service default for object storage, the local
      retention when it is positive otherwise. */
  function Retention(svc: Service, ing: Ingester): int {
    if ing.labels.storage.Some? && ing.labels.storage.value != LOCAL_STORAGE then svc.retention
    else
      var local := if ing.spec.localRetention.Some? then ing.spec.localRetention.value else 0;
      if local <= 0 then svc.retention else local
  }

  /** time.Unix truncates to whole seconds. */
  function UnixSeconds(instant: int): int { instant / SECOND }
}
