/** One reconcile of a Tenant and one reconcile of an Ingester, as transitions of the cluster
    state, and the system they form with the users of the API. */
module Allocation {
  import opened Text
  import opened Cluster

  // ----- writes of the tenant reconciler -----

  function SetIngesterRef(s: State, name: string, ref: Option<Key>): State
    requires name in s.tenants
  {
    s.(tenants := s.tenants[name := s.tenants[name].(ingester := ref)])
  }

  /** Writing back a Tenant object: an object under deletion disappears with its last
      finalizer. */
  function WriteTenant(s: State, name: string, t: Tenant): State {
    if t.deleting && t.finalizers == [] then s.(tenants := s.tenants - {name})
    else s.(tenants := s.tenants[name := t])
  }

  /** The reconciler's update of the finalizers stores the defaulted id too, not the status. */
  function SetFinalizers(s: State, name: string, finalizers: seq<string>): State
    requires name in s.tenants
  {
    var t := s.tenants[name];
    WriteTenant(s, name, t.(finalizers := finalizers, tenantId := Id(name, t)))
  }

  /** An emptied ingester is stamped with the time after which it may be recycled. */
  function Emptied(ing: Ingester, svc: Service, now: int): Ingester {
    ing.(annotations := Annotations(Some(Deleting), Some(At(UnixSeconds(now + Retention(svc, ing))))))
  }

  /** The ingester after tenant id x has left it. */
  function WithoutTenant(ing: Ingester, x: string, svc: Service, now: int): Ingester {
    var rest := ing.(spec := ing.spec.(tenants := Without(ing.spec.tenants, x)));
    if rest.spec.tenants == [] then Emptied(rest, svc, now) else rest
  }

  /** removeTenantFromIngesterbyName. */
  function Detach(s: State, k: Key, x: string, svc: Service): State {
    if k in s.ingesters && x in s.ingesters[k].spec.tenants
    then s.(ingesters := Upsert(s.ingesters, k, WithoutTenant(s.ingesters[k], x, svc, s.now)))
    else s
  }

  function DropStatus(status: seq<TenantStatus>, name: string): seq<TenantStatus> {
    if status == [] then []
    else (if status[0].name == name then [] else [status[0]]) + DropStatus(status[1..], name)
  }

  /** A deleted tenant leaves the status of every ingester of its service in the namespace of
      that service. */
  predicate IsCleaned(k: Key, ing: Ingester, service: Key) {
    k.ns == service.ns && ing.labels.service == Some(service.ns + "." + service.name)
  }

  function DropFromStatuses(ingesters: map<Key, Ingester>, service: Key, name: string): map<Key, Ingester> {
    map k | k in ingesters ::
      if IsCleaned(k, ingesters[k], service)
      then ingesters[k].(status := DropStatus(ingesters[k].status, name)) else ingesters[k]
  }

  /** The deletion branch: leave the ingester, leave the statuses, release the object. */
  function Finalize(s: State, name: string, svc: Service): State
    requires name in s.tenants && ServiceKey(ServiceLabel(s.tenants[name])).Some?
  {
    var t := s.tenants[name];
    var detached := if t.ingester.Some? then Detach(s, t.ingester.value, Id(name, t), svc) else s;
    var cleaned := detached.(ingesters :=
      DropFromStatuses(detached.ingesters, ServiceKey(ServiceLabel(t)).value, name));
    SetFinalizers(cleaned, name, Without(t.finalizers, FINALIZER_INGESTER))
  }

  /** needResetIngester: the recorded ingester is gone, does not list the tenant, or no longer
      matches its service, storage or exclusiveness. */
  predicate NeedsReset(s: State, name: string, svc: Service)
    requires name in s.tenants
  {
    var t := s.tenants[name];
    t.ingester.Some? &&
    var k := t.ingester.value;
    (k !in s.ingesters ||
     var ing := s.ingesters[k];
     || Id(name, t) !in ing.spec.tenants
     || ing.labels.service != Some(ServiceLabel(t))
     || ing.labels.storage != Some(GroupOf(svc, t).storage)
     || (if IsTrue(t.labels.exclusive)
         then !IsTrue(ing.labels.exclusive) || k.name != name
         else IsTrue(ing.labels.exclusive) && k.name == name))
  }

  /** A recorded tenant stays where it is exactly when that ingester exists, lists its id, has its
      service and its storage as labels, and is its own exclusive ingester if and only if the tenant
      is exclusive. */
  lemma StaysIff(s: State, name: string, svc: Service, k: Key)
    requires name in s.tenants && s.tenants[name].ingester == Some(k)
    ensures var t := s.tenants[name];
      !NeedsReset(s, name, svc) <==>
      && k in s.ingesters && (if t.tenantId == "" then name else t.tenantId) in s.ingesters[k].spec.tenants
      && s.ingesters[k].labels.service == Some(OrEmpty(t.labels.service))
      && s.ingesters[k].labels.storage == Some(ResolveStorage(svc, OrEmpty(t.labels.storage)))
      && (t.labels.exclusive == Some("true") <==> s.ingesters[k].labels.exclusive == Some("true") && k.name == name)
  {
  }

  function Evict(s: State, name: string, svc: Service): State
    requires name in s.tenants && s.tenants[name].ingester.Some?
  {
    var t := s.tenants[name];
    SetIngesterRef(Detach(s, t.ingester.value, Id(name, t), svc), name, None)
  }

  /** createIngesterInstance. */
  function NewIngester(g: Group, x: string, exclusive: bool): Ingester {
    Ingester(Labels(Some(g.service), Some(g.storage), if exclusive then Some("true") else None, None),
             NO_ANNOTATIONS, IngesterSpec([x], None, None), [])
  }

  function PlaceExclusive(s: State, name: string, svc: Service): State
    requires name in s.tenants
  {
    var t := s.tenants[name];
    var g := GroupOf(svc, t);
    var k := Key(GroupNs(g), name);
    SetIngesterRef(s.(ingesters := Upsert(s.ingesters, k, NewIngester(g, Id(name, t), true))), name, Some(k))
  }

  /** addTenantToIngesterInstance: a waiting deletion is called off. */
  function WithTenant(ing: Ingester, x: string): Ingester {
    var added := ing.(spec := ing.spec.(tenants := ing.spec.tenants + [x]));
    if ing.annotations.phase == Some(Deleting)
    then added.(annotations := Annotations(Some(Running), Some(Blank))) else added
  }

  /** Placing tenant id x at index i of its group: joining the ingester found there by the
      List call, else writing a new one. */
  function PlaceAt(s: State, name: string, svc: Service, i: nat): State
    requires name in s.tenants
  {
    var t := s.tenants[name];
    var g := GroupOf(svc, t);
    var k := AutoKey(g, i);
    var desired := if k in Members(s, g) then WithTenant(s.ingesters[k], Id(name, t))
                   else NewIngester(g, Id(name, t), false);
    SetIngesterRef(s.(ingesters := Upsert(s.ingesters, k, desired)), name, Some(k))
  }

  /** Index i can take a tenant: its ingester is missing or has room. */
  predicate Open(s: State, g: Group, limit: int, i: nat) {
    AutoKey(g, i) in Members(s, g) ==> |s.ingesters[AutoKey(g, i)].spec.tenants| < limit
  }

  predicate LeastOpen(s: State, g: Group, limit: int, i: nat) {
    Open(s, g, limit, i) && forall j: nat | j < i :: !Open(s, g, limit, j)
  }

  /** Ingesters of the group that list x already. The order in which the code meets them is
      the order of a Go map. */
  function Holders(s: State, g: Group, x: string): set<Key> {
    set k | k in Members(s, g) && x in s.ingesters[k].spec.tenants
  }

  ghost predicate PlaceShared(s: State, name: string, svc: Service, s': State)
    requires name in s.tenants
  {
    var t := s.tenants[name];
    var g := GroupOf(svc, t);
    var holders := Holders(s, g, Id(name, t));
    if holders != {} then exists k :: k in holders && s' == SetIngesterRef(s, name, Some(k))
    else exists i: nat :: LeastOpen(s, g, svc.limit, i) && s' == PlaceAt(s, name, svc, i)
  }

  /** The ingester part of one Tenant reconcile. */
  ghost predicate TenantStep(s: State, name: string, svc: Service, s': State)
    requires name in s.tenants && ServiceOf(s, s.tenants[name]) == Some(svc)
  {
    var t := s.tenants[name];
    if !t.deleting && FINALIZER_INGESTER !in t.finalizers then
      s' == SetFinalizers(s, name, t.finalizers + [FINALIZER_INGESTER])
    else if t.deleting && FINALIZER_INGESTER in t.finalizers then
      s' == Finalize(s, name, svc)
    else if NeedsReset(s, name, svc) then
      s' == Evict(s, name, svc)
    else if IsTrue(t.labels.exclusive) then
      s' == PlaceExclusive(s, name, svc)
    else
      PlaceShared(s, name, svc, s')
  }

  /** The reconcile gets as far as choosing an index. */
  predicate PlacesByIndex(s: State, name: string, svc: Service)
    requires name in s.tenants
  {
    var t := s.tenants[name];
    && (t.deleting <==> FINALIZER_INGESTER !in t.finalizers)
    && !NeedsReset(s, name, svc)
    && !IsTrue(t.labels.exclusive)
    && Holders(s, GroupOf(svc, t), Id(name, t)) == {}
  }

  ghost predicate ReconcilesTenant(s: State, name: string, s': State) {
    if name in s.tenants && ServiceOf(s, s.tenants[name]).Some?
    then TenantStep(s, name, ServiceOf(s, s.tenants[name]).value, s')
    else s' == s
  }

  // ----- the ingester reconciler -----

  /** The status of the ingester after seeing its spec: old names first, each marked obsolete
      when the spec has lost it, then the names that are new in the spec. */
  function MarkObsolete(tenants: seq<string>, status: seq<TenantStatus>): seq<TenantStatus> {
    if status == [] then []
    else [TenantStatus(status[0].name, status[0].name !in tenants)] + MarkObsolete(tenants, status[1..])
  }

  predicate InStatus(status: seq<TenantStatus>, name: string) {
    exists i :: 0 <= i < |status| && status[i].name == name
  }

  function NewNames(tenants: seq<string>, status: seq<TenantStatus>): seq<TenantStatus> {
    if tenants == [] then []
    else (if InStatus(status, tenants[0]) then [] else [TenantStatus(tenants[0], false)])
         + NewNames(tenants[1..], status)
  }

  function MergeStatus(tenants: seq<string>, status: seq<TenantStatus>): seq<TenantStatus> {
    MarkObsolete(tenants, status) + NewNames(tenants, status)
  }

  /** The controller finds the ingester's Service: a label of exactly two parts, naming an
      existing Service. */
  predicate HasService(s: State, ing: Ingester) {
    var text := OrEmpty(ing.labels.service);
    text != "" && |Split(text, '.')| == 2 && ServiceKey(text).value in s.services
  }

  /** A recycle time is set and the ingester is empty. */
  predicate IsCondemned(ing: Ingester) {
    && ing.annotations.phase == Some(Deleting)
    && ing.spec.tenants == []
    && ing.annotations.deletingTime.Some?
    && ing.annotations.deletingTime.value.At?
  }

  predicate IsExpired(ing: Ingester, now: int) {
    IsCondemned(ing) && now - ing.annotations.deletingTime.value.sec * SECOND >= 0
  }

  datatype IngesterOutcome = Ignored | Panicked | StatusWritten | Requeued(after: int) | Recycled | Applied

  /** A service label that is not of two parts gives no name, which the controller dereferences. */
  predicate HasBadLabel(ing: Ingester) {
    var text := OrEmpty(ing.labels.service);
    text != "" && |Split(text, '.')| != 2
  }

  function IngesterReaction(s: State, k: Key): IngesterOutcome {
    if k !in s.ingesters then Ignored
    else if HasBadLabel(s.ingesters[k]) then Panicked
    else if !HasService(s, s.ingesters[k]) then Ignored
    else
      var ing := s.ingesters[k];
      if MergeStatus(ing.spec.tenants, ing.status) != ing.status then StatusWritten
      else if IsExpired(ing, s.now) then Recycled
      else if IsCondemned(ing) then Requeued(ing.annotations.deletingTime.value.sec * SECOND - s.now)
      else Applied
  }

  function AfterIngester(s: State, k: Key): State {
    match IngesterReaction(s, k)
    case StatusWritten =>
      var ing := s.ingesters[k];
      s.(ingesters := s.ingesters[k := ing.(status := MergeStatus(ing.spec.tenants, ing.status))])
    case Recycled => s.(ingesters := s.ingesters - {k})
    case _ => s
  }

  // ----- the system -----

  datatype Action =
    | ReconcileTenant(name: string)
    | ReconcileIngester(key: Key)
    | CreateTenant(name: string, tenant: Tenant)
    | Relabel(name: string, labels: Labels)
    | DeleteTenant(name: string)
    | EditFinalizers(name: string, finalizers: seq<string>)
    | EditIngester(key: Key, localRetention: Option<int>, replicas: Option<nat>)
    | PutService(key: Key, service: Service)
    | Tick

  /** Nobody else uses the tenant id of the new object. */
  predicate FreshId(s: State, name: string, t: Tenant) {
    forall n :: n in s.tenants ==> Id(n, s.tenants[n]) != Id(name, t)
  }

  /** Finalizers other than the ingester's are edited by users and by other parts of the operator,
      which store the defaulted id too. */
  ghost predicate Next(s: State, a: Action, s': State) {
    match a
    case ReconcileTenant(name) => ReconcilesTenant(s, name, s')
    case ReconcileIngester(k) => s' == AfterIngester(s, k)
    case CreateTenant(name, t) =>
      && name !in s.tenants && FreshId(s, name, t) && t.ingester.None? && !t.deleting
      && s' == s.(tenants := s.tenants[name := t])
    case Relabel(name, labels) =>
      name in s.tenants && s' == s.(tenants := s.tenants[name := s.tenants[name].(labels := labels)])
    case DeleteTenant(name) =>
      && name in s.tenants
      && s' == if s.tenants[name].finalizers == [] then s.(tenants := s.tenants - {name})
               else s.(tenants := s.tenants[name := s.tenants[name].(deleting := true)])
    case EditFinalizers(name, fs) =>
      && name in s.tenants
      && (FINALIZER_INGESTER in fs <==> FINALIZER_INGESTER in s.tenants[name].finalizers)
      && (s' == WriteTenant(s, name, s.tenants[name].(finalizers := fs)) || s' == SetFinalizers(s, name, fs))
    case EditIngester(k, localRetention, replicas) =>
      && k in s.ingesters
      && var ing := s.ingesters[k];
      s' == s.(ingesters := s.ingesters[k := ing.(spec := IngesterSpec(ing.spec.tenants, localRetention, replicas))])
    case PutService(k, svc) => s' == s.(services := s.services[k := svc])
    case Tick => exists now :: now >= s.now && s' == s.(now := now)
  }

  /** Before the first tenant: ingesters users made by hand list nobody, have an empty status
      and carry no stamp. */
  ghost predicate Init(s: State) {
    && s.tenants == map[]
    && forall k :: k in s.ingesters ==>
         && s.ingesters[k].spec.tenants == []
         && s.ingesters[k].status == []
         && s.ingesters[k].annotations == NO_ANNOTATIONS
  }

  ghost predicate IsRun(run: seq<State>, acts: seq<Action>) {
    && |run| == |acts| + 1
    && Init(run[0])
    && forall i :: 0 <= i < |acts| ==> Next(run[i], acts[i], run[i + 1])
  }
}
