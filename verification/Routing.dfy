/** The write router: from the placement to hashrings, and from a tenant id to endpoints. */
module Routing {
  import opened Text
  import opened Cluster
  import opened Allocation
  import opened AllocationSafety

  datatype Endpoint = Endpoint(address: string, capnproto: string)

  datatype Ring = Ring(name: string, tenants: seq<string>, endpoints: seq<Endpoint>)

  /** One item of the Ingester list. */
  datatype Item = Item(key: Key, ingester: Ingester)

  // ----- the endpoints of one ingester -----

  /** The replicas of the ingester, else of the Service's template, else two. */
  function Replicas(ing: Ingester, svc: Service): nat {
    if ing.spec.replicas.Some? then ing.spec.replicas.value
    else if svc.replicas.Some? then svc.replicas.value
    else 2
  }

  /** The stable name of replica i. */
  function ReplicaAddress(k: Key, i: nat): string {
    var name := "ingester-" + k.name;
    (name + "-") + Itoa(i) + ("." + name + "-operated." + k.ns + ".svc")
  }

  function ReplicaEndpoint(k: Key, i: nat): Endpoint {
    Endpoint(ReplicaAddress(k, i) + ":10901", ReplicaAddress(k, i) + ":19391")
  }

  function Endpoints(k: Key, n: nat): (es: seq<Endpoint>)
    ensures |es| == n && forall i :: 0 <= i < n ==> es[i] == ReplicaEndpoint(k, i)
  {
    seq(n, i requires 0 <= i => ReplicaEndpoint(k, i))
  }

  lemma MiddleEqual(p: string, a: string, b: string, q: string)
    requires p + a + q == p + b + q
    ensures a == b
  {
    assert |a| == |b|;
    assert a == (p + a + q)[|p|..|p| + |a|];
    assert b == (p + b + q)[|p|..|p| + |b|];
  }

  lemma SuffixEqual(a: string, b: string, q: string)
    requires a + q == b + q
    ensures a == b
  {
    assert "" + a + q == a + q && "" + b + q == b + q;
    MiddleEqual("", a, b, q);
  }

  /** Replicas have distinct endpoints. */
  lemma EndpointsDistinct(k: Key, n: nat)
    ensures NoDup(Endpoints(k, n))
  {
    var es := Endpoints(k, n);
    forall i, j | 0 <= i < j < n ensures es[i] != es[j] {
      if es[i] == es[j] {
        SuffixEqual(ReplicaAddress(k, i), ReplicaAddress(k, j), ":10901");
        var name := "ingester-" + k.name;
        MiddleEqual(name + "-", Itoa(i), Itoa(j), "." + name + "-operated." + k.ns + ".svc");
        ItoaInjective(i, j);
      }
    }
  }

  // ----- the generated rings -----

  function RingOf(it: Item, svc: Service): Ring {
    Ring(it.key.ns + "/" + it.key.name, it.ingester.spec.tenants, Endpoints(it.key, Replicas(it.ingester, svc)))
  }

  function TenantRings(items: seq<Item>, svc: Service): seq<Ring> {
    if items == [] then []
    else TenantRings(items[..|items| - 1], svc)
         + (if items[|items| - 1].ingester.spec.tenants == [] then [] else [RingOf(items[|items| - 1], svc)])
  }

  /** The number of endpoints: what the ingester sets, whatever the Service says; if it sets none what
      the Service says; else two. */
  lemma ReplicasAre(ing: Ingester, svc: Service, n: nat)
    ensures ing.spec.replicas == Some(n) ==> Replicas(ing, svc) == n
    ensures ing.spec.replicas.None? && svc.replicas == Some(n) ==> Replicas(ing, svc) == n
    ensures ing.spec.replicas.None? && svc.replicas.None? ==> Replicas(ing, svc) == 2
  {
  }

  /** A ring named after an ingester, with its tenants and one endpoint for each of its replicas, in
      order. */
  ghost predicate IsRingOf(ring: Ring, k: Key, ing: Ingester, svc: Service) {
    && ring.name == k.ns + "/" + k.name && ring.tenants == ing.spec.tenants
    && (ing.spec.replicas.Some? ==> |ring.endpoints| == ing.spec.replicas.value)
    && (ing.spec.replicas.None? && svc.replicas.Some? ==> |ring.endpoints| == svc.replicas.value)
    && (ing.spec.replicas.None? && svc.replicas.None? ==> |ring.endpoints| == 2)
    && forall i :: 0 <= i < |ring.endpoints| ==> ring.endpoints[i] == ReplicaEndpoint(k, i)
  }

  lemma IsRing(it: Item, svc: Service)
    ensures IsRingOf(RingOf(it, svc), it.key, it.ingester, svc)
  {
  }

  /** The address of a replica, written out. */
  lemma AddressIs(ns: string, name: string)
    ensures ReplicaEndpoint(Key(ns, name), 0) ==
      Endpoint("ingester-" + name + "-0.ingester-" + name + "-operated." + ns + ".svc:10901",
               "ingester-" + name + "-0.ingester-" + name + "-operated." + ns + ".svc:19391")
  {
    assert Itoa(0) == "0";
    var full := "ingester-" + name + "-0.ingester-" + name + "-operated." + ns + ".svc";
    assert ReplicaAddress(Key(ns, name), 0) == full;
  }

  /** Ingesters without tenants serve the soft ring when they carry the soft-tenant label. */
  function SoftEndpoints(items: seq<Item>, svc: Service): seq<Endpoint> {
    if items == [] then []
    else
      var it := items[|items| - 1];
      SoftEndpoints(items[..|items| - 1], svc)
      + (if it.ingester.spec.tenants == [] && IsTrue(it.ingester.labels.softTenant)
         then Endpoints(it.key, Replicas(it.ingester, svc)) else [])
  }

  function Hashrings(items: seq<Item>, svc: Service): seq<Ring> {
    TenantRings(items, svc) + [Ring("softs", [], SoftEndpoints(items, svc))]
  }

  method Address(it: Item, svc: Service) returns (addrs: seq<string>)
    ensures |addrs| == Replicas(it.ingester, svc)
    ensures forall i :: 0 <= i < |addrs| ==> addrs[i] == ReplicaAddress(it.key, i)
  {
    var n: nat := 2;
    if it.ingester.spec.replicas.Some? {
      n := it.ingester.spec.replicas.value;
    } else if svc.replicas.Some? {
      n := svc.replicas.value;
    }
    addrs := [];
    for i := 0 to n
      invariant |addrs| == i && forall j :: 0 <= j < i ==> addrs[j] == ReplicaAddress(it.key, j)
    {
      addrs := addrs + [ReplicaAddress(it.key, i)];
    }
  }

  method EndpointsOf(it: Item, svc: Service) returns (endpoints: seq<Endpoint>)
    ensures endpoints == Endpoints(it.key, Replicas(it.ingester, svc))
  {
    var addrs := Address(it, svc);
    endpoints := [];
    for i := 0 to |addrs|
      invariant endpoints == Endpoints(it.key, |addrs|)[..i]
    {
      endpoints := endpoints + [Endpoint(addrs[i] + ":10901", addrs[i] + ":19391")];
    }
  }

  /** hashringsConfigMap, up to the JSON encoding. */
  method HashringsConfig(items: seq<Item>, svc: Service) returns (hashrings: seq<Ring>)
    ensures hashrings == Hashrings(items, svc) && Describes(hashrings, items, svc)
  {
    HashringsDescribe(items, svc);
    hashrings := [];
    var soft: seq<Endpoint> := [];
    for i := 0 to |items|
      invariant hashrings == TenantRings(items[..i], svc)
      invariant soft == SoftEndpoints(items[..i], svc)
    {
      var it := items[i];
      assert items[..i + 1][..i] == items[..i];
      if |it.ingester.spec.tenants| == 0 {
        if IsTrue(it.ingester.labels.softTenant) {
          var eps := EndpointsOf(it, svc);
          soft := soft + eps;
        }
      } else {
        var eps := EndpointsOf(it, svc);
        hashrings := hashrings + [Ring(it.key.ns + "/" + it.key.name, it.ingester.spec.tenants, eps)];
      }
    }
    assert items[..|items|] == items;
    hashrings := hashrings + [Ring("softs", [], soft)];
  }

  /** A ring for each ingester that lists somebody, no other ring but the last, which lists nobody and
      holds the replicas of the soft-tenant ingesters that list nobody. */
  ghost predicate Describes(rings: seq<Ring>, items: seq<Item>, svc: Service) {
    && |rings| >= 1 && rings[|rings| - 1].tenants == []
    && (forall i :: 0 <= i < |items| && items[i].ingester.spec.tenants != [] ==>
          exists r :: 0 <= r < |rings| - 1 && IsRingOf(rings[r], items[i].key, items[i].ingester, svc))
    && (forall r :: 0 <= r < |rings| - 1 ==> HasIngester(rings[r], items, svc))
    && forall e :: e in rings[|rings| - 1].endpoints <==> IsSoft(items, svc, e)
  }

  ghost predicate IsSoft(items: seq<Item>, svc: Service, e: Endpoint) {
    exists i, j :: IsSoftEndpoint(items, svc, i, j, e)
  }

  lemma HashringsDescribe(items: seq<Item>, svc: Service)
    ensures Describes(Hashrings(items, svc), items, svc)
  {
    RingsAre(items, svc);
    forall e ensures e in SoftEndpoints(items, svc) <==> IsSoft(items, svc, e) {
      SoftEndpointIff(items, svc, e);
    }
  }

  /** The ring belongs to an item that lists somebody. */
  ghost predicate HasIngester(ring: Ring, items: seq<Item>, svc: Service) {
    exists i :: 0 <= i < |items| && items[i].ingester.spec.tenants != [] && IsRingOf(ring, items[i].key, items[i].ingester, svc)
  }

  lemma RingsAre(items: seq<Item>, svc: Service)
    ensures forall i :: 0 <= i < |items| && items[i].ingester.spec.tenants != [] ==>
      exists r :: 0 <= r < |TenantRings(items, svc)| && IsRingOf(Hashrings(items, svc)[r], items[i].key, items[i].ingester, svc)
    ensures forall r :: 0 <= r < |TenantRings(items, svc)| ==> HasIngester(Hashrings(items, svc)[r], items, svc)
  {
    var tr, rings := TenantRings(items, svc), Hashrings(items, svc);
    forall i | 0 <= i < |items| && items[i].ingester.spec.tenants != []
      ensures exists r :: 0 <= r < |tr| && IsRingOf(rings[r], items[i].key, items[i].ingester, svc)
    {
      var r := RingBehind(items, svc, i);
      IsRing(items[i], svc);
      assert rings[r] == tr[r];
    }
    forall r | 0 <= r < |tr| ensures HasIngester(rings[r], items, svc) {
      var i := ItemBehind(items, svc, r);
      IsRing(items[i], svc);
      assert rings[r] == tr[r];
    }
  }

  /** e is replica j of item i, which lists nobody and has the soft-tenant label. */
  ghost predicate IsSoftEndpoint(items: seq<Item>, svc: Service, i: int, j: int, e: Endpoint) {
    && 0 <= i < |items| && items[i].ingester.spec.tenants == []
    && items[i].ingester.labels.softTenant == Some("true")
    && 0 <= j && e == ReplicaEndpoint(items[i].key, j)
    && (items[i].ingester.spec.replicas.Some? ==> j < items[i].ingester.spec.replicas.value)
    && (items[i].ingester.spec.replicas.None? && svc.replicas.Some? ==> j < svc.replicas.value)
    && (items[i].ingester.spec.replicas.None? && svc.replicas.None? ==> j < 2)
  }

  function OwnSoft(it: Item, svc: Service): seq<Endpoint> {
    if it.ingester.spec.tenants == [] && IsTrue(it.ingester.labels.softTenant)
    then Endpoints(it.key, Replicas(it.ingester, svc)) else []
  }

  lemma OwnSoftIff(items: seq<Item>, svc: Service, i: nat, e: Endpoint)
    requires i < |items|
    ensures e in OwnSoft(items[i], svc) <==> exists j :: IsSoftEndpoint(items, svc, i, j, e)
  {
    var own := OwnSoft(items[i], svc);
    if e in own {
      var j :| 0 <= j < |own| && own[j] == e;
      assert IsSoftEndpoint(items, svc, i, j, e);
    }
    if j :| IsSoftEndpoint(items, svc, i, j, e) {
      assert own[j] == e;
    }
  }

  /** The soft ring holds exactly the replicas of such ingesters. */
  lemma {:induction false} SoftEndpointIff(items: seq<Item>, svc: Service, e: Endpoint)
    ensures e in SoftEndpoints(items, svc) <==> IsSoft(items, svc, e)
  {
    if items != [] {
      var n := |items| - 1;
      SoftEndpointIff(items[..n], svc, e);
      OwnSoftIff(items, svc, n, e);
      assert SoftEndpoints(items, svc) == SoftEndpoints(items[..n], svc) + OwnSoft(items[n], svc);
      SoftOfPrefix(items, svc, e);
    }
  }

  lemma SoftOfPrefix(items: seq<Item>, svc: Service, e: Endpoint)
    requires items != []
    ensures var n := |items| - 1;
      IsSoft(items, svc, e) <==> IsSoft(items[..n], svc, e) || exists j :: IsSoftEndpoint(items, svc, n, j, e)
  {
    var n := |items| - 1;
    if i, j :| IsSoftEndpoint(items[..n], svc, i, j, e) {
      assert IsSoftEndpoint(items, svc, i, j, e);
    }
    if i, j :| IsSoftEndpoint(items, svc, i, j, e) {
      assert i < n ==> IsSoftEndpoint(items[..n], svc, i, j, e);
    }
  }

  /** Changing the replicas of the Service changes no ring of an ingester that sets its own, and of
      the others only the number of endpoints. */
  lemma {:induction false} TemplateMatters(items: seq<Item>, svc: Service, other: Service, r: nat) returns (i: nat)
    requires r < |TenantRings(items, svc)|
    ensures i < |items| && r < |TenantRings(items, other)| == |TenantRings(items, svc)|
    ensures var a, b := TenantRings(items, svc)[r], TenantRings(items, other)[r];
      && IsRingOf(a, items[i].key, items[i].ingester, svc) && IsRingOf(b, items[i].key, items[i].ingester, other)
      && (items[i].ingester.spec.replicas.Some? ==> a == b)
  {
    var n := |items| - 1;
    SameCount(items[..n], svc, other);
    if r < |TenantRings(items[..n], svc)| {
      i := TemplateMatters(items[..n], svc, other, r);
    } else {
      i := n;
      IsRing(items[n], svc);
      IsRing(items[n], other);
    }
  }

  lemma {:induction false} SameCount(items: seq<Item>, svc: Service, other: Service)
    ensures |TenantRings(items, svc)| == |TenantRings(items, other)|
  {
    if items != [] {
      SameCount(items[..|items| - 1], svc, other);
    }
  }

  // ----- looking a tenant up -----

  predicate Matches(r: Ring, x: string) { r.tenants == [] || x in r.tenants }

  /** The receiver takes the first ring that matches; an empty tenant list matches everybody. */
  function Lookup(rings: seq<Ring>, x: string): Option<Ring> {
    if rings == [] then None
    else if Matches(rings[0], x) then Some(rings[0])
    else Lookup(rings[1..], x)
  }

  /** The items are the ingesters of one service, each once, in any order. */
  ghost predicate IsListing(items: seq<Item>, s: State, service: string) {
    && (forall i :: 0 <= i < |items| ==>
          && items[i].key in s.ingesters
          && items[i].ingester == s.ingesters[items[i].key]
          && items[i].ingester.labels.service == Some(service))
    && (forall i, j :: 0 <= i < j < |items| ==> items[i].key != items[j].key)
    && (forall k :: k in s.ingesters && s.ingesters[k].labels.service == Some(service) ==>
          exists i :: 0 <= i < |items| && items[i].key == k)
  }

  lemma {:induction false} LookupFirst(rings: seq<Ring>, x: string, i: nat)
    requires i < |rings| && Matches(rings[i], x)
    requires forall j :: 0 <= j < i ==> !Matches(rings[j], x)
    ensures Lookup(rings, x) == Some(rings[i])
  {
    if i > 0 {
      LookupFirst(rings[1..], x, i - 1);
    }
  }

  /** Every ring before the last belongs to an item with a non-empty list. */
  lemma {:induction false} ItemBehind(items: seq<Item>, svc: Service, r: nat) returns (i: nat)
    requires r < |TenantRings(items, svc)|
    ensures i < |items| && items[i].ingester.spec.tenants != []
    ensures TenantRings(items, svc)[r] == RingOf(items[i], svc)
  {
    var n := |items| - 1;
    var before := TenantRings(items[..n], svc);
    if r < |before| {
      i := ItemBehind(items[..n], svc, r);
    } else {
      i := n;
    }
  }

  /** Every item with a non-empty list has its ring before the last. */
  lemma {:induction false} RingBehind(items: seq<Item>, svc: Service, i: nat) returns (r: nat)
    requires i < |items| && items[i].ingester.spec.tenants != []
    ensures r < |TenantRings(items, svc)| && TenantRings(items, svc)[r] == RingOf(items[i], svc)
  {
    var n := |items| - 1;
    if i < n {
      r := RingBehind(items[..n], svc, i);
    } else {
      r := |TenantRings(items[..n], svc)|;
    }
  }

  lemma RingsListOnlyOwners(items: seq<Item>, svc: Service, s: State, service: string, r: nat, k: Key, x: string)
    requires Inv(s) && IsListing(items, s, service) && Lists(s, k, x)
    requires r < |TenantRings(items, svc)| && Matches(TenantRings(items, svc)[r], x)
    ensures TenantRings(items, svc)[r] == RingOf(Item(k, s.ingesters[k]), svc)
  {
    var i := ItemBehind(items, svc, r);
    ListedOnce(s, items[i].key, k, x);
  }

  lemma {:induction false} FirstMatching(rings: seq<Ring>, x: string, i: nat) returns (f: nat)
    requires i < |rings| && Matches(rings[i], x)
    ensures f <= i && Matches(rings[f], x) && forall j :: 0 <= j < f ==> !Matches(rings[j], x)
  {
    if j :| 0 <= j < i && Matches(rings[j], x) {
      f := FirstMatching(rings, x, j);
    } else {
      f := i;
    }
  }

  /** Looking up what one tenant ring matches, when all matching tenant rings are the same. */
  lemma LookupAmongTenantRings(tr: seq<Ring>, last: Ring, x: string, r: nat, ring: Ring)
    requires r < |tr| && Matches(tr[r], x)
    requires forall j :: 0 <= j < |tr| && Matches(tr[j], x) ==> tr[j] == ring
    ensures Lookup(tr + [last], x) == Some(ring)
  {
    var f := FirstMatching(tr, x, r);
    LookupFirst(tr + [last], x, f);
  }

  /** In every allocator state, a placed tenant is sent to exactly the distinct replica endpoints
      of the ingester its status names. */
  lemma PlacedTenantIsRouted(items: seq<Item>, svc: Service, s: State, service: string, n: string, k: Key)
    requires Inv(s) && IsListing(items, s, service)
    requires n in s.tenants && Lists(s, k, Id(n, s.tenants[n])) && s.ingesters[k].labels.service == Some(service)
    ensures s.tenants[n].ingester == Some(k)
    ensures Lookup(Hashrings(items, svc), Id(n, s.tenants[n])) == Some(RingOf(Item(k, s.ingesters[k]), svc))
    ensures var found := Lookup(Hashrings(items, svc), Id(n, s.tenants[n]));
      && found.Some? && IsRingOf(found.value, k, s.ingesters[k], svc) && NoDup(found.value.endpoints)
  {
    IsRing(Item(k, s.ingesters[k]), svc);
    var x := Id(n, s.tenants[n]);
    ListedIsRecorded(s, n, k);
    EndpointsDistinct(k, Replicas(s.ingesters[k], svc));
    var i :| 0 <= i < |items| && items[i].key == k;
    var r := RingBehind(items, svc, i);
    var tr := TenantRings(items, svc);
    var ring := RingOf(Item(k, s.ingesters[k]), svc);
    forall j | 0 <= j < |tr| && Matches(tr[j], x) ensures tr[j] == ring {
      RingsListOnlyOwners(items, svc, s, service, j, k, x);
    }
    LookupAmongTenantRings(tr, Ring("softs", [], SoftEndpoints(items, svc)), x, r, ring);
  }

  /** A tenant that no ingester of the service lists ends up in the soft ring. */
  lemma UnplacedTenantIsSoft(items: seq<Item>, svc: Service, s: State, service: string, x: string)
    requires IsListing(items, s, service)
    requires forall k :: Lists(s, k, x) ==> s.ingesters[k].labels.service != Some(service)
    ensures Lookup(Hashrings(items, svc), x) == Some(Ring("softs", [], SoftEndpoints(items, svc)))
  {
    var rings, tr := Hashrings(items, svc), TenantRings(items, svc);
    forall j | 0 <= j < |tr| ensures !Matches(tr[j], x) {
      var i := ItemBehind(items, svc, j);
      assert !Lists(s, items[i].key, x);
    }
    LookupFirst(rings, x, |tr|);
  }
}
