/** The gateway's tenant admission: a concurrent map updated step by step from a watched file. */
module Admission {
  import opened Text

  /** The key under which the map remembers the list it was made from. */
  const LIST_KEY := "/-/"

  datatype Value = TenantList(tenants: seq<string>) | Admitted

  type AdmissionMap = map<string, Value>

  /** A request of tenant x passes: the id is not empty and is a key of the map. */
  predicate Admits(m: AdmissionMap, x: string) { x != "" && x in m }

  /** difference: the elements of a that are not in b, in order. */
  function Difference(a: seq<string>, b: seq<string>): seq<string> {
    if a == [] then []
    else Difference(a[..|a| - 1], b) + (if a[|a| - 1] in b then [] else [a[|a| - 1]])
  }

  lemma {:induction false} DifferenceMembers(a: seq<string>, b: seq<string>)
    ensures forall x :: x in Difference(a, b) <==> x in a && x !in b
  {
    if a != [] {
      DifferenceMembers(a[..|a| - 1], b);
      assert a == a[..|a| - 1] + [a[|a| - 1]];
    }
  }

  /** The map agrees with a list: nothing delivered yet, or its tenant keys are the list's. */
  ghost predicate Agrees(m: AdmissionMap, list: Option<seq<string>>) {
    match list
    case None => m == map[]
    case Some(ts) => LIST_KEY in m && forall x :: x != LIST_KEY ==> (x in m <==> x in ts)
  }

  /** The value under the list key is not a list: the next delivery cannot read it. */
  predicate Poisoned(m: AdmissionMap) { LIST_KEY in m && m[LIST_KEY].Admitted? }

  /** What the handler keeps between deliveries: a remembered list is the list the map agrees with. */
  ghost predicate Coherent(m: AdmissionMap) {
    if LIST_KEY in m then m[LIST_KEY].TenantList? ==> Agrees(m, Some(m[LIST_KEY].tenants)) else Agrees(m, None)
  }

  /** From m to m' by delivering c: the map agrees with c, and remembers c unless c is the first
      list ever delivered and names the list key as a tenant. */
  ghost predicate Delivered(m: AdmissionMap, c: seq<string>, m': AdmissionMap) {
    && Agrees(m', Some(c))
    && (Poisoned(m') <==> LIST_KEY !in m && LIST_KEY in c)
    && (Poisoned(m') || m'[LIST_KEY] == TenantList(c))
  }

  /** Tenants of both maps are admitted, tenants of neither are not. */
  ghost predicate Between(m: AdmissionMap, before: AdmissionMap, c: seq<string>) {
    forall x :: x != LIST_KEY ==>
      && (x in before && x in c ==> x in m)
      && (x in m ==> x in before || x in c)
  }

  /** The trace grew by maps that all lie between. */
  ghost predicate Grew(t: seq<AdmissionMap>, t': seq<AdmissionMap>, before: AdmissionMap, c: seq<string>) {
    && |t| <= |t'|
    && t == t'[..|t|]
    && forall i :: |t| <= i < |t'| ==> Between(t'[i], before, c)
  }

  lemma GrewAgain(t: seq<AdmissionMap>, u: seq<AdmissionMap>, v: seq<AdmissionMap>, before: AdmissionMap, c: seq<string>)
    requires Grew(t, u, before, c) && Grew(u, v, before, c)
    ensures Grew(t, v, before, c)
  {
    forall i | |t| <= i < |v| ensures Between(v[i], before, c) {
      if i < |u| {
        assert v[..|u|][i] == u[i];
      }
    }
    assert v[..|t|] == v[..|u|][..|t|];
  }

  class Handler {
    const enabled: bool
    var m: AdmissionMap
    /** Every value the map has had. */
    ghost var trace: seq<AdmissionMap>

    constructor (enabled: bool)
      ensures this.enabled == enabled && m == map[] && trace == []
    {
      this.enabled := enabled;
      m := map[];
      trace := [];
    }

    method Store(key: string, v: Value)
      modifies this
      ensures m == old(m)[key := v] && trace == old(trace) + [m]
    {
      m := m[key := v];
      trace := trace + [m];
    }

    method Delete(key: string)
      modifies this
      ensures m == old(m) - {key} && trace == old(trace) + [m]
    {
      m := m - {key};
      trace := trace + [m];
    }

    method Diff(a: seq<string>, b: seq<string>) returns (r: seq<string>)
      ensures r == Difference(a, b)
    {
      var hash: set<string> := {};
      for i := 0 to |b|
        invariant forall x :: x in hash <==> x in b[..i]
      {
        hash := hash + {b[i]};
      }
      r := [];
      for i := 0 to |a|
        invariant r == Difference(a[..i], b)
      {
        assert a[..i + 1][..i] == a[..i];
        if a[i] !in hash {
          r := r + [a[i]];
        }
      }
      assert a[..|a|] == a;
    }

    /** Storing a true for each tenant of a list. */
    method StoreAll(tenants: seq<string>, ghost before: AdmissionMap, ghost c: seq<string>)
      requires Between(m, before, c) && forall x :: x in tenants ==> x in c
      modifies this
      ensures forall x :: x in m <==> x in old(m) || x in tenants
      ensures forall x :: x in m ==> m[x] == if x in tenants then Admitted else old(m)[x]
      ensures Between(m, before, c) && Grew(old(trace), trace, before, c)
    {
      for i := 0 to |tenants|
        invariant forall x :: x in m <==> x in old(m) || x in tenants[..i]
        invariant forall x :: x in m ==> m[x] == if x in tenants[..i] then Admitted else old(m)[x]
        invariant Between(m, before, c) && Grew(old(trace), trace, before, c)
      {
        assert tenants[i] in tenants;
        assert forall x :: x in tenants[..i + 1] <==> x in tenants[..i] || x == tenants[i];
        Store(tenants[i], Admitted);
      }
    }

    /** Deleting the tenants of a list, none of which is to stay. */
    method DeleteAll(tenants: seq<string>, ghost before: AdmissionMap, ghost c: seq<string>)
      requires Between(m, before, c) && forall x :: x in tenants ==> x !in c
      modifies this
      ensures forall x :: x in m <==> x in old(m) && x !in tenants
      ensures forall x :: x in m ==> m[x] == old(m)[x]
      ensures Between(m, before, c) && Grew(old(trace), trace, before, c)
    {
      for i := 0 to |tenants|
        invariant forall x :: x in m <==> x in old(m) && x !in tenants[..i]
        invariant forall x :: x in m ==> m[x] == old(m)[x]
        invariant Between(m, before, c) && Grew(old(trace), trace, before, c)
      {
        assert tenants[i] in tenants;
        assert forall x :: x in tenants[..i + 1] <==> x in tenants[..i] || x == tenants[i];
        Delete(tenants[i]);
      }
    }

    /** The branch without a remembered list. */
    method FirstDelivery(c: seq<string>)
      requires Coherent(m) && LIST_KEY !in m
      modifies this
      ensures Delivered(old(m), c, m) && Grew(old(trace), trace, old(m), c)
    {
      Store(LIST_KEY, TenantList(c));
      ghost var stored := trace;
      StoreAll(c, old(m), c);
      GrewAgain(old(trace), stored, trace, old(m), c);
    }

    /** The branch with a remembered list: joining tenants first, then leaving ones. */
    method LaterDelivery(c: seq<string>)
      requires Coherent(m) && LIST_KEY in m && !Poisoned(m)
      modifies this
      ensures Delivered(old(m), c, m) && Grew(old(trace), trace, old(m), c)
    {
      var tenants := m[LIST_KEY].tenants;
      var joining := Diff(c, tenants);
      DifferenceMembers(c, tenants);
      StoreAll(joining, old(m), c);
      ghost var joined := trace;
      var leaving := Diff(tenants, c);
      DifferenceMembers(tenants, c);
      DeleteAll(leaving, old(m), c);
      GrewAgain(old(trace), joined, trace, old(m), c);
      ghost var left := trace;
      Store(LIST_KEY, TenantList(c));
      GrewAgain(old(trace), left, trace, old(m), c);
    }

    /** SetAdmissionControlHandler: from agreeing with the old list to agreeing with the new one,
        every map on the way between the two. It panics exactly when the value kept under the
        list key is not a list. */
    method SetAdmissionControl(c: seq<string>) returns (panicked: bool)
      requires Coherent(m)
      modifies this
      ensures Coherent(m)
      ensures panicked <==> enabled && Poisoned(old(m))
      ensures !enabled || panicked ==> m == old(m) && trace == old(trace)
      ensures enabled && !panicked ==> Delivered(old(m), c, m) && Grew(old(trace), trace, old(m), c)
    {
      panicked := false;
      if enabled {
        if LIST_KEY !in m {
          FirstDelivery(c);
        } else if m[LIST_KEY].Admitted? {
          panicked := true;
        } else {
          LaterDelivery(c);
        }
      }
    }
  }

  // ----- the watcher -----

  function LittleEndian(bytes: seq<nat>): nat {
    if bytes == [] then 0 else bytes[0] + 256 * LittleEndian(bytes[1..])
  }

  predicate AreBytes(bytes: seq<nat>) { forall i :: 0 <= i < |bytes| ==> bytes[i] < 256 }

  /** hashAsMetricValue: the first six bytes of the digest. */
  function MetricValue(digest: seq<nat>): nat
    requires |digest| == 16
  {
    LittleEndian(digest[..6])
  }

  /** Six bytes fit a float's 53-bit mantissa, so the comparison of hashes is exact. */
  lemma MetricValueIsExact(digest: seq<nat>)
    requires |digest| == 16 && AreBytes(digest)
    ensures MetricValue(digest) < 0x1_0000_0000_0000 < 0x20_0000_0000_0000
  {
    SixBytes(digest[..6]);
  }

  lemma SixBytes(b: seq<nat>)
    requires |b| == 6 && AreBytes(b)
    ensures LittleEndian(b) == b[0] + 256 * (b[1] + 256 * (b[2] + 256 * (b[3] + 256 * (b[4] + 256 * b[5]))))
  {
    assert b[1..][1..] == b[2..] && b[2..][1..] == b[3..] && b[3..][1..] == b[4..];
    assert b[4..][1..] == b[5..] && b[5..][1..] == [];
    assert LittleEndian(b[5..]) == b[5];
    assert LittleEndian(b[4..]) == b[4] + 256 * b[5];
    assert LittleEndian(b[3..]) == b[3] + 256 * (b[4] + 256 * b[5]);
    assert LittleEndian(b[2..]) == b[2] + 256 * (b[3] + 256 * (b[4] + 256 * b[5]));
  }

  lemma {:induction false} LittleEndianInjective(a: seq<nat>, b: seq<nat>)
    requires AreBytes(a) && AreBytes(b) && |a| == |b| && LittleEndian(a) == LittleEndian(b)
    ensures a == b
  {
    if a != [] {
      assert a[0] == LittleEndian(a) % 256 == LittleEndian(b) % 256 == b[0];
      LittleEndianInjective(a[1..], b[1..]);
      assert a == [a[0]] + a[1..] && b == [b[0]] + b[1..];
    }
  }

  /** Two contents are taken for the same exactly when their digests share the first six bytes. */
  lemma SameHashIff(d: seq<nat>, e: seq<nat>)
    requires |d| == 16 && |e| == 16 && AreBytes(d) && AreBytes(e)
    ensures MetricValue(d) == MetricValue(e) <==> d[..6] == e[..6]
  {
    if MetricValue(d) == MetricValue(e) {
      LittleEndianInjective(d[..6], e[..6]);
    }
  }

  /** A content that loads: readable, not empty, parsable. */
  function Load(content: Option<string>, parse: string -> Option<seq<string>>): Option<seq<string>> {
    if content.None? || content.value == "" then None else parse(content.value)
  }

  /** What loads: a readable text that is not empty and parses, an empty list of tenants included. */
  lemma LoadsIff(content: Option<string>, parse: string -> Option<seq<string>>, tenants: seq<string>)
    ensures Load(content, parse) == Some(tenants) <==>
      exists text :: content == Some(text) && |text| > 0 && parse(text) == Some(tenants)
  {
    if content.Some? && Load(content, parse) == Some(tenants) {
      assert content == Some(content.value) && parse(content.value) == Some(tenants);
    }
  }

  class ConfigWatcher {
    var lastLoadedConfigHash: nat

    constructor ()
      ensures lastLoadedConfigHash == 0
    {
      lastLoadedConfigHash := 0;
    }

    /** refresh: contents that do not load are dropped, and so is one with the hash of the last. */
    method Refresh(content: Option<string>, parse: string -> Option<seq<string>>, hash: string -> nat)
      returns (sent: Option<seq<string>>)
      modifies this
      ensures (lastLoadedConfigHash, sent) == Refreshed(old(lastLoadedConfigHash), content, parse, hash)
    {
      if content.None? || |content.value| == 0 {
        return None;
      }
      var config := parse(content.value);
      if config.None? {
        return None;
      }
      var h := hash(content.value);
      if lastLoadedConfigHash == h {
        return None;
      }
      lastLoadedConfigHash := h;
      return config;
    }
  }

  function Refreshed(last: nat, content: Option<string>, parse: string -> Option<seq<string>>, hash: string -> nat)
    : (nat, Option<seq<string>>)
  {
    if Load(content, parse).None? || hash(content.value) == last then (last, None)
    else (hash(content.value), Load(content, parse))
  }

  /** What a refresh sends: exactly a content that loads and whose hash is not that of the last one
      that was sent, which it then replaces. */
  lemma SendsIff(last: nat, content: Option<string>, parse: string -> Option<seq<string>>, hash: string -> nat)
    ensures var (now, sent) := Refreshed(last, content, parse, hash);
      && (sent.Some? <==> exists text, ts :: content == Some(text) && |text| > 0 && parse(text) == Some(ts) && hash(text) != last)
      && (sent.Some? ==> content.Some? && now == hash(content.value) && sent == parse(content.value))
      && (sent.None? ==> now == last)
  {
    if content.Some? && |content.value| > 0 && parse(content.value).Some? {
      LoadsIff(content, parse, parse(content.value).value);
    }
  }

  // ----- watcher and handler together, over a sequence of file contents -----

  datatype Gateway = Gateway(hash: nat, m: AdmissionMap)

  /** One refresh, and the delivery of what it sends. */
  ghost predicate Turn(g: Gateway, content: Option<string>, parse: string -> Option<seq<string>>,
                       hash: string -> nat, g': Gateway)
  {
    var (h, sent) := Refreshed(g.hash, content, parse, hash);
    && g'.hash == h
    && match sent
       case None => g'.m == g.m
       case Some(c) => !Poisoned(g.m) && Delivered(g.m, c, g'.m)
  }

  /** The watcher and an enabled handler take a turn, unless the delivery panics. */
  method TakeTurn(watcher: ConfigWatcher, handler: Handler, content: Option<string>,
                  parse: string -> Option<seq<string>>, hash: string -> nat) returns (panicked: bool)
    requires handler.enabled && Coherent(handler.m)
    modifies watcher, handler
    ensures Coherent(handler.m)
    ensures panicked <==> Refreshed(old(watcher.lastLoadedConfigHash), content, parse, hash).1.Some? && Poisoned(old(handler.m))
    ensures !panicked ==>
      Turn(Gateway(old(watcher.lastLoadedConfigHash), old(handler.m)), content, parse, hash,
           Gateway(watcher.lastLoadedConfigHash, handler.m))
  {
    var sent := watcher.Refresh(content, parse, hash);
    panicked := false;
    if sent.Some? {
      panicked := handler.SetAdmissionControl(sent.value);
    }
  }

  ghost predicate IsHistory(run: seq<Gateway>, contents: seq<Option<string>>,
                            parse: string -> Option<seq<string>>, hash: string -> nat)
  {
    && |run| == |contents| + 1
    && run[0] == Gateway(0, map[])
    && forall i :: 0 <= i < |contents| ==> Turn(run[i], contents[i], parse, hash, run[i + 1])
  }

  /** The last content that loads. */
  function LastValid(contents: seq<Option<string>>, parse: string -> Option<seq<string>>): Option<string> {
    if contents == [] then None
    else
      var c := contents[|contents| - 1];
      if Load(c, parse).Some? then c else LastValid(contents[..|contents| - 1], parse)
  }

  /** No two different contents of the sequence share a hash, and none has the initial hash. */
  predicate Separated(contents: seq<Option<string>>, hash: string -> nat) {
    forall i, j :: 0 <= i < |contents| && 0 <= j < |contents| && contents[i].Some? && contents[j].Some? ==>
      hash(contents[i].value) != 0 && (hash(contents[i].value) == hash(contents[j].value) ==> contents[i] == contents[j])
  }

  lemma {:induction false} LastValidIsOne(contents: seq<Option<string>>, parse: string -> Option<seq<string>>)
    requires LastValid(contents, parse).Some?
    ensures exists i :: 0 <= i < |contents| && contents[i] == LastValid(contents, parse)
    ensures Load(LastValid(contents, parse), parse).Some?
  {
    var n := |contents| - 1;
    if Load(contents[n], parse).None? {
      LastValidIsOne(contents[..n], parse);
      var i :| 0 <= i < n && contents[..n][i] == LastValid(contents[..n], parse);
      assert contents[i] == LastValid(contents, parse);
    }
  }

  /** Over any sequence of file contents, after every turn the map agrees with the tenants of the
      last valid content, and the watcher holds its hash. */
  lemma {:induction false} AdmitsLastValid(run: seq<Gateway>, contents: seq<Option<string>>,
                                           parse: string -> Option<seq<string>>, hash: string -> nat, n: nat)
    requires IsHistory(run, contents, parse, hash) && Separated(contents, hash) && n <= |contents|
    ensures var last := LastValid(contents[..n], parse);
      && Agrees(run[n].m, Load(last, parse))
      && run[n].hash == if last.Some? then hash(last.value) else 0
  {
    if n > 0 {
      var p := n - 1;
      AdmitsLastValid(run, contents, parse, hash, p);
      assert contents[..n][..p] == contents[..p];
      assert Turn(run[p], contents[p], parse, hash, run[p + 1]);
      var last := LastValid(contents[..p], parse);
      if last.Some? {
        LastValidIsOne(contents[..p], parse);
        var i :| 0 <= i < p && contents[..p][i] == last;
        assert contents[i] == last;
      }
    }
  }

  /** Hence a request passes exactly when the last valid content lists its tenant. */
  lemma RequestPassesIff(run: seq<Gateway>, contents: seq<Option<string>>, parse: string -> Option<seq<string>>,
                         hash: string -> nat, x: string)
    requires IsHistory(run, contents, parse, hash) && Separated(contents, hash) && x != LIST_KEY
    ensures var last := Load(LastValid(contents, parse), parse);
      Admits(run[|contents|].m, x) <==> x != "" && last.Some? && x in last.value
  {
    AdmitsLastValid(run, contents, parse, hash, |contents|);
    assert contents[..|contents|] == contents;
  }

  /** The first content that loads. */
  function FirstValid(contents: seq<Option<string>>, parse: string -> Option<seq<string>>): Option<string> {
    if contents == [] then None
    else
      var before := FirstValid(contents[..|contents| - 1], parse);
      var c := contents[|contents| - 1];
      if before.Some? then before else if Load(c, parse).Some? then c else None
  }

  lemma {:induction false} FirstValidLoads(contents: seq<Option<string>>, parse: string -> Option<seq<string>>)
    ensures FirstValid(contents, parse).Some? <==> LastValid(contents, parse).Some?
    ensures FirstValid(contents, parse).Some? ==> Load(FirstValid(contents, parse), parse).Some?
  {
    if contents != [] {
      FirstValidLoads(contents[..|contents| - 1], parse);
    }
  }

  /** The map is poisoned, so that the next new content panics, exactly when the first content
      that loaded names the list key as a tenant. */
  lemma {:induction false} PoisonedIff(run: seq<Gateway>, contents: seq<Option<string>>,
                                       parse: string -> Option<seq<string>>, hash: string -> nat, n: nat)
    requires IsHistory(run, contents, parse, hash) && Separated(contents, hash) && n <= |contents|
    ensures var first := Load(FirstValid(contents[..n], parse), parse);
      Poisoned(run[n].m) <==> first.Some? && LIST_KEY in first.value
  {
    if n > 0 {
      var p := n - 1;
      PoisonedIff(run, contents, parse, hash, p);
      AdmitsLastValid(run, contents, parse, hash, p);
      FirstValidLoads(contents[..p], parse);
      assert contents[..n][..p] == contents[..p];
      assert Turn(run[p], contents[p], parse, hash, run[p + 1]);
      if LastValid(contents[..p], parse).Some? {
        LastValidIsOne(contents[..p], parse);
      }
    }
  }
}
