/** Two codecs: the tenant prefix of a request path, which the monitoring agent proxy puts on and
    the gateway takes off, and the "namespace.name" value of the service label. */
module Codecs {
  import opened Text

  const WRITE := "/api/v1/write"
  const RECEIVE := "/api/v1/receive"

  function Count(s: string, c: char): nat {
    if s == "" then 0 else Count(s[..|s| - 1], c) + if s[|s| - 1] == c then 1 else 0
  }

  lemma {:induction false} CountConcat(a: string, b: string, c: char)
    ensures Count(a + b, c) == Count(a, c) + Count(b, c)
  {
    if b == "" {
      assert a + b == a;
    } else {
      assert (a + b)[..|a + b| - 1] == a + b[..|b| - 1];
      CountConcat(a, b[..|b| - 1], c);
    }
  }

  lemma {:induction false} CountZero(s: string, c: char)
    ensures Count(s, c) == 0 <==> c !in s
  {
    if s != "" {
      CountZero(s[..|s| - 1], c);
      assert s == s[..|s| - 1] + [s[|s| - 1]];
    }
  }

  /** Where the n-th c stands. */
  predicate IsNth(s: string, c: char, n: int, i: int) {
    0 <= i < |s| && s[i] == c && Count(s[..i], c) == n - 1
  }

  lemma NthUnique(s: string, c: char, n: int, i: int, j: int)
    requires IsNth(s, c, n, i) && IsNth(s, c, n, j)
    ensures i == j
  {
    CountGrows(s, c, i, j);
    CountGrows(s, c, j, i);
  }

  lemma CountGrows(s: string, c: char, i: nat, j: nat)
    requires i < |s| && j <= |s| && s[i] == c
    ensures i < j ==> Count(s[..i], c) < Count(s[..j], c)
  {
    if i < j {
      assert s[..i + 1][..i] == s[..i];
      assert s[..j] == s[..i + 1] + s[i + 1..j];
      CountConcat(s[..i + 1], s[i + 1..j], c);
    }
  }

  /** indexByteNth. */
  method IndexByteNth(s: string, b: char, nth: int) returns (r: int)
    ensures r == -1 || IsNth(s, b, nth, r)
    ensures r == -1 <==> nth <= 0 || Count(s, b) < nth
  {
    var num := 0;
    for i := 0 to |s|
      invariant num == Count(s[..i], b)
      invariant nth <= 0 || num < nth
    {
      assert s[..i + 1][..i] == s[..i];
      if s[i] == b {
        num := num + 1;
        if num == nth {
          assert s == s[..i + 1] + s[i + 1..];
          CountConcat(s[..i + 1], s[i + 1..], b);
          return i;
        }
      }
    }
    assert s[..|s|] == s;
    r := -1;
  }

  /** The path without its first segment; a path with fewer than two slashes, or one whose second
      slash were its first character, stays. */
  function Stripped(path: string): string {
    if Count(path, '/') < 2 then path else CutBeforeLast(path, path)
  }

  /** The shortest beginning of s with two slashes is dropped from path, its last slash apart. */
  function CutBeforeLast(s: string, path: string): string
    requires Count(s, '/') >= 2 && s <= path
  {
    if Count(s[..|s| - 1], '/') >= 2 then CutBeforeLast(s[..|s| - 1], path) else path[|s| - 1..]
  }

  lemma {:induction false} CutAtSecond(s: string, path: string, i: int)
    requires Count(s, '/') >= 2 && s <= path && IsNth(path, '/', 2, i)
    ensures CutBeforeLast(s, path) == path[i..]
  {
    var shorter := s[..|s| - 1];
    if Count(shorter, '/') >= 2 {
      CutAtSecond(shorter, path, i);
    } else {
      assert path[..|s| - 1] == shorter && path[|s| - 1] == '/';
      NthUnique(path, '/', 2, i, |s| - 1);
    }
  }

  class Request {
    var path: string

    constructor (path: string)
      ensures this.path == path
    {
      this.path := path;
    }
  }

  /** withRequestInfo: what the gateway does to the path before its handlers see it. */
  method WithRequestInfo(req: Request)
    modifies req
    ensures req.path == Stripped(old(req.path))
  {
    var index := IndexByteNth(req.path, '/', 2);
    if index >= 0 {
      CutAtSecond(req.path, req.path, index);
      assert index > 0 by { assert req.path[..0] == ""; }
    }
    if index > 0 {
      req.path := req.path[index..];
    }
  }

  function Rewritten(path: string): string { if path == WRITE then RECEIVE else path }

  function Forwarded(tenant: string, path: string): string {
    if tenant == "" then Rewritten(path) else "/" + tenant + Rewritten(path)
  }

  /** The proxy's path, written out: remote write becomes receive, every other path stays, and a tenant
      is put in front. */
  lemma ForwardedIs(tenant: string, path: string)
    ensures tenant == "" && path != "/api/v1/write" ==> Forwarded(tenant, path) == path
    ensures tenant == "" && path == "/api/v1/write" ==> Forwarded(tenant, path) == "/api/v1/receive"
    ensures tenant != "" && path != "/api/v1/write" ==> Forwarded(tenant, path) == "/" + tenant + path
    ensures tenant != "" && path == "/api/v1/write" ==> Forwarded(tenant, path) == "/" + tenant + "/api/v1/receive"
  {
  }

  /** wrap: what the agent proxy of a tenant does to the path. */
  method Wrap(tenant: string, req: Request)
    modifies req
    ensures req.path == Forwarded(tenant, old(req.path))
  {
    if req.path == WRITE {
      req.path := RECEIVE;
    }
    if tenant != "" {
      req.path := "/" + tenant + req.path;
    }
  }

  /** The request goes through the agent proxy and then the gateway. */
  method Travel(tenant: string, req: Request)
    requires tenant != "" && "/" <= req.path
    modifies req
    ensures req.path == Rewritten(old(req.path)) <==> '/' !in tenant
  {
    Wrap(tenant, req);
    StripUndoesPrefixIff(tenant, old(req.path));
    WithRequestInfo(req);
  }

  lemma StripsAt(path: string, i: int)
    requires IsNth(path, '/', 2, i)
    ensures Stripped(path) == path[i..]
  {
    assert path == path[..i] + path[i..];
    CountConcat(path[..i], path[i..], '/');
    assert '/' in path[i..] by { assert path[i..][0] == '/'; }
    CountZero(path[i..], '/');
    CutAtSecond(path, path, i);
  }

  /** Of a slash and a tenant without one, the next slash is the second. */
  lemma SecondSlash(tenant: string, rest: string)
    requires '/' !in tenant && "/" <= rest
    ensures IsNth("/" + tenant + rest, '/', 2, |tenant| + 1)
  {
    var path := "/" + tenant + rest;
    assert path[..|tenant| + 1] == "/" + tenant;
    CountConcat("/", tenant, '/');
    CountZero(tenant, '/');
    assert "/"[..0] == "" && Count("/", '/') == 1;
  }

  lemma {:induction false} FirstSlash(s: string) returns (i: nat)
    requires '/' in s
    ensures i < |s| && s[i] == '/' && '/' !in s[..i]
  {
    i := 0;
    while s[i] != '/'
      invariant i < |s| && '/' !in s[..i] && '/' in s[i..]
      decreases |s| - i
    {
      assert s[..i + 1] == s[..i] + [s[i]];
      assert s[i..] == [s[i]] + s[i + 1..];
      i := i + 1;
    }
  }

  /** For every path, the gateway gets back what the agent proxy prefixed exactly when the tenant
      has no slash. */
  lemma StripUndoesPrefixIff(tenant: string, path: string)
    requires tenant != "" && "/" <= path
    ensures Stripped(Forwarded(tenant, path)) == Rewritten(path) <==> '/' !in tenant
  {
    var rest := Rewritten(path);
    var full := "/" + tenant + rest;
    if '/' in tenant {
      var i := FirstSlash(tenant);
      var head, tail := tenant[..i], tenant[i..] + rest;
      assert full == "/" + head + tail;
      assert tail[0] == '/';
      SecondSlash(head, tail);
      StripsAt(full, i + 1);
      assert |Stripped(full)| > |rest|;
    } else {
      SecondSlash(tenant, rest);
      StripsAt(full, |tenant| + 1);
      assert full[|tenant| + 1..] == rest;
    }
  }

  /** Without a tenant of its own the proxy passes the path on, and the gateway keeps it exactly
      when it has one slash only: otherwise its first segment is taken for a tenant. */
  lemma NoTenantKeptIff(path: string)
    requires "/" <= path
    ensures Stripped(Forwarded("", path)) == Rewritten(path) <==> '/' !in Rewritten(path)[1..]
  {
    var p := Rewritten(path);
    if '/' in p[1..] {
      var i := SecondSlashOf(p);
      StripsAt(p, i);
    } else {
      OneSlash(p);
    }
  }

  lemma SecondSlashOf(p: string) returns (i: nat)
    requires "/" <= p && '/' in p[1..]
    ensures i > 0 && IsNth(p, '/', 2, i)
  {
    var j := FirstSlash(p[1..]);
    var head, tail := p[1..][..j], p[1..][j..];
    assert p == "/" + head + tail;
    SecondSlash(head, tail);
    i := j + 1;
  }

  lemma OneSlash(p: string)
    requires "/" <= p && '/' !in p[1..]
    ensures Count(p, '/') == 1
  {
    assert p == "/" + p[1..];
    CountConcat("/", p[1..], '/');
    CountZero(p[1..], '/');
    assert "/"[..0] == "" && Count("/", '/') == 1;
  }

  /** The tenant_id of a route "/{tenant_id}/...": the first segment. */
  function TenantId(path: string): string
    requires "/" <= path
  {
    Split(path[1..], '/')[0]
  }

  /** The gateway reads the proxy's tenant exactly when the tenant has no slash, so what it then
      sees, tenant and path, determines what was sent. */
  lemma GatewaySeesTenantIff(tenant: string, path: string)
    requires tenant != "" && "/" <= path
    ensures TenantId(Forwarded(tenant, path)) == tenant <==> '/' !in tenant
  {
    var full := Forwarded(tenant, path);
    var rest := Rewritten(path);
    assert full[1..] == tenant + ['/'] + rest[1..];
    if '/' in tenant {
      SplitParts(full[1..], '/');
      assert '/' !in TenantId(full);
    } else {
      SplitAtFirst(tenant, rest[1..], '/');
    }
  }

  // ----- the service label -----

  const SERVICE_LABEL := "monitoring.whizard.io/service"

  datatype NamespacedName = NamespacedName(namespace: string, name: string)

  /** ManagedLabelByService. */
  function ManagedLabelByService(service: NamespacedName): map<string, string> {
    map[SERVICE_LABEL := service.namespace + ['.'] + service.name]
  }

  /** ServiceNamespacedName: a missing label reads as an empty one. */
  function ServiceNamespacedName(labels: map<string, string>): Option<NamespacedName> {
    if labels == map[] then None
    else
      var arr := Split(if SERVICE_LABEL in labels then labels[SERVICE_LABEL] else "", '.');
      if |arr| != 2 then None else Some(NamespacedName(arr[0], arr[1]))
  }

  /** A label parses exactly when it is two dotless parts around a dot, and then to these. */
  lemma ParsesIff(labels: map<string, string>, n: NamespacedName)
    ensures ServiceNamespacedName(labels) == Some(n) <==>
      && SERVICE_LABEL in labels && labels[SERVICE_LABEL] == n.namespace + ['.'] + n.name
      && '.' !in n.namespace && '.' !in n.name
  {
    var s := if SERVICE_LABEL in labels then labels[SERVICE_LABEL] else "";
    var arr := Split(s, '.');
    SplitParts(s, '.');
    if |arr| == 2 {
      TwoParts(s, '.');
    }
    if s == n.namespace + ['.'] + n.name && '.' !in n.namespace && '.' !in n.name {
      SplitAtFirst(n.namespace, n.name, '.');
      SplitWhole(n.name, '.');
      assert SERVICE_LABEL in labels;
    }
  }

  /** A service finds itself under the label it wrote exactly when neither its namespace nor its
      name has a dot; with a dot no service at all is found. */
  lemma LabelRoundTripIff(service: NamespacedName)
    ensures var parsed := ServiceNamespacedName(ManagedLabelByService(service));
      && (parsed == Some(service) <==> '.' !in service.namespace && '.' !in service.name)
      && (parsed.Some? ==> parsed == Some(service))
  {
    var labels := ManagedLabelByService(service);
    ParsesIff(labels, service);
    if ServiceNamespacedName(labels).Some? {
      var n := ServiceNamespacedName(labels).value;
      ParsesIff(labels, n);
      DotSplitsOnce(n.namespace, n.name, service.namespace, service.name);
    }
  }

  lemma DotSplitsOnce(a: string, b: string, c: string, d: string)
    requires '.' !in a && '.' !in b && a + ['.'] + b == c + ['.'] + d
    ensures a == c && b == d
  {
    var s := a + ['.'] + b;
    forall i | 0 <= i < |s| && i != |a| ensures s[i] != '.' {
      assert s[i] == if i < |a| then a[i] else b[i - |a| - 1];
    }
    assert s[|c|] == '.';
    assert |a| == |c|;
    assert s[..|a|] == a && s[..|c|] == c;
    assert s[|a| + 1..] == b && s[|c| + 1..] == d;
  }
}
