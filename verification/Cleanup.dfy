/** The init container that removes the data of tenants an ingester no longer knows. */
module Cleanup {
  import opened Text
  import opened Cluster
  import opened Allocation
  import opened IngesterStatus

  /** The tenant ids the container is told to keep. */
  function KeepList(ing: Ingester, svc: Service): seq<string> {
    Sort(Names(ing.status)) + [svc.defaultTenantId]
  }

  // ----- what the script does with its second argument -----

  function Replace(s: string, c: char, d: char): string {
    if s == "" then "" else [if s[0] == c then d else s[0]] + Replace(s[1..], c, d)
  }

  function NonEmpty(parts: seq<string>): seq<string> {
    if parts == [] then []
    else (if parts[0] == "" then [] else [parts[0]]) + NonEmpty(parts[1..])
  }

  /** tenants=(${1//,/ }): commas become blanks, the shell splits at blanks. */
  function Words(arg: string): seq<string> {
    NonEmpty(Split(Replace(arg, ',', ' '), ' '))
  }

  /** [[ "${tenants[@]}" =~ "$name" ]]: the directory is kept when its name occurs in the words
      joined by blanks. */
  ghost predicate Kept(dir: string, arg: string) {
    IsSubstring(dir, Join(Words(arg), ' '))
  }

  /** A name the shell leaves alone: not empty, no comma, no character the shell splits at or
      expands. */
  predicate IsPlain(x: string) {
    x != "" && forall c :: c in x ==> c !in {',', ' ', '\t', '\n', '*', '?', '[', '\\'}
  }

  lemma {:induction false} ReplaceAbsent(s: string, c: char, d: char)
    requires c !in s
    ensures Replace(s, c, d) == s
  {
    if s != "" {
      ReplaceAbsent(s[1..], c, d);
      assert s == [s[0]] + s[1..];
    }
  }

  lemma {:induction false} ReplaceConcat(a: string, b: string, c: char, d: char)
    ensures Replace(a + b, c, d) == Replace(a, c, d) + Replace(b, c, d)
  {
    if a == "" {
      assert a + b == b;
    } else {
      ReplaceConcat(a[1..], b, c, d);
      assert a == [a[0]] + a[1..] && a + b == [a[0]] + (a[1..] + b);
      ReplaceCons(a[0], a[1..], c, d);
      ReplaceCons(a[0], a[1..] + b, c, d);
    }
  }

  lemma ReplaceCons(x: char, s: string, c: char, d: char)
    ensures Replace([x] + s, c, d) == [if x == c then d else x] + Replace(s, c, d)
  {
    assert ([x] + s)[1..] == s;
  }

  lemma {:induction false} ReplaceJoined(parts: seq<string>)
    requires forall i :: 0 <= i < |parts| ==> ',' !in parts[i]
    ensures Replace(Join(parts, ','), ',', ' ') == Join(parts, ' ')
  {
    if |parts| == 1 {
      ReplaceAbsent(parts[0], ',', ' ');
    } else if |parts| > 1 {
      ReplaceJoined(parts[1..]);
      ReplaceAbsent(parts[0], ',', ' ');
      var tail := Join(parts[1..], ',');
      ReplaceConcat(parts[0] + [','], tail, ',', ' ');
      ReplaceConcat(parts[0], [','], ',', ' ');
      assert Replace([','], ',', ' ') == [' '];
    }
  }

  lemma {:induction false} NonEmptyAll(parts: seq<string>)
    requires forall i :: 0 <= i < |parts| ==> parts[i] != ""
    ensures NonEmpty(parts) == parts
  {
    if parts != [] {
      NonEmptyAll(parts[1..]);
      assert parts == [parts[0]] + parts[1..];
    }
  }

  /** The script reads back exactly the list that was joined. */
  lemma WordsOfJoined(list: seq<string>)
    requires list != [] && forall i :: 0 <= i < |list| ==> IsPlain(list[i])
    ensures Words(Join(list, ',')) == list
  {
    forall i | 0 <= i < |list| ensures ',' !in list[i] && ' ' !in list[i] && list[i] != "" {
      assert IsPlain(list[i]);
    }
    ReplaceJoined(list);
    SplitOfJoin(list, ' ');
    NonEmptyAll(list);
  }

  /** The data directory of every listed tenant survives the script. */
  lemma ListedSurvives(list: seq<string>, x: string)
    requires x in list && forall i :: 0 <= i < |list| ==> IsPlain(list[i])
    ensures Kept(x, Join(list, ','))
  {
    WordsOfJoined(list);
    var i :| 0 <= i < |list| && list[i] == x;
    JoinedPartIsSubstring(list, i, ' ');
  }

  /** Which directories go: exactly those whose name occurs nowhere in the joined list. */
  lemma RemovedIff(list: seq<string>, dir: string)
    requires list != [] && forall i :: 0 <= i < |list| ==> IsPlain(list[i])
    ensures Kept(dir, Join(list, ',')) <==> IsSubstring(dir, Join(list, ' '))
  {
    WordsOfJoined(list);
  }

  lemma KeepListMembers(ing: Ingester, svc: Service, x: string)
    ensures x in KeepList(ing, svc) <==> InStatus(ing.status, x) || x == svc.defaultTenantId
  {
    SortSorts(Names(ing.status));
    SameMembers(Names(ing.status), Sort(Names(ing.status)), x);
    InStatusIffNamed(ing.status, x);
  }

  // ----- no data of a known tenant is removed -----

  /** Tenant id x is known to ingester k: in its spec, or seen there by an earlier reconcile with
      no deletion of the Tenant object x since. */
  ghost predicate Known(run: seq<State>, acts: seq<Action>, n: nat, k: Key, x: string)
    requires |run| == |acts| + 1 && n < |run| && k in run[n].ingesters
  {
    x in run[n].ingesters[k].spec.tenants || Remembered(run, acts, n, k, x)
  }

  /** Whenever the StatefulSet of an ingester is generated, in any run, the keep list holds
      exactly the known tenants and the default one. */
  lemma KeepListIsKnown(run: seq<State>, acts: seq<Action>, n: nat, k: Key, svc: Service, x: string)
    requires IsRun(run, acts) && n < |run| && IngesterReaction(run[n], k) == Applied
    ensures x in KeepList(run[n].ingesters[k], svc) <==> Known(run, acts, n, k, x) || x == svc.defaultTenantId
  {
    var ing := run[n].ingesters[k];
    StatusIsHistory(run, acts, n, k, x);
    MergeNames(ing.spec.tenants, ing.status, x);
    KeepListMembers(ing, svc, x);
  }

  /** So the clean-up never removes the data directory of a known tenant. */
  lemma CleanupSparesKnownTenants(run: seq<State>, acts: seq<Action>, n: nat, k: Key, svc: Service, x: string)
    requires IsRun(run, acts) && n < |run| && IngesterReaction(run[n], k) == Applied
    requires Known(run, acts, n, k, x)
    requires forall y :: y in KeepList(run[n].ingesters[k], svc) ==> IsPlain(y)
    ensures Kept(x, Join(KeepList(run[n].ingesters[k], svc), ','))
  {
    KeepListIsKnown(run, acts, n, k, svc, x);
    ListedSurvives(KeepList(run[n].ingesters[k], svc), x);
  }

  // ----- generating the container -----

  datatype InitContainer = InitContainer(storageDir: string, keep: string)

  const STORAGE_DIR := "/whizard"

  /** generateInitContainer: none when clean-up is disabled, when the TSDB is no volume of that
      name, or for soft-tenant ingesters. */
  method GenerateInitContainer(ing: Ingester, svc: Service, disabled: Option<bool>, hasVolume: bool)
    returns (c: Option<InitContainer>)
    ensures c.Some? <==> disabled != Some(true) && hasVolume && !IsTrue(ing.labels.softTenant)
    ensures c.Some? ==> c.value == InitContainer(STORAGE_DIR, Join(KeepList(ing, svc), ','))
  {
    if disabled == Some(true) || !hasVolume {
      return None;
    }
    if IsTrue(ing.labels.softTenant) {
      return None;
    }
    var tenants: seq<string> := [];
    for i := 0 to |ing.status|
      invariant tenants == Names(ing.status)[..i]
    {
      tenants := tenants + [ing.status[i].name];
    }
    assert tenants == Names(ing.status);
    tenants := Sort(tenants);
    return Some(InitContainer(STORAGE_DIR, Join(tenants + [svc.defaultTenantId], ',')));
  }

  /** The argument does not depend on the order in which the status names the tenants, so that no Pod is
      restarted for it. */
  lemma KeepListIsStable(one: Ingester, other: Ingester, svc: Service)
    requires multiset(Names(one.status)) == multiset(Names(other.status))
    ensures KeepList(one, svc) == KeepList(other, svc)
  {
    SortSorts(Names(one.status));
    SortSorts(Names(other.status));
    SortedUnique(Sort(Names(one.status)), Sort(Names(other.status)));
  }
}
