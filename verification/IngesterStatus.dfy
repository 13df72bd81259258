/** The tenant history an ingester keeps in its status, over one merge and over whole runs. */
module IngesterStatus {
  import opened Text
  import opened Cluster
  import opened Allocation
  import opened AllocationSafety

  function Names(status: seq<TenantStatus>): (names: seq<string>)
    ensures |names| == |status|
    ensures forall i :: 0 <= i < |status| ==> names[i] == status[i].name
  {
    if status == [] then [] else [status[0].name] + Names(status[1..])
  }

  /** The spec tenants the status does not know yet, in spec order. */
  function Fresh(tenants: seq<string>, status: seq<TenantStatus>): seq<string> {
    if tenants == [] then []
    else (if InStatus(status, tenants[0]) then [] else [tenants[0]]) + Fresh(tenants[1..], status)
  }

  lemma {:induction false} MarkObsoleteEntries(tenants: seq<string>, status: seq<TenantStatus>)
    ensures |MarkObsolete(tenants, status)| == |status|
    ensures forall i :: 0 <= i < |status| ==>
              MarkObsolete(tenants, status)[i] == TenantStatus(status[i].name, status[i].name !in tenants)
  {
    if status != [] {
      MarkObsoleteEntries(tenants, status[1..]);
    }
  }

  lemma {:induction false} NewNamesEntries(tenants: seq<string>, status: seq<TenantStatus>)
    ensures |NewNames(tenants, status)| == |Fresh(tenants, status)|
    ensures forall i :: 0 <= i < |Fresh(tenants, status)| ==>
              NewNames(tenants, status)[i] == TenantStatus(Fresh(tenants, status)[i], false)
  {
    if tenants != [] {
      NewNamesEntries(tenants[1..], status);
    }
  }

  lemma {:induction false} FreshMembers(tenants: seq<string>, status: seq<TenantStatus>)
    ensures forall x :: x in Fresh(tenants, status) <==> x in tenants && !InStatus(status, x)
    ensures NoDup(tenants) ==> NoDup(Fresh(tenants, status))
  {
    if tenants != [] {
      FreshMembers(tenants[1..], status);
      assert tenants == [tenants[0]] + tenants[1..];
    }
  }

  /** The merge as a whole: the old names in order, then the added ones in spec order; an entry
      is obsolete exactly when the spec does not list it. */
  lemma MergeIs(tenants: seq<string>, status: seq<TenantStatus>)
    ensures Names(MergeStatus(tenants, status)) == Names(status) + Fresh(tenants, status)
    ensures forall i :: 0 <= i < |MergeStatus(tenants, status)| ==>
              (MergeStatus(tenants, status)[i].obsolete <==> MergeStatus(tenants, status)[i].name !in tenants)
  {
    MergeNamesAre(tenants, status);
    MergeObsolete(tenants, status);
  }

  lemma MergeNamesAre(tenants: seq<string>, status: seq<TenantStatus>)
    ensures Names(MergeStatus(tenants, status)) == Names(status) + Fresh(tenants, status)
  {
    MarkObsoleteEntries(tenants, status);
    NewNamesEntries(tenants, status);
  }

  lemma MergeObsolete(tenants: seq<string>, status: seq<TenantStatus>)
    ensures forall i :: 0 <= i < |MergeStatus(tenants, status)| ==>
              (MergeStatus(tenants, status)[i].obsolete <==> MergeStatus(tenants, status)[i].name !in tenants)
  {
    MarkObsoleteEntries(tenants, status);
    NewNamesEntries(tenants, status);
    FreshMembers(tenants, status);
    var m := MergeStatus(tenants, status);
    var added := Fresh(tenants, status);
    forall i | 0 <= i < |m| ensures m[i].obsolete <==> m[i].name !in tenants {
      if i >= |status| {
        assert m[i] == TenantStatus(added[i - |status|], false);
        assert added[i - |status|] in added;
      }
    }
  }

  lemma InStatusIffNamed(status: seq<TenantStatus>, x: string)
    ensures InStatus(status, x) <==> x in Names(status)
  {
    if InStatus(status, x) {
      var i :| 0 <= i < |status| && status[i].name == x;
      assert Names(status)[i] == x;
    }
  }

  /** The names after a merge are the names before it and the spec's. */
  lemma MergeNames(tenants: seq<string>, status: seq<TenantStatus>, x: string)
    ensures InStatus(MergeStatus(tenants, status), x) <==> InStatus(status, x) || x in tenants
  {
    MergeIs(tenants, status);
    FreshMembers(tenants, status);
    InStatusIffNamed(status, x);
    InStatusIffNamed(MergeStatus(tenants, status), x);
  }

  /** Names stay unique when the spec has no duplicates. */
  lemma MergeKeepsUnique(tenants: seq<string>, status: seq<TenantStatus>)
    requires NoDup(tenants) && NoDup(Names(status))
    ensures NoDup(Names(MergeStatus(tenants, status)))
  {
    MergeIs(tenants, status);
    FreshMembers(tenants, status);
    var known, added := Names(status), Fresh(tenants, status);
    forall i, j | 0 <= i < |known| && 0 <= j < |added| ensures known[i] != added[j] {
      assert added[j] in added;
      InStatusIffNamed(status, added[j]);
      assert known[i] in known;
    }
  }

  lemma StatusEqual(a: seq<TenantStatus>, b: seq<TenantStatus>)
    requires Names(a) == Names(b)
    requires forall i :: 0 <= i < |a| && i < |b| ==> a[i].obsolete == b[i].obsolete
    ensures a == b
  {
    assert |a| == |Names(a)| && |b| == |Names(b)|;
    forall i | 0 <= i < |a| ensures a[i] == b[i] {
      assert a[i].name == Names(a)[i] && b[i].name == Names(b)[i];
    }
  }

  /** A second merge changes nothing, so the reconcile after a status write gets past the
      status check. */
  lemma MergeIdempotent(tenants: seq<string>, status: seq<TenantStatus>)
    ensures MergeStatus(tenants, MergeStatus(tenants, status)) == MergeStatus(tenants, status)
  {
    var m := MergeStatus(tenants, status);
    MergeIs(tenants, status);
    MergeIs(tenants, m);
    FreshMembers(tenants, m);
    assert Fresh(tenants, m) == [] by {
      if Fresh(tenants, m) != [] {
        var x := Fresh(tenants, m)[0];
        assert x in Fresh(tenants, m);
        MergeNames(tenants, status, x);
      }
    }
    assert Names(MergeStatus(tenants, m)) == Names(m);
    StatusEqual(MergeStatus(tenants, m), m);
  }

  lemma StatusSettlesInOneWrite(s: State, k: Key)
    requires IngesterReaction(s, k) == StatusWritten
    ensures IngesterReaction(AfterIngester(s, k), k) != StatusWritten
    ensures IngesterReaction(AfterIngester(s, k), k) != Ignored
  {
    MergeIdempotent(s.ingesters[k].spec.tenants, s.ingesters[k].status);
  }

  // ----- the history over runs -----

  lemma {:induction false} DropStatusNames(status: seq<TenantStatus>, name: string, x: string)
    ensures InStatus(DropStatus(status, name), x) <==> InStatus(status, x) && x != name
  {
    if status != [] {
      var rest := status[1..];
      DropStatusNames(rest, name, x);
      InStatusCons(status[0], rest, x);
      InStatusCons(status[0], DropStatus(rest, name), x);
      assert status == [status[0]] + rest;
      if status[0].name == name {
        assert DropStatus(status, name) == DropStatus(rest, name);
      }
    }
  }

  lemma InStatusCons(e: TenantStatus, rest: seq<TenantStatus>, x: string)
    ensures InStatus([e] + rest, x) <==> e.name == x || InStatus(rest, x)
  {
    var all := [e] + rest;
    if e.name == x {
      assert all[0].name == x;
    }
    if i :| 0 <= i < |rest| && rest[i].name == x {
      assert all[i + 1].name == x;
    }
    if i :| 0 <= i < |all| && all[i].name == x && i > 0 {
      assert rest[i - 1].name == x;
    }
  }

  /** The ingester reconcile sees tenant id x in the spec of k. */
  predicate Observes(s: State, a: Action, k: Key, x: string) {
    && a == ReconcileIngester(k)
    && k in s.ingesters && HasService(s, s.ingesters[k])
    && x in s.ingesters[k].spec.tenants
  }

  /** The deletion step of the Tenant object x reaches ingester k. */
  predicate Forgets(s: State, a: Action, k: Key, x: string) {
    && a == ReconcileTenant(x)
    && x in s.tenants && ServiceOf(s, s.tenants[x]).Some?
    && s.tenants[x].deleting && FINALIZER_INGESTER in s.tenants[x].finalizers
    && k in s.ingesters && IsCleaned(k, s.ingesters[k], ServiceKey(ServiceLabel(s.tenants[x])).value)
  }

  lemma TenantStepStatus(s: State, name: string, s': State, k: Key, x: string)
    requires ReconcilesTenant(s, name, s') && k in s.ingesters && k in s'.ingesters
    ensures InStatus(s'.ingesters[k].status, x) <==>
            InStatus(s.ingesters[k].status, x) && !Forgets(s, ReconcileTenant(name), k, x)
  {
    DropStatusNames(s.ingesters[k].status, name, x);
    if name in s.tenants && ServiceOf(s, s.tenants[name]).Some? {
      var t, svc := s.tenants[name], ServiceOf(s, s.tenants[name]).value;
      if t.deleting && FINALIZER_INGESTER in t.finalizers {
        FinalizeStatus(s, name, svc, k);
      } else {
        OtherBranchesKeepStatus(s, name, svc, s', k);
      }
    }
  }

  lemma FinalizeStatus(s: State, name: string, svc: Service, k: Key)
    requires name in s.tenants && ServiceKey(ServiceLabel(s.tenants[name])).Some? && k in s.ingesters
    ensures k in Finalize(s, name, svc).ingesters
    ensures Finalize(s, name, svc).ingesters[k].status ==
      if IsCleaned(k, s.ingesters[k], ServiceKey(ServiceLabel(s.tenants[name])).value)
      then DropStatus(s.ingesters[k].status, name) else s.ingesters[k].status
  {
  }

  lemma OtherBranchesKeepStatus(s: State, name: string, svc: Service, s': State, k: Key)
    requires name in s.tenants && ServiceOf(s, s.tenants[name]) == Some(svc) && TenantStep(s, name, svc, s')
    requires !(s.tenants[name].deleting && FINALIZER_INGESTER in s.tenants[name].finalizers)
    requires k in s.ingesters
    ensures k in s'.ingesters && s'.ingesters[k].status == s.ingesters[k].status
  {
    var t := s.tenants[name];
    if PlacesByIndex(s, name, svc) {
      var i: nat :| LeastOpen(s, GroupOf(svc, t), svc.limit, i) && s' == PlaceAt(s, name, svc, i);
    }
  }

  /** What one step does to the names in the status of an ingester that survives it. */
  lemma StepStatus(s: State, a: Action, s': State, k: Key, x: string)
    requires Next(s, a, s') && k in s.ingesters && k in s'.ingesters
    ensures InStatus(s'.ingesters[k].status, x) <==>
            (InStatus(s.ingesters[k].status, x) || Observes(s, a, k, x)) && !Forgets(s, a, k, x)
  {
    if a.ReconcileTenant? {
      TenantStepStatus(s, a.name, s', k, x);
    } else if a == ReconcileIngester(k) {
      MergeNames(s.ingesters[k].spec.tenants, s.ingesters[k].status, x);
    }
  }

  lemma NewIngesterHasNoStatus(s: State, a: Action, s': State, k: Key)
    requires Next(s, a, s') && k !in s.ingesters && k in s'.ingesters
    ensures s'.ingesters[k].status == []
  {
    if a.ReconcileTenant? && a.name in s.tenants && ServiceOf(s, s.tenants[a.name]).Some? {
      var name := a.name;
      var t, svc := s.tenants[name], ServiceOf(s, s.tenants[name]).value;
      if PlacesByIndex(s, name, svc) {
        var i: nat :| LeastOpen(s, GroupOf(svc, t), svc.limit, i) && s' == PlaceAt(s, name, svc, i);
      }
    }
  }

  /** Step i observed x in ingester k, which has lived on since without forgetting x. */
  ghost predicate RememberedSince(run: seq<State>, acts: seq<Action>, i: nat, n: nat, k: Key, x: string)
    requires |run| == |acts| + 1 && n < |run|
  {
    && i < n
    && Observes(run[i], acts[i], k, x)
    && forall m :: i < m <= n ==> k in run[m].ingesters && (m < n ==> !Forgets(run[m], acts[m], k, x))
  }

  lemma RememberingExtends(run: seq<State>, acts: seq<Action>, i: nat, p: nat, k: Key, x: string)
    requires |run| == |acts| + 1 && p < |acts| && k in run[p + 1].ingesters
    requires RememberedSince(run, acts, i, p, k, x) && !Forgets(run[p], acts[p], k, x)
    ensures RememberedSince(run, acts, i, p + 1, k, x)
  {
  }

  lemma RememberingRestricts(run: seq<State>, acts: seq<Action>, i: nat, p: nat, k: Key, x: string)
    requires |run| == |acts| + 1 && p < |acts|
    requires RememberedSince(run, acts, i, p + 1, k, x)
    ensures i == p || (RememberedSince(run, acts, i, p, k, x) && !Forgets(run[p], acts[p], k, x))
    ensures k in run[p].ingesters
  {
  }

  ghost predicate Remembered(run: seq<State>, acts: seq<Action>, n: nat, k: Key, x: string)
    requires |run| == |acts| + 1 && n < |run|
  {
    exists i: nat :: RememberedSince(run, acts, i, n, k, x)
  }

  lemma RememberedStep(run: seq<State>, acts: seq<Action>, p: nat, n: nat, k: Key, x: string)
    requires |run| == |acts| + 1 && p < |acts| && n == p + 1 && k in run[p].ingesters && k in run[n].ingesters
    ensures Remembered(run, acts, n, k, x) <==>
            (Remembered(run, acts, p, k, x) || Observes(run[p], acts[p], k, x)) && !Forgets(run[p], acts[p], k, x)
  {
    if Observes(run[p], acts[p], k, x) {
      assert RememberedSince(run, acts, p, n, k, x);
    }
    if i: nat :| RememberedSince(run, acts, i, p, k, x) && !Forgets(run[p], acts[p], k, x) {
      RememberingExtends(run, acts, i, p, k, x);
    }
    if i: nat :| RememberedSince(run, acts, i, n, k, x) {
      RememberingRestricts(run, acts, i, p, k, x);
    }
  }

  /** In every run, the names in the status of a living ingester are exactly those that one of
      its reconciles has seen in its spec, minus those whose Tenant object was deleted since. */
  lemma {:induction false} StatusIsHistory(run: seq<State>, acts: seq<Action>, n: nat, k: Key, x: string)
    requires IsRun(run, acts) && n < |run| && k in run[n].ingesters
    ensures InStatus(run[n].ingesters[k].status, x) <==> Remembered(run, acts, n, k, x)
  {
    if n > 0 {
      var p := n - 1;
      assert Next(run[p], acts[p], run[p + 1]);
      if k in run[p].ingesters {
        StatusIsHistory(run, acts, p, k, x);
        StepStatus(run[p], acts[p], run[n], k, x);
        RememberedStep(run, acts, p, n, k, x);
      } else {
        NewIngesterHasNoStatus(run[p], acts[p], run[n], k);
        if i: nat :| RememberedSince(run, acts, i, n, k, x) {
          RememberingRestricts(run, acts, i, p, k, x);
        }
      }
    }
  }

  // ----- what a deletion leaves in the statuses -----

  /** Between two versions of the ingesters, a tenant was dropped from the status of exactly the
      ingesters in the namespace before the dot of its two-part service label that carry this very
      label; their other entries, and the statuses of all others, stayed. */
  ghost predicate Dropped(before: map<Key, Ingester>, after: map<Key, Ingester>, service: Key, name: string) {
    forall k :: k in before ==>
      && k in after
      && (if k.ns == service.ns && before[k].labels.service == Some(service.ns + ['.'] + service.name)
          then IsWithout(before[k].status, after[k].status, name)
          else after[k].status == before[k].status)
  }

  /** No entry of the name is left, and all other entries are. */
  ghost predicate IsWithout(before: seq<TenantStatus>, after: seq<TenantStatus>, name: string) {
    && !InStatus(after, name)
    && forall e: TenantStatus :: e.name != name ==> multiset(after)[e] == multiset(before)[e]
  }

  lemma {:induction false} DropStatusKeepsOthers(status: seq<TenantStatus>, name: string, e: TenantStatus)
    requires e.name != name
    ensures multiset(DropStatus(status, name))[e] == multiset(status)[e]
  {
    if status != [] {
      DropStatusKeepsOthers(status[1..], name, e);
      assert status == [status[0]] + status[1..];
    }
  }

  lemma DropIsWithout(status: seq<TenantStatus>, name: string)
    ensures IsWithout(status, DropStatus(status, name), name)
  {
    DropStatusNames(status, name, name);
    forall e: TenantStatus | e.name != name ensures multiset(DropStatus(status, name))[e] == multiset(status)[e] {
      DropStatusKeepsOthers(status, name, e);
    }
  }

  lemma DropFromStatusesDrops(ingesters: map<Key, Ingester>, service: Key, name: string)
    ensures Dropped(ingesters, DropFromStatuses(ingesters, service, name), service, name)
  {
    forall k | k in ingesters ensures IsWithout(ingesters[k].status, DropStatus(ingesters[k].status, name), name) {
      DropIsWithout(ingesters[k].status, name);
    }
  }

  /** The finalizing step of a tenant drops it from the statuses of its own service's ingesters. */
  lemma FinalizeDrops(s: State, name: string, service: Key, svc: Service)
    requires name in s.tenants && ServiceKey(ServiceLabel(s.tenants[name])).Some?
    requires s.tenants[name].labels.service == Some(service.ns + ['.'] + service.name)
    requires '.' !in service.ns && '.' !in service.name
    ensures Dropped(s.ingesters, Finalize(s, name, svc).ingesters, service, name)
  {
    var t := s.tenants[name];
    SplitAtFirst(service.ns, service.name, '.');
    SplitWhole(service.name, '.');
    assert ServiceKey(ServiceLabel(t)) == Some(service);
    var d := if t.ingester.Some? then Detach(s, t.ingester.value, Id(name, t), svc) else s;
    DropFromStatusesDrops(d.ingesters, service, name);
    assert Finalize(s, name, svc).ingesters == DropFromStatuses(d.ingesters, service, name);
    forall k | k in s.ingesters
      ensures k in d.ingesters && d.ingesters[k].labels == s.ingesters[k].labels && d.ingesters[k].status == s.ingesters[k].status
    {
    }
  }

  /** Over every run: once a tenant is finalized, the ingester that listed it under the tenant's own
      two-part label does not name it any more, so the clean-up may remove its data. */
  lemma DeletionIsForgotten(run: seq<State>, acts: seq<Action>, n: nat, name: string, service: Key, k: Key)
    requires IsRun(run, acts) && NeverRevives(run, acts) && n < |acts| && acts[n] == ReconcileTenant(name)
    requires name in run[n].tenants && run[n].tenants[name].deleting
    requires FINALIZER_INGESTER in run[n].tenants[name].finalizers
    requires run[n].tenants[name].labels.service == Some(service.ns + ['.'] + service.name)
    requires '.' !in service.ns && '.' !in service.name && service in run[n].services
    requires Lists(run[n], k, Id(name, run[n].tenants[name]))
    requires run[n].ingesters[k].labels.service == run[n].tenants[name].labels.service
    ensures k in run[n + 1].ingesters && !InStatus(run[n + 1].ingesters[k].status, name)
  {
    var s := run[n];
    RunsKeepInv(run, acts, n);
    SplitAtFirst(service.ns, service.name, '.');
    SplitWhole(service.name, '.');
    assert ServiceOf(s, s.tenants[name]) == Some(s.services[service]);
    assert Next(s, acts[n], run[n + 1]);
    assert ListOk(k, s.ingesters[k]);
    FinalizeDrops(s, name, service, s.services[service]);
  }

  /** The step that forgets x in k is the finalizing reconcile of x, when k is in the namespace of
      x's service and carries the same label. */
  lemma ForgetsIs(s: State, a: Action, k: Key, x: string, service: Key)
    requires x in s.tenants && k in s.ingesters && '.' !in service.ns && '.' !in service.name
    requires s.tenants[x].labels.service == Some(service.ns + ['.'] + service.name)
    ensures Forgets(s, a, k, x) <==>
      && a == ReconcileTenant(x) && s.tenants[x].deleting && FINALIZER_INGESTER in s.tenants[x].finalizers
      && service in s.services
      && k.ns == service.ns && s.ingesters[k].labels.service == s.tenants[x].labels.service
  {
    SplitAtFirst(service.ns, service.name, '.');
    SplitWhole(service.name, '.');
  }
}
