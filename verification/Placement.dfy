/** The placement loop over the indices of a group: it always finds a place, takes the least
    one, and never fills an ingester beyond its limit. */
module Placement {
  import opened Text
  import opened Cluster
  import opened Allocation

  function AutoKeys(g: Group, n: nat): set<Key> {
    if n == 0 then {} else AutoKeys(g, n - 1) + {AutoKey(g, n - 1)}
  }

  lemma {:induction false} AutoKeysDistinct(g: Group, n: nat)
    ensures |AutoKeys(g, n)| == n
    ensures forall k :: k in AutoKeys(g, n) ==> exists i: nat :: i < n && k == AutoKey(g, i)
  {
    if n > 0 {
      AutoKeysDistinct(g, n - 1);
      if AutoKey(g, n - 1) in AutoKeys(g, n - 1) {
        var i: nat :| i < n - 1 && AutoKey(g, n - 1) == AutoKey(g, i);
        AutoNameInjective(g, n - 1, i);
      }
    }
  }

  lemma SubsetSize(a: set<Key>, b: set<Key>)
    requires a <= b
    ensures |a| <= |b|
  {
    assert b == a + (b - a);
  }

  /** n ingesters cannot occupy n + 1 distinct names: one of the indices 0..n is open. */
  lemma SomeIndexOpen(s: State, g: Group, limit: int)
    ensures exists i: nat :: i <= |Members(s, g)| && Open(s, g, limit, i)
  {
    var n := |Members(s, g)|;
    AutoKeysDistinct(g, n + 1);
    if forall i: nat | i <= n :: !Open(s, g, limit, i) {
      forall k | k in AutoKeys(g, n + 1) ensures k in Members(s, g) {
        var i: nat :| i < n + 1 && k == AutoKey(g, i);
        assert !Open(s, g, limit, i);
      }
      SubsetSize(AutoKeys(g, n + 1), Members(s, g));
    }
  }

  /** The least open index, searched from i upwards. */
  lemma {:induction false} LeastFrom(s: State, g: Group, limit: int, i: nat, bound: nat)
    requires i <= bound && Open(s, g, limit, bound)
    requires forall j: nat | j < i :: !Open(s, g, limit, j)
    ensures exists m: nat :: m <= bound && LeastOpen(s, g, limit, m)
    decreases bound - i
  {
    if Open(s, g, limit, i) {
      assert LeastOpen(s, g, limit, i);
    } else {
      LeastFrom(s, g, limit, i + 1, bound);
    }
  }

  /** The loop bound of one more than the number of listed ingesters is enough. */
  lemma LeastOpenExists(s: State, g: Group, limit: int)
    ensures exists i: nat :: i <= |Members(s, g)| && LeastOpen(s, g, limit, i)
  {
    SomeIndexOpen(s, g, limit);
    var b: nat :| b <= |Members(s, g)| && Open(s, g, limit, b);
    LeastFrom(s, g, limit, 0, b);
  }

  lemma BelowLeast(s: State, g: Group, limit: int, i: nat, m: nat)
    requires LeastOpen(s, g, limit, i) && m < i
    ensures !Open(s, g, limit, m)
  {
  }

  /** The chosen index is unique, and everything below it exists and is full. */
  lemma LeastOpenUnique(s: State, g: Group, limit: int, i: nat, j: nat)
    requires LeastOpen(s, g, limit, i) && LeastOpen(s, g, limit, j)
    ensures i == j
    ensures forall m: nat | m < i ::
      AutoKey(g, m) in Members(s, g) && |s.ingesters[AutoKey(g, m)].spec.tenants| >= limit
  {
    if i < j {
      BelowLeast(s, g, limit, j, i);
    } else if j < i {
      BelowLeast(s, g, limit, i, j);
    }
    forall m: nat | m < i
      ensures AutoKey(g, m) in Members(s, g) && |s.ingesters[AutoKey(g, m)].spec.tenants| >= limit
    {
      assert !Open(s, g, limit, m);
    }
  }

  // ----- capacity over runs -----

  /** The limit that applies to an ingester: the one of the Service its label names. */
  function LimitOf(s: State, ing: Ingester): int {
    var k := ServiceKey(OrEmpty(ing.labels.service));
    if k.Some? && k.value in s.services then s.services[k.value].limit else 0
  }

  ghost predicate WithinLimits(s: State) {
    forall k :: k in s.ingesters ==> |s.ingesters[k].spec.tenants| <= Max(1, LimitOf(s, s.ingesters[k]))
  }

  ghost predicate LimitsKept(s: State, s': State) {
    forall k :: k in s.services ==> k in s'.services && s.services[k].limit <= s'.services[k].limit
  }

  /** Ingesters that keep their labels and do not grow stay within limits that do not shrink. */
  lemma NoGrowth(s: State, s': State, k: Key)
    requires WithinLimits(s) && LimitsKept(s, s') && k in s.ingesters && k in s'.ingesters
    requires s'.ingesters[k].labels == s.ingesters[k].labels
    requires |s'.ingesters[k].spec.tenants| <= |s.ingesters[k].spec.tenants|
    ensures |s'.ingesters[k].spec.tenants| <= Max(1, LimitOf(s', s'.ingesters[k]))
  {
    assert |s.ingesters[k].spec.tenants| <= Max(1, LimitOf(s, s.ingesters[k]));
  }

  lemma DetachShrinks(s: State, k: Key, x: string, svc: Service)
    requires WithinLimits(s)
    ensures WithinLimits(Detach(s, k, x, svc))
  {
    var d := Detach(s, k, x, svc);
    forall l | l in d.ingesters ensures |d.ingesters[l].spec.tenants| <= Max(1, LimitOf(d, d.ingesters[l])) {
      if l == k {
        WithoutMembers(s.ingesters[k].spec.tenants, x);
      }
      NoGrowth(s, d, l);
    }
  }

  lemma FinalizeWithin(s: State, name: string, svc: Service)
    requires WithinLimits(s) && name in s.tenants && ServiceKey(ServiceLabel(s.tenants[name])).Some?
    ensures WithinLimits(Finalize(s, name, svc))
  {
    var t := s.tenants[name];
    var detached := if t.ingester.Some? then Detach(s, t.ingester.value, Id(name, t), svc) else s;
    if t.ingester.Some? {
      DetachShrinks(s, t.ingester.value, Id(name, t), svc);
    }
    var f := Finalize(s, name, svc);
    forall l | l in f.ingesters ensures |f.ingesters[l].spec.tenants| <= Max(1, LimitOf(f, f.ingesters[l])) {
      NoGrowth(detached, f, l);
    }
  }

  lemma PlaceAtWithin(s: State, name: string, svc: Service, i: nat)
    requires WithinLimits(s) && name in s.tenants && ServiceOf(s, s.tenants[name]) == Some(svc)
    requires Open(s, GroupOf(svc, s.tenants[name]), svc.limit, i)
    ensures WithinLimits(PlaceAt(s, name, svc, i))
  {
    var g := GroupOf(svc, s.tenants[name]);
    var k := AutoKey(g, i);
    var p := PlaceAt(s, name, svc, i);
    forall l | l in p.ingesters ensures |p.ingesters[l].spec.tenants| <= Max(1, LimitOf(p, p.ingesters[l])) {
      if l != k {
        NoGrowth(s, p, l);
      }
    }
  }

  lemma TenantStepWithin(s: State, name: string, s': State)
    requires WithinLimits(s) && ReconcilesTenant(s, name, s')
    ensures WithinLimits(s')
  {
    if name in s.tenants && ServiceOf(s, s.tenants[name]).Some? {
      var t, svc := s.tenants[name], ServiceOf(s, s.tenants[name]).value;
      if !t.deleting && FINALIZER_INGESTER !in t.finalizers {
      } else if t.deleting && FINALIZER_INGESTER in t.finalizers {
        FinalizeWithin(s, name, svc);
      } else if NeedsReset(s, name, svc) {
        DetachShrinks(s, t.ingester.value, Id(name, t), svc);
      } else if IsTrue(t.labels.exclusive) {
      } else if Holders(s, GroupOf(svc, t), Id(name, t)) == {} {
        var i: nat :| LeastOpen(s, GroupOf(svc, t), svc.limit, i) && s' == PlaceAt(s, name, svc, i);
        PlaceAtWithin(s, name, svc, i);
      }
    }
  }

  lemma StepWithin(s: State, a: Action, s': State)
    requires WithinLimits(s) && Next(s, a, s') && LimitsKept(s, s')
    ensures WithinLimits(s')
  {
    if a.ReconcileTenant? {
      TenantStepWithin(s, a.name, s');
    } else {
      forall l | l in s'.ingesters ensures |s'.ingesters[l].spec.tenants| <= Max(1, LimitOf(s', s'.ingesters[l])) {
        NoGrowth(s, s', l);
      }
    }
  }

  /** Over every run in which no Service lowers its limit, no ingester ever lists more than
      max(1, limit) tenants. Names may collide and tenants may be revived. */
  lemma {:induction false} RunsStayWithinLimits(run: seq<State>, acts: seq<Action>, n: nat)
    requires IsRun(run, acts) && n < |run|
    requires forall i :: 0 <= i < |acts| ==> LimitsKept(run[i], run[i + 1])
    ensures WithinLimits(run[n])
  {
    if n > 0 {
      RunsStayWithinLimits(run, acts, n - 1);
      assert Next(run[n - 1], acts[n - 1], run[n]);
      assert LimitsKept(run[n - 1], run[n - 1 + 1]);
      StepWithin(run[n - 1], acts[n - 1], run[n]);
    }
  }
}
