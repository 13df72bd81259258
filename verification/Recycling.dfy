/** Recycling: an ingester is deleted only when it is empty and its retention time has passed
    since its last tenant left. */
module Recycling {
  import opened Text
  import opened Cluster
  import opened Allocation

  /** Step i of the run took the last tenant off ingester k, on behalf of a tenant of svc. */
  ghost predicate EmptiedBy(run: seq<State>, acts: seq<Action>, i: nat, k: Key, svc: Service)
    requires |run| == |acts| + 1
  {
    && i < |acts|
    && acts[i].ReconcileTenant?
    && acts[i].name in run[i].tenants
    && ServiceOf(run[i], run[i].tenants[acts[i].name]) == Some(svc)
    && k in run[i].ingesters && run[i].ingesters[k].spec.tenants != []
  }

  /** k exists and lists nobody in all the states from number from up to number to. */
  ghost predicate EmptyDuring(run: seq<State>, from: nat, to: nat, k: Key) {
    forall m :: from <= m <= to && m < |run| ==> k in run[m].ingesters && run[m].ingesters[k].spec.tenants == []
  }

  function Deadline(s: State, k: Key, svc: Service): int
    requires k in s.ingesters
  {
    s.now + Retention(svc, s.ingesters[k])
  }

  ghost predicate JustifiedBy(run: seq<State>, acts: seq<Action>, n: nat, k: Key, sec: int, i: nat, svc: Service)
    requires |run| == |acts| + 1
  {
    && i < n
    && EmptiedBy(run, acts, i, k, svc)
    && EmptyDuring(run, i + 1, n, k)
    && sec == UnixSeconds(Deadline(run[i], k, svc))
  }

  ghost predicate Justified(run: seq<State>, acts: seq<Action>, n: nat, k: Key, sec: int)
    requires |run| == |acts| + 1
  {
    exists i: nat, svc :: JustifiedBy(run, acts, n, k, sec, i, svc)
  }

  predicate CondemnedAt(s: State, k: Key, sec: int) {
    k in s.ingesters && IsCondemned(s.ingesters[k]) && s.ingesters[k].annotations.deletingTime == Some(At(sec))
  }

  predicate CondemnsNow(s: State, name: string, k: Key, sec: int) {
    && name in s.tenants
    && ServiceOf(s, s.tenants[name]).Some?
    && k in s.ingesters && s.ingesters[k].spec.tenants != []
    && sec == UnixSeconds(Deadline(s, k, ServiceOf(s, s.tenants[name]).value))
  }

  lemma DetachCondemns(s: State, l: Key, x: string, svc: Service, k: Key, sec: int)
    requires CondemnedAt(Detach(s, l, x, svc), k, sec)
    ensures CondemnedAt(s, k, sec) ||
            (k in s.ingesters && s.ingesters[k].spec.tenants != [] && sec == UnixSeconds(Deadline(s, k, svc)))
  {
    if l == k && k in s.ingesters && x in s.ingesters[k].spec.tenants {
      assert s.ingesters[k].spec.tenants != [];
    }
  }

  /** An ingester is condemned to a time only by losing its last tenant now, or it was already. */
  lemma StepCondemns(s: State, a: Action, s': State, k: Key, sec: int)
    requires Next(s, a, s') && CondemnedAt(s', k, sec)
    ensures CondemnedAt(s, k, sec) || (a.ReconcileTenant? && CondemnsNow(s, a.name, k, sec))
  {
    if a.ReconcileTenant? {
      TenantStepCondemns(s, a.name, s', k, sec);
    }
  }

  lemma TenantStepCondemns(s: State, name: string, s': State, k: Key, sec: int)
    requires ReconcilesTenant(s, name, s') && CondemnedAt(s', k, sec)
    ensures CondemnedAt(s, k, sec) || CondemnsNow(s, name, k, sec)
  {
    if name in s.tenants && ServiceOf(s, s.tenants[name]).Some? {
      var t, svc := s.tenants[name], ServiceOf(s, s.tenants[name]).value;
      if !t.deleting && FINALIZER_INGESTER !in t.finalizers {
      } else if t.deleting && FINALIZER_INGESTER in t.finalizers {
        FinalizeCondemns(s, name, svc, k, sec);
      } else if NeedsReset(s, name, svc) {
        DetachCondemns(s, t.ingester.value, Id(name, t), svc, k, sec);
      } else if IsTrue(t.labels.exclusive) {
      } else if Holders(s, GroupOf(svc, t), Id(name, t)) == {} {
        var i: nat :| LeastOpen(s, GroupOf(svc, t), svc.limit, i) && s' == PlaceAt(s, name, svc, i);
      }
    }
  }

  lemma FinalizeCondemns(s: State, name: string, svc: Service, k: Key, sec: int)
    requires name in s.tenants && ServiceKey(ServiceLabel(s.tenants[name])).Some?
    requires CondemnedAt(Finalize(s, name, svc), k, sec)
    ensures CondemnedAt(s, k, sec) ||
            (k in s.ingesters && s.ingesters[k].spec.tenants != [] && sec == UnixSeconds(Deadline(s, k, svc)))
  {
    var t := s.tenants[name];
    if t.ingester.Some? {
      DetachCondemns(s, t.ingester.value, Id(name, t), svc, k, sec);
    }
  }

  /** In every run, a condemned ingester has been empty ever since the step that stamped it. */
  lemma {:induction false} CondemnedIsJustified(run: seq<State>, acts: seq<Action>, n: nat, k: Key, sec: int)
    requires IsRun(run, acts) && n < |run| && CondemnedAt(run[n], k, sec)
    ensures Justified(run, acts, n, k, sec)
  {
    if n > 0 {
      var i := n - 1;
      assert Next(run[i], acts[i], run[i + 1]);
      StepCondemns(run[i], acts[i], run[n], k, sec);
      if CondemnedAt(run[i], k, sec) {
        CondemnedIsJustified(run, acts, i, k, sec);
        StaysJustified(run, acts, i, k, sec);
      } else {
        var svc := ServiceOf(run[i], run[i].tenants[acts[i].name]).value;
        assert JustifiedBy(run, acts, n, k, sec, i, svc);
      }
    }
  }

  lemma StaysJustified(run: seq<State>, acts: seq<Action>, n: nat, k: Key, sec: int)
    requires |run| == |acts| + 1 && n + 1 < |run| && Justified(run, acts, n, k, sec)
    requires k in run[n + 1].ingesters && run[n + 1].ingesters[k].spec.tenants == []
    ensures Justified(run, acts, n + 1, k, sec)
  {
    var j: nat, svc :| JustifiedBy(run, acts, n, k, sec, j, svc);
    assert JustifiedBy(run, acts, n + 1, k, sec, j, svc);
  }

  lemma TenantReconcilesKeepIngesters(s: State, name: string, s': State)
    requires ReconcilesTenant(s, name, s')
    ensures s.ingesters.Keys <= s'.ingesters.Keys
  {
    if name in s.tenants && ServiceOf(s, s.tenants[name]).Some? {
      var t, svc := s.tenants[name], ServiceOf(s, s.tenants[name]).value;
      if PlacesByIndex(s, name, svc) {
        var i: nat :| LeastOpen(s, GroupOf(svc, t), svc.limit, i) && s' == PlaceAt(s, name, svc, i);
      }
    }
  }

  /** Nothing but an ingester reconcile that finds the time expired makes an ingester vanish. */
  lemma OnlyRecyclingDeletes(s: State, a: Action, s': State, k: Key)
    requires Next(s, a, s') && k in s.ingesters && k !in s'.ingesters
    ensures a == ReconcileIngester(k) && IngesterReaction(s, k) == Recycled && IsExpired(s.ingesters[k], s.now)
  {
    if a.ReconcileTenant? {
      TenantReconcilesKeepIngesters(s, a.name, s');
    }
  }

  /** The instant the last tenant left, and the time that has passed since. */
  ghost predicate RetentionServed(run: seq<State>, acts: seq<Action>, n: nat, k: Key)
    requires |run| == |acts| + 1 && n < |run|
  {
    exists i: nat, svc ::
      && i < n
      && EmptiedBy(run, acts, i, k, svc)
      && EmptyDuring(run, i + 1, n, k)
      && run[n].now > Deadline(run[i], k, svc) - SECOND
  }

  /** Over every run: an ingester that is deleted lists no tenant, has listed none since an
      earlier step took the last one, and that step is more than its retention less one second
      in the past (the second is lost in the truncation to Unix time). Being refilled and
      emptied again restarts the clock; ingesters that were never stamped stay. */
  lemma RecycledOnlyAfterRetention(run: seq<State>, acts: seq<Action>, n: nat, k: Key)
    requires IsRun(run, acts) && n < |acts| && k in run[n].ingesters && k !in run[n + 1].ingesters
    ensures acts[n] == ReconcileIngester(k) && run[n].ingesters[k].spec.tenants == []
    ensures RetentionServed(run, acts, n, k)
  {
    assert Next(run[n], acts[n], run[n + 1]);
    OnlyRecyclingDeletes(run[n], acts[n], run[n + 1], k);
    var sec := run[n].ingesters[k].annotations.deletingTime.value.sec;
    CondemnedIsJustified(run, acts, n, k, sec);
    var i: nat, svc :| JustifiedBy(run, acts, n, k, sec, i, svc);
    UnixSecondsLosesLessThanOne(Deadline(run[i], k, svc));
  }

  lemma UnixSecondsLosesLessThanOne(t: int)
    ensures t - SECOND < UnixSeconds(t) * SECOND <= t
  {
  }

  /** The requeue delay is positive and exact: with the ingester and its service as they are, a
      later reconcile deletes it if and only if at least the delay has passed. */
  lemma RequeueIsExact(s: State, k: Key, later: State)
    requires IngesterReaction(s, k).Requeued?
    requires k in later.ingesters && later.ingesters[k] == s.ingesters[k] && later.services == s.services
    ensures IngesterReaction(s, k).after > 0
    ensures IngesterReaction(later, k) == Recycled <==> later.now >= s.now + IngesterReaction(s, k).after
  {
    assert HasService(later, later.ingesters[k]) == HasService(s, s.ingesters[k]);
  }

  // ----- an ingester left empty is recycled -----

  /** How long an emptied ingester waits: a positive local retention counts exactly where the data is
      on the local disk, or the storage is not known; everything else waits for the Service's. */
  lemma RetentionIs(svc: Service, ing: Ingester)
    ensures ing.labels.storage.Some? && ing.labels.storage.value != "local" ==> Retention(svc, ing) == svc.retention
    ensures ing.labels.storage in {None, Some("local")} ==>
      && (ing.spec.localRetention.Some? && ing.spec.localRetention.value > 0 ==> Retention(svc, ing) == ing.spec.localRetention.value)
      && (ing.spec.localRetention.None? || ing.spec.localRetention.value <= 0 ==> Retention(svc, ing) == svc.retention)
  {
  }

  predicate AllObsolete(status: seq<TenantStatus>) { forall i :: 0 <= i < |status| ==> status[i].obsolete }

  /** The status of an ingester without tenants is settled exactly when all its entries are obsolete. */
  lemma {:induction false} SettledWhenObsolete(status: seq<TenantStatus>)
    ensures MergeStatus([], status) == status <==> AllObsolete(status)
    ensures AllObsolete(MergeStatus([], status))
  {
    if status != [] {
      var rest := status[1..];
      SettledWhenObsolete(rest);
      assert MergeStatus([], rest) == MarkObsolete([], rest) && MergeStatus([], status) == MarkObsolete([], status);
      assert status == [status[0]] + rest;
      var marked := MarkObsolete([], status);
      assert marked == [TenantStatus(status[0].name, true)] + MarkObsolete([], rest);
      if AllObsolete(status) {
        assert AllObsolete(rest) by {
          assert forall i :: 0 <= i < |rest| ==> rest[i] == status[i + 1];
        }
        assert status[0] == TenantStatus(status[0].name, true);
      }
      if marked == status {
        assert marked[1..] == rest && status[0].obsolete;
        assert AllObsolete(status) by {
          forall i | 0 <= i < |status| ensures status[i].obsolete {
            assert i > 0 ==> status[i] == rest[i - 1];
          }
        }
      }
      forall i | 0 <= i < |marked| ensures marked[i].obsolete {
        assert i > 0 ==> marked[i] == MarkObsolete([], rest)[i - 1];
      }
    }
  }

  /** The ingester carries the label of an existing Service, of two parts. */
  ghost predicate Serves(s: State, ing: Ingester) {
    exists service: Key ::
      && '.' !in service.ns && '.' !in service.name && service in s.services
      && ing.labels.service == Some(service.ns + ['.'] + service.name)
  }

  lemma ServesHasService(s: State, ing: Ingester)
    requires Serves(s, ing)
    ensures HasService(s, ing) && !HasBadLabel(ing)
  {
    var service: Key :| '.' !in service.ns && '.' !in service.name && service in s.services
      && ing.labels.service == Some(service.ns + ['.'] + service.name);
    SplitAtFirst(service.ns, service.name, '.');
    SplitWhole(service.name, '.');
  }

  /** An ingester in state "deleting" with deletion time sec, an empty list and a settled status is
      deleted from that second on, and waits for exactly the rest of the time before. */
  lemma StampedIsRecycledIff(s: State, k: Key, sec: int)
    requires k in s.ingesters && Serves(s, s.ingesters[k])
    requires s.ingesters[k].annotations == Annotations(Some(Deleting), Some(At(sec)))
    requires s.ingesters[k].spec.tenants == [] && AllObsolete(s.ingesters[k].status)
    ensures s.now >= sec * SECOND ==> k !in AfterIngester(s, k).ingesters
    ensures s.now < sec * SECOND ==>
      AfterIngester(s, k) == s && IngesterReaction(s, k) == Requeued(sec * SECOND - s.now)
  {
    ServesHasService(s, s.ingesters[k]);
    SettledWhenObsolete(s.ingesters[k].status);
  }

  /** A waiting ingester whose status is not settled gets a settled one by its next reconcile, and
      nothing else. */
  lemma OneReconcileSettles(s: State, k: Key)
    requires k in s.ingesters && Serves(s, s.ingesters[k]) && s.ingesters[k].spec.tenants == []
    requires !AllObsolete(s.ingesters[k].status)
    ensures k in AfterIngester(s, k).ingesters
    ensures var ing := AfterIngester(s, k).ingesters[k];
      AllObsolete(ing.status) && ing == s.ingesters[k].(status := ing.status)
  {
    ServesHasService(s, s.ingesters[k]);
    SettledWhenObsolete(s.ingesters[k].status);
  }

  /** Losing the last tenant stamps; losing another one leaves the annotations. */
  lemma DetachStamps(s: State, k: Key, x: string, svc: Service)
    requires k in s.ingesters && x in s.ingesters[k].spec.tenants
    ensures var before, ing := s.ingesters[k], Detach(s, k, x, svc).ingesters[k];
      && ing.labels == before.labels && ing.spec == before.spec.(tenants := ing.spec.tenants)
      && ing.annotations == if ing.spec.tenants == []
                            then Annotations(Some(Deleting), Some(At((s.now + Retention(svc, before)) / SECOND)))
                            else before.annotations
  {
  }

  /** Between two states k lost its last tenant: on behalf of a tenant of svc, at the earlier time. */
  ghost predicate StampedFor(s: State, a: Action, s': State, k: Key, svc: Service)
    requires k in s.ingesters && k in s'.ingesters
  {
    && a.ReconcileTenant? && a.name in s.tenants && ServiceOf(s, s.tenants[a.name]) == Some(svc)
    && s'.ingesters[k].annotations ==
         Annotations(Some(Deleting), Some(At((s.now + Retention(svc, s.ingesters[k])) / SECOND)))
  }

  lemma EmptyingStamps(s: State, a: Action, s': State, k: Key) returns (svc: Service)
    requires Next(s, a, s') && k in s.ingesters && k in s'.ingesters
    requires s.ingesters[k].spec.tenants != [] && s'.ingesters[k].spec.tenants == []
    ensures StampedFor(s, a, s', k, svc)
  {
    var name := a.name;
    var t := s.tenants[name];
    svc := ServiceOf(s, t).value;
    var x := Id(name, t);
    TakesOff(s, name, s', k, svc);
    DetachStamps(s, k, x, svc);
  }

  /** The last tenant is taken off by its own removal, in the deletion or the reset branch. */
  lemma TakesOff(s: State, name: string, s': State, k: Key, svc: Service)
    requires ReconcilesTenant(s, name, s') && k in s.ingesters && k in s'.ingesters
    requires s.ingesters[k].spec.tenants != [] && s'.ingesters[k].spec.tenants == []
    requires name in s.tenants && ServiceOf(s, s.tenants[name]) == Some(svc)
    ensures s.tenants[name].ingester == Some(k) && Id(name, s.tenants[name]) in s.ingesters[k].spec.tenants
    ensures var d := Detach(s, k, Id(name, s.tenants[name]), svc).ingesters[k];
      s'.ingesters[k].annotations == d.annotations && d.spec.tenants == []
  {
    var t := s.tenants[name];
    var x := Id(name, t);
    if t.deleting && FINALIZER_INGESTER in t.finalizers {
      FinalizedIngester(s, name, svc, k);
      DetachTakesOff(s, t.ingester, x, svc, k);
    } else if NeedsReset(s, name, svc) {
      DetachTakesOff(s, t.ingester, x, svc, k);
    } else {
      PlacingEmptiesNone(s, name, svc, s', k);
    }
  }

  function Detached(s: State, ref: Option<Key>, x: string, svc: Service): State {
    if ref.Some? then Detach(s, ref.value, x, svc) else s
  }

  lemma FinalizedIngester(s: State, name: string, svc: Service, k: Key)
    requires name in s.tenants && ServiceKey(ServiceLabel(s.tenants[name])).Some? && k in s.ingesters
    ensures var d := Detached(s, s.tenants[name].ingester, Id(name, s.tenants[name]), svc);
      && k in d.ingesters && k in Finalize(s, name, svc).ingesters
      && Finalize(s, name, svc).ingesters[k].annotations == d.ingesters[k].annotations
      && Finalize(s, name, svc).ingesters[k].spec == d.ingesters[k].spec
  {
  }

  lemma DetachTakesOff(s: State, ref: Option<Key>, x: string, svc: Service, k: Key)
    requires k in s.ingesters && s.ingesters[k].spec.tenants != []
    requires k in Detached(s, ref, x, svc).ingesters && Detached(s, ref, x, svc).ingesters[k].spec.tenants == []
    ensures ref == Some(k) && x in s.ingesters[k].spec.tenants
  {
  }

  lemma PlacingEmptiesNone(s: State, name: string, svc: Service, s': State, k: Key)
    requires name in s.tenants && ServiceOf(s, s.tenants[name]) == Some(svc) && TenantStep(s, name, svc, s')
    requires !(s.tenants[name].deleting && FINALIZER_INGESTER in s.tenants[name].finalizers) && !NeedsReset(s, name, svc)
    requires k in s.ingesters && s.ingesters[k].spec.tenants != []
    ensures k in s'.ingesters && s'.ingesters[k].spec.tenants != []
  {
    var t := s.tenants[name];
    if PlacesByIndex(s, name, svc) {
      var i: nat :| LeastOpen(s, GroupOf(svc, t), svc.limit, i) && s' == PlaceAt(s, name, svc, i);
    }
  }

  /** While it stays empty nothing changes its stamp. */
  lemma StaysStamped(s: State, a: Action, s': State, k: Key)
    requires Next(s, a, s') && k in s.ingesters && k in s'.ingesters
    requires s.ingesters[k].spec.tenants == [] && s'.ingesters[k].spec.tenants == []
    ensures s'.ingesters[k].annotations == s.ingesters[k].annotations
  {
    if a.ReconcileTenant? && a.name in s.tenants && ServiceOf(s, s.tenants[a.name]).Some? {
      var t, svc := s.tenants[a.name], ServiceOf(s, s.tenants[a.name]).value;
      if PlacesByIndex(s, a.name, svc) {
        var i: nat :| LeastOpen(s, GroupOf(svc, t), svc.limit, i) && s' == PlaceAt(s, a.name, svc, i);
      }
    }
  }

  lemma {:induction false} EmptyStaysStamped(run: seq<State>, acts: seq<Action>, i: nat, n: nat, k: Key)
    requires IsRun(run, acts) && i <= n < |run| && EmptyDuring(run, i, n, k)
    ensures k in run[n].ingesters && k in run[i].ingesters
    ensures run[n].ingesters[k].annotations == run[i].ingesters[k].annotations
  {
    if i < n {
      EmptyStaysStamped(run, acts, i, n - 1, k);
      assert Next(run[n - 1], acts[n - 1], run[n]);
      StaysStamped(run[n - 1], acts[n - 1], run[n], k);
    }
  }

  /** Over every run: step i takes the last tenant off k and k stays empty up to number n. With its
      Service there and its status settled, its reconcile then deletes it exactly when the whole
      second has come in which the retention, counted from step i, ends; before, it asks to be
      called again after exactly the time that is left. */
  lemma LeftEmptyIsRecycledIff(run: seq<State>, acts: seq<Action>, i: nat, n: nat, k: Key) returns (svc: Service)
    requires IsRun(run, acts) && i < n < |acts| && acts[n] == ReconcileIngester(k)
    requires k in run[i].ingesters && run[i].ingesters[k].spec.tenants != [] && EmptyDuring(run, i + 1, n, k)
    requires k in run[n].ingesters && Serves(run[n], run[n].ingesters[k]) && AllObsolete(run[n].ingesters[k].status)
    ensures acts[i].ReconcileTenant? && acts[i].name in run[i].tenants
    ensures ServiceOf(run[i], run[i].tenants[acts[i].name]) == Some(svc)
    ensures var due := (run[i].now + Retention(svc, run[i].ingesters[k])) / SECOND * SECOND;
      && (k !in run[n + 1].ingesters <==> run[n].now >= due)
      && (run[n].now < due ==> IngesterReaction(run[n], k) == Requeued(due - run[n].now))
  {
    assert Next(run[i], acts[i], run[i + 1]);
    assert k in run[i + 1].ingesters && run[i + 1].ingesters[k].spec.tenants == [];
    svc := EmptyingStamps(run[i], acts[i], run[i + 1], k);
    EmptyStaysStamped(run, acts, i + 1, n, k);
    assert run[n].ingesters[k].spec.tenants == [];
    StampedIsRecycledIff(run[n], k, (run[i].now + Retention(svc, run[i].ingesters[k])) / SECOND);
    assert Next(run[n], acts[n], run[n + 1]);
  }

  /** Joining calls a waiting deletion off; otherwise the annotations stay. */
  lemma JoiningCallsOff(s: State, name: string, svc: Service, i: nat)
    requires name in s.tenants && AutoKey(GroupOf(svc, s.tenants[name]), i) in Members(s, GroupOf(svc, s.tenants[name]))
    ensures var k := AutoKey(GroupOf(svc, s.tenants[name]), i);
      var before, after := s.ingesters[k], PlaceAt(s, name, svc, i).ingesters[k];
      && (before.annotations.phase == Some(Deleting) ==> after.annotations == Annotations(Some(Running), Some(Blank)))
      && (before.annotations.phase != Some(Deleting) ==> after.annotations == before.annotations)
      && after.spec == before.spec.(tenants := before.spec.tenants
           + [if s.tenants[name].tenantId == "" then name else s.tenants[name].tenantId])
      && after.status == before.status
  {
  }

  /** The reconcile panics exactly on a service label that is not empty and not of two parts. */
  lemma PanicsIff(s: State, k: Key)
    ensures IngesterReaction(s, k) == Panicked <==>
      && k in s.ingesters && s.ingesters[k].labels.service !in {None, Some("")}
      && !exists service: Key ::
           '.' !in service.ns && '.' !in service.name && s.ingesters[k].labels.service == Some(service.ns + ['.'] + service.name)
  {
    if k in s.ingesters && s.ingesters[k].labels.service.Some? {
      var text := s.ingesters[k].labels.service.value;
      if |Split(text, '.')| == 2 {
        TwoParts(text, '.');
        SplitParts(text, '.');
        var service := Key(Split(text, '.')[0], Split(text, '.')[1]);
        assert text == service.ns + ['.'] + service.name;
      }
      if service: Key :| '.' !in service.ns && '.' !in service.name && text == service.ns + ['.'] + service.name {
        SplitAtFirst(service.ns, service.name, '.');
        SplitWhole(service.name, '.');
      }
    }
  }
}
