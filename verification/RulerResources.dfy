/** The objects of a ruler: its rule ConfigMaps, StatefulSets and Services, and the operations
    that bring the cluster to them. */
module RulerResources {
  import opened Text
  import opened Sum64
  import opened Packing
  import opened RulerNames
  import opened RulerShards

  // ----- operations on the objects of one kind in one namespace -----

  datatype Op<D> = Delete(name: string) | Put(name: string, data: D)

  function ApplyOne<D>(objects: map<string, D>, op: Op<D>): map<string, D> {
    match op
    case Delete(n) => objects - {n}
    case Put(n, d) => objects[n := d]
  }

  function Apply<D>(objects: map<string, D>, ops: seq<Op<D>>): map<string, D> {
    if ops == [] then objects
    else ApplyOne(Apply(objects, ops[..|ops| - 1]), ops[|ops| - 1])
  }

  lemma ApplySnoc<D>(objects: map<string, D>, ops: seq<Op<D>>, op: Op<D>)
    ensures Apply(objects, ops + [op]) == ApplyOne(Apply(objects, ops), op)
  {
    assert (ops + [op])[..|ops|] == ops;
  }

  /** What garbage collection must reach: the targets, and whatever the ruler does not claim. */
  function Collected<D>(objects: map<string, D>, targets: map<string, D>, claims: string -> bool): map<string, D> {
    map n | n in objects.Keys + targets.Keys && (n in targets || !claims(n)) ::
      if n in targets then targets[n] else objects[n]
  }

  /** After collection the claimed objects are exactly the targets, every other object is as it
      was, and collecting again is the identity. */
  lemma CollectedIsExact<D>(objects: map<string, D>, targets: map<string, D>, claims: string -> bool)
    requires forall n :: n in targets ==> claims(n)
    ensures var after := Collected(objects, targets, claims);
      && (forall n :: n in after && claims(n) <==> n in targets)
      && (forall n :: n in targets ==> after[n] == targets[n])
      && (forall n :: !claims(n) ==> (n in after <==> n in objects))
      && (forall n :: !claims(n) && n in objects ==> after[n] == objects[n])
      && Collected(after, targets, claims) == after
  {
  }

  /** The listed objects that are claimed without being targets. */
  function Stale<D>(claims: string -> bool, listed: map<string, D>, targetNames: set<string>): set<string> {
    set n | n in listed && claims(n) && n !in targetNames
  }

  lemma DeleteStep<D>(base: map<string, D>, ops: seq<Op<D>>, before: map<string, D>, gone: set<string>, n: string)
    requires Apply(base, ops) == before - gone
    ensures Apply(base, ops + [Delete(n)]) == before - (gone + {n})
  {
    ApplySnoc(base, ops, Delete(n));
    assert before - gone - {n} == before - (gone + {n});
  }

  lemma PutStep<D>(base: map<string, D>, ops: seq<Op<D>>, before: map<string, D>, written: map<string, D>, n: string, d: D)
    requires Apply(base, ops) == before + written
    ensures Apply(base, ops + [Put(n, d)]) == before + written[n := d]
    ensures n in before && before[n] == d && n !in written ==> Apply(base, ops) == before + written[n := d]
  {
    ApplySnoc(base, ops, Put(n, d));
    assert (before + written)[n := d] == before + written[n := d];
    if n in before && before[n] == d && n !in written {
      assert before + written == before + written[n := d];
    }
  }

  /** The check for objects to be deleted: one pass over the listing. */
  method AppendDeletes<D>(claims: string -> bool, listed: map<string, D>, targetNames: set<string>, ops: seq<Op<D>>,
                          ghost base: map<string, D>) returns (r: seq<Op<D>>)
    ensures Apply(base, r) == Apply(base, ops) - Stale(claims, listed, targetNames)
    ensures |ops| <= |r| && (r == ops <==> Stale(claims, listed, targetNames) == {})
  {
    r := ops;
    var rest := listed.Keys;
    ghost var before := Apply(base, ops);
    ghost var gone: set<string> := {};
    while rest != {}
      invariant rest <= listed.Keys
      invariant forall n :: n in gone <==> n in listed && n !in rest && claims(n) && n !in targetNames
      invariant Apply(base, r) == before - gone
      invariant if gone == {} then r == ops else |r| > |ops|
      decreases |rest|
    {
      var n :| n in rest;
      rest := rest - {n};
      if claims(n) && n !in targetNames {
        DeleteStep(base, r, before, gone, n);
        r := r + [Delete(n)];
        gone := gone + {n};
      }
    }
    assert gone == Stale(claims, listed, targetNames);
  }

  // ----- ConfigMaps -----

  /** The data of a ConfigMap as the API returns it: an empty map is omitted and reads as nil. */
  function ReadBack(data: Files): Option<Files> { if data == map[] then None else Some(data) }

  /** reflect.DeepEqual on a target's data and the data read: nil is not an empty map. */
  predicate DeepEqual(target: Files, read: Option<Files>) { read == Some(target) }

  predicate ReadsAsTarget(target: Files, data: Files) { DeepEqual(target, ReadBack(data)) }

  /** Nothing has to be written: every target is there, and compares as the same. */
  ghost predicate AllCurrent<D>(same: (D, D) -> bool, currents: map<string, D>, targets: map<string, D>) {
    forall n :: n in targets ==> n in currents && same(targets[n], currents[n])
  }

  lemma CurrentMore<D>(same: (D, D) -> bool, currents: map<string, D>, written: map<string, D>, n: string, d: D)
    requires n !in written
    ensures AllCurrent(same, currents, written[n := d]) <==>
      AllCurrent(same, currents, written) && n in currents && same(d, currents[n])
  {
    var more := written[n := d];
    if AllCurrent(same, currents, more) {
      forall m | m in written ensures m in currents && same(written[m], currents[m]) {
        assert m in more && more[m] == written[m];
      }
      assert n in more;
    }
  }

  /** The write pass: the targets that are missing among the claimed objects or differ there. */
  method AppendPuts<D>(same: (D, D) -> bool, currents: map<string, D>, targets: map<string, D>, ops: seq<Op<D>>,
                       ghost base: map<string, D>) returns (r: seq<Op<D>>)
    requires forall n :: n in currents && n in targets ==> n in Apply(base, ops) && Apply(base, ops)[n] == currents[n]
    requires forall n :: n in currents && n in targets && same(targets[n], currents[n]) ==> targets[n] == currents[n]
    ensures Apply(base, r) == Apply(base, ops) + targets
    ensures |ops| <= |r| && (r == ops <==> AllCurrent(same, currents, targets))
  {
    r := ops;
    var todo := targets.Keys;
    ghost var before := Apply(base, ops);
    ghost var written: map<string, D> := map[];
    ghost var clean := true;
    while todo != {}
      invariant todo <= targets.Keys
      invariant forall n :: n in written <==> n in targets && n !in todo
      invariant forall n :: n in written ==> written[n] == targets[n]
      invariant Apply(base, r) == before + written
      invariant clean <==> AllCurrent(same, currents, written)
      invariant if clean then r == ops else |r| > |ops|
      decreases |todo|
    {
      var n :| n in todo;
      todo := todo - {n};
      PutStep(base, r, before, written, n, targets[n]);
      CurrentMore(same, currents, written, n, targets[n]);
      written := written[n := targets[n]];
      if n !in currents || !same(targets[n], currents[n]) {
        r := r + [Put(n, targets[n])];
        clean := false;
      }
    }
    assert written == targets;
  }

  /** No operation is due: the claimed objects are the targets, and none of them is empty. */
  ghost predicate Quiet(existing: map<string, Files>, targets: map<string, Files>, claims: string -> bool) {
    existing == Collected(existing, targets, claims) && forall n :: n in targets ==> targets[n] != map[]
  }

  /** ruleConfigMaps, second half: delete the claimed objects that are no targets, then write the
      targets that are missing or whose data differs. */
  method ConfigMapOps(ruler: string, existing: map<string, Files>, targets: map<string, Files>)
    returns (ops: seq<Op<Files>>)
    ensures Apply(existing, ops) == Collected(existing, targets, n => ClaimsConfigMap(ruler, n))
    ensures (forall n :: n in targets ==> ClaimsConfigMap(ruler, n)) ==>
              (ops == [] <==> Quiet(existing, targets, n => ClaimsConfigMap(ruler, n)))
  {
    ops := CollectConfigMaps(n => ClaimsConfigMap(ruler, n), existing, targets);
  }

  method CollectConfigMaps(claims: string -> bool, existing: map<string, Files>, targets: map<string, Files>)
    returns (ops: seq<Op<Files>>)
    ensures Apply(existing, ops) == Collected(existing, targets, claims)
    ensures (forall n :: n in targets ==> claims(n)) ==> (ops == [] <==> Quiet(existing, targets, claims))
  {
    var currents := map n | n in existing && claims(n) :: existing[n];
    var deletes := AppendDeletes(claims, existing, targets.Keys, [], existing);
    ghost var kept := Apply(existing, deletes);
    assert Apply(existing, []) == existing;
    ops := AppendPuts((t, c) => ReadsAsTarget(t, c), currents, targets, deletes, existing);
    assert kept + targets == Collected(existing, targets, claims);
    if forall n :: n in targets ==> claims(n) {
      NothingToCollect(claims, existing, targets);
    }
  }

  /** After collection another run is quiet exactly when no target is empty: an empty one is written
      again every time. */
  lemma SecondRunIsQuietIff(claims: string -> bool, existing: map<string, Files>, targets: map<string, Files>)
    requires forall n :: n in targets ==> claims(n)
    ensures Quiet(Collected(existing, targets, claims), targets, claims) <==> forall n :: n in targets ==> targets[n] != map[]
  {
    CollectedIsExact(existing, targets, claims);
  }

  /** The collection is the identity exactly when nothing is stale and every target is there. */
  lemma NothingToCollect(claims: string -> bool, existing: map<string, Files>, targets: map<string, Files>)
    requires forall n :: n in targets ==> claims(n)
    ensures existing == Collected(existing, targets, claims) <==>
            Stale(claims, existing, targets.Keys) == {}
            && forall n :: n in targets ==> n in existing && existing[n] == targets[n]
  {
    var after := Collected(existing, targets, claims);
    if existing == after {
      forall n | n in targets ensures n in existing && existing[n] == targets[n] {
        assert n in after && after[n] == targets[n];
      }
      forall n | n in existing && claims(n) ensures n in targets {
        assert n in after;
      }
    }
    if Stale(claims, existing, targets.Keys) == {} && forall n :: n in targets ==> n in existing && existing[n] == targets[n] {
      forall n | n in existing ensures n in after && after[n] == existing[n] {
        assert n !in Stale(claims, existing, targets.Keys);
      }
      assert existing == after;
    }
  }

  // ----- StatefulSets and Services -----

  /** The two kinds that have one object per shard. */
  datatype Kind = StatefulSets | Services

  function ObjectName(kind: Kind, ruler: string, shard: nat): string {
    match kind
    case StatefulSets => StatefulSetName(ruler, shard)
    case Services => ServiceName(ruler, shard)
  }

  predicate Claims(kind: Kind, ruler: string, name: string) {
    match kind
    case StatefulSets => ClaimsStatefulSet(ruler, name)
    case Services => ClaimsService(ruler, name)
  }

  lemma ObjectNameUnique(kind: Kind, a: string, i: nat, b: string, k: nat)
    requires ObjectName(kind, a, i) == ObjectName(kind, b, k)
    ensures a == b && i == k
  {
    if kind.StatefulSets? {
      StatefulSetNameUnique(a, i, b, k);
    } else {
      ServiceNameUnique(a, i, b, k);
    }
  }

  /** The targets: shards 0 to shards - 1. */
  ghost predicate IsShardTargets<D(!new)>(kind: Kind, ruler: string, shards: nat, spec: nat -> D, targets: map<string, D>) {
    && (forall i: nat :: i < shards ==> ObjectName(kind, ruler, i) in targets && targets[ObjectName(kind, ruler, i)] == spec(i))
    && (forall n :: n in targets ==> exists i: nat :: i < shards && n == ObjectName(kind, ruler, i))
  }

  method AppendShards<D(!new)>(kind: Kind, ruler: string, shards: nat, spec: nat -> D, ghost base: map<string, D>)
    returns (ops: seq<Op<D>>, targetNames: set<string>, ghost targets: map<string, D>)
    ensures IsShardTargets(kind, ruler, shards, spec, targets) && targetNames == targets.Keys
    ensures Apply(base, ops) == base + targets
  {
    ops := [];
    targets := map[];
    targetNames := {};
    for i := 0 to shards
      invariant targetNames == targets.Keys
      invariant IsShardTargets(kind, ruler, i, spec, targets)
      invariant Apply(base, ops) == base + targets
    {
      var name := ObjectName(kind, ruler, i);
      AddShardTarget(kind, ruler, i, spec, targets);
      PutStep(base, ops, base, targets, name, spec(i));
      targetNames := targetNames + {name};
      targets := targets[name := spec(i)];
      ops := ops + [Put(name, spec(i))];
    }
  }

  lemma AddShardTarget<D(!new)>(kind: Kind, ruler: string, i: nat, spec: nat -> D, targets: map<string, D>)
    requires IsShardTargets(kind, ruler, i, spec, targets)
    ensures IsShardTargets(kind, ruler, i + 1, spec, targets[ObjectName(kind, ruler, i) := spec(i)])
  {
    var name := ObjectName(kind, ruler, i);
    forall j: nat | j < i ensures ObjectName(kind, ruler, j) != name {
      if ObjectName(kind, ruler, j) == name {
        ObjectNameUnique(kind, ruler, j, ruler, i);
      }
    }
  }

  /** What is there afterwards: of the claimed names exactly the shards' objects, each as
      specified, and everything else as before. */
  ghost predicate AreShardObjects<D(!new)>(kind: Kind, ruler: string, shards: nat, spec: nat -> D,
                                           existing: map<string, D>, after: map<string, D>)
  {
    && (forall i: nat :: i < shards ==> ObjectName(kind, ruler, i) in after && after[ObjectName(kind, ruler, i)] == spec(i))
    && (forall n :: n in after && Claims(kind, ruler, n) ==> exists i: nat :: i < shards && n == ObjectName(kind, ruler, i))
    && (forall n :: !Claims(kind, ruler, n) ==> (n in after <==> n in existing))
    && (forall n :: !Claims(kind, ruler, n) && n in existing ==> after[n] == existing[n])
  }

  /** statefulSets and services: write every target, then delete the claimed objects that are no
      targets; the listing is taken before the writes. */
  method ShardObjectOps<D(!new)>(kind: Kind, ruler: string, shards: nat, spec: nat -> D, existing: map<string, D>)
    returns (ops: seq<Op<D>>)
    ensures AreShardObjects(kind, ruler, shards, spec, existing, Apply(existing, ops))
  {
    var targetNames;
    ghost var targets;
    ops, targetNames, targets := AppendShards(kind, ruler, shards, spec, existing);
    var claims := n => Claims(kind, ruler, n);
    ops := AppendDeletes(claims, existing, targetNames, ops, existing);
    WrittenThenDeleted(existing, targets, claims);
    ShardTargetsClaimed(kind, ruler, shards, spec, targets);
    CollectedIsExact(existing, targets, claims);
  }

  lemma WrittenThenDeleted<D>(existing: map<string, D>, targets: map<string, D>, claims: string -> bool)
    ensures existing + targets - Stale(claims, existing, targets.Keys) == Collected(existing, targets, claims)
  {
  }

  lemma ShardTargetsClaimed<D(!new)>(kind: Kind, ruler: string, shards: nat, spec: nat -> D, targets: map<string, D>)
    requires IsShardTargets(kind, ruler, shards, spec, targets)
    ensures forall n :: n in targets ==> Claims(kind, ruler, n)
  {
    forall n | n in targets ensures Claims(kind, ruler, n) {
      var j: nat :| j < shards && n == ObjectName(kind, ruler, j);
      ClaimsOnlyOwn(ruler, ruler, j, 0);
    }
  }

  /** So the StatefulSets (Services) of the ruler are exactly those of its shards, and those of
      any other ruler are untouched. */
  lemma ShardObjectsExact<D(!new)>(kind: Kind, ruler: string, shards: nat, spec: nat -> D,
                                   existing: map<string, D>, after: map<string, D>, other: string, i: nat)
    requires AreShardObjects(kind, ruler, shards, spec, existing, after)
    ensures ObjectName(kind, ruler, i) in after <==> i < shards
    ensures other != ruler ==>
      && (ObjectName(kind, other, i) in after <==> ObjectName(kind, other, i) in existing)
      && (ObjectName(kind, other, i) in existing ==>
            after[ObjectName(kind, other, i)] == existing[ObjectName(kind, other, i)])
  {
    ClaimsOnlyOwn(ruler, ruler, i, 0);
    ClaimsOnlyOwn(ruler, other, i, 0);
    if ObjectName(kind, ruler, i) in after {
      var j: nat :| j < shards && ObjectName(kind, ruler, i) == ObjectName(kind, ruler, j);
      ObjectNameUnique(kind, ruler, i, ruler, j);
    }
  }

  // ----- from rules to ConfigMaps -----

  /** packed[sn] are the buckets of shard sn. */
  ghost predicate IsPacked(rules: Rules, shards: nat, md5: string -> Digest, content: seq<RuleGroup> -> Option<string>,
                           sn: nat, files: Files, names: seq<string>, buckets: seq<Files>)
    requires shards >= 1
  {
    && IsShard(rules, shards, md5, content, sn, files)
    && IsSortedKeys(files, names)
    && FitsSingly(files, MAX_CONFIG_MAP_DATA_SIZE)
    && buckets == Buckets(files, names, MAX_CONFIG_MAP_DATA_SIZE)
  }

  ghost predicate IsPackedShard(rules: Rules, shards: nat, md5: string -> Digest, content: seq<RuleGroup> -> Option<string>,
                                sn: nat, buckets: seq<Files>)
    requires shards >= 1
  {
    exists files, names :: IsPacked(rules, shards, md5, content, sn, files, names, buckets)
  }

  /** The ConfigMaps of the first n shards and the names recorded for each of them. */
  ghost predicate IsTargets(ruler: string, packed: seq<seq<Files>>, targets: map<string, Files>) {
    && (forall sn, j :: 0 <= sn < |packed| && 0 <= j < |packed[sn]| ==>
          ConfigMapName(ruler, sn, j) in targets && targets[ConfigMapName(ruler, sn, j)] == packed[sn][j])
    && (forall n :: n in targets ==>
          exists sn, j :: 0 <= sn < |packed| && 0 <= j < |packed[sn]| && n == ConfigMapName(ruler, sn, j))
  }

  ghost predicate IsRecorded(ruler: string, sn: nat, buckets: seq<Files>, names: set<string>) {
    forall n :: n in names <==> exists j :: 0 <= j < |buckets| && n == ConfigMapName(ruler, sn, j)
  }

  /** Naming the buckets of shard sn, the one after those that are packed. */
  method NameBuckets(ruler: string, sn: nat, ghost packed: seq<seq<Files>>, targets: map<string, Files>, buckets: seq<Files>)
    returns (more: map<string, Files>, names: set<string>)
    requires IsTargets(ruler, packed, targets) && sn == |packed|
    ensures IsTargets(ruler, packed + [buckets], more)
    ensures IsRecorded(ruler, sn, buckets, names)
  {
    more := targets;
    names := {};
    assert forall m :: 0 <= m < sn ==> (packed + [buckets[..0]])[m] == packed[m];
    for j := 0 to |buckets|
      invariant IsTargets(ruler, packed + [buckets[..j]], more)
      invariant IsRecorded(ruler, sn, buckets[..j], names)
    {
      AddBucket(ruler, packed, buckets, j, more);
      AddRecord(ruler, sn, buckets, j, names);
      var name := ConfigMapName(ruler, sn, j);
      more := more[name := buckets[j]];
      names := names + {name};
    }
    assert buckets[..|buckets|] == buckets;
  }

  lemma AddRecord(ruler: string, sn: nat, buckets: seq<Files>, j: nat, names: set<string>)
    requires j < |buckets| && IsRecorded(ruler, sn, buckets[..j], names)
    ensures IsRecorded(ruler, sn, buckets[..j + 1], names + {ConfigMapName(ruler, sn, j)})
  {
    var name := ConfigMapName(ruler, sn, j);
    forall n ensures n in names + {name} <==> exists l :: 0 <= l < |buckets[..j + 1]| && n == ConfigMapName(ruler, sn, l) {
      if n in names {
        var l :| 0 <= l < |buckets[..j]| && n == ConfigMapName(ruler, sn, l);
      }
      if l :| 0 <= l < |buckets[..j + 1]| && n == ConfigMapName(ruler, sn, l) {
        assert l < j ==> l < |buckets[..j]|;
      }
    }
  }

  lemma AddBucket(ruler: string, packed: seq<seq<Files>>, buckets: seq<Files>, j: nat, targets: map<string, Files>)
    requires j < |buckets| && IsTargets(ruler, packed + [buckets[..j]], targets)
    ensures IsTargets(ruler, packed + [buckets[..j + 1]], targets[ConfigMapName(ruler, |packed|, j) := buckets[j]])
  {
    AddBucketHolds(ruler, packed, buckets, j, targets);
    AddBucketOnly(ruler, packed, buckets, j, targets);
  }

  lemma AddBucketHolds(ruler: string, packed: seq<seq<Files>>, buckets: seq<Files>, j: nat, targets: map<string, Files>)
    requires j < |buckets| && IsTargets(ruler, packed + [buckets[..j]], targets)
    ensures var next := packed + [buckets[..j + 1]]; var more := targets[ConfigMapName(ruler, |packed|, j) := buckets[j]];
      forall m, l :: 0 <= m < |next| && 0 <= l < |next[m]| ==>
        ConfigMapName(ruler, m, l) in more && more[ConfigMapName(ruler, m, l)] == next[m][l]
  {
    var sn := |packed|;
    var name := ConfigMapName(ruler, sn, j);
    var now, next := packed + [buckets[..j]], packed + [buckets[..j + 1]];
    var more := targets[name := buckets[j]];
    forall m, l | 0 <= m < |next| && 0 <= l < |next[m]|
      ensures ConfigMapName(ruler, m, l) in more && more[ConfigMapName(ruler, m, l)] == next[m][l]
    {
      if m == sn && l == j {
      } else {
        if ConfigMapName(ruler, m, l) == name {
          ConfigMapNameUnique(ruler, m, l, ruler, sn, j);
        }
        assert l < |now[m]| && now[m][l] == next[m][l];
      }
    }
  }

  lemma AddBucketOnly(ruler: string, packed: seq<seq<Files>>, buckets: seq<Files>, j: nat, targets: map<string, Files>)
    requires j < |buckets| && IsTargets(ruler, packed + [buckets[..j]], targets)
    ensures var next := packed + [buckets[..j + 1]];
      forall n :: n in targets || n == ConfigMapName(ruler, |packed|, j) ==>
        exists m, l :: 0 <= m < |next| && 0 <= l < |next[m]| && n == ConfigMapName(ruler, m, l)
  {
    var sn := |packed|;
    var name := ConfigMapName(ruler, sn, j);
    var now, next := packed + [buckets[..j]], packed + [buckets[..j + 1]];
    forall n | n in targets || n == name
      ensures exists m, l :: 0 <= m < |next| && 0 <= l < |next[m]| && n == ConfigMapName(ruler, m, l)
    {
      if n == name {
        assert j < |next[sn]| && n == ConfigMapName(ruler, sn, j);
      } else {
        var m, l :| 0 <= m < |now| && 0 <= l < |now[m]| && n == ConfigMapName(ruler, m, l);
        assert l < |next[m]|;
      }
    }
  }

  /** A rendered file of some shard exceeds the limit by itself. */
  ghost predicate SomeFileTooLarge(rules: Rules, shards: nat, md5: string -> Digest, content: seq<RuleGroup> -> Option<string>)
    requires shards >= 1
  {
    exists sn: nat, files :: sn < shards && IsShard(rules, shards, md5, content, sn, files)
                             && !FitsSingly(files, MAX_CONFIG_MAP_DATA_SIZE)
  }

  datatype RuleObjects = RuleObjects(ops: seq<Op<Files>>, recorded: seq<set<string>>)

  /** ruleConfigMaps as a whole: shard, pack, name, collect. It fails, and then changes nothing,
      exactly when some file cannot be rendered or is too large for a ConfigMap. */
  method RuleConfigMaps(ruler: string, rules: Rules, shards: nat, md5: string -> Digest,
                        content: seq<RuleGroup> -> Option<string>, existing: map<string, Files>)
    returns (r: Option<RuleObjects>, ghost packed: seq<seq<Files>>, ghost targets: map<string, Files>)
    requires shards >= 1
    ensures r.None? <==> !Renders(rules, shards, md5, content) || SomeFileTooLarge(rules, shards, md5, content)
    ensures r.Some? ==> Renders(rules, shards, md5, content) && |packed| == |r.value.recorded| == shards
    ensures r.Some? ==> forall sn: nat :: sn < shards ==>
      && IsPackedShard(rules, shards, md5, content, sn, packed[sn])
      && IsRecorded(ruler, sn, packed[sn], r.value.recorded[sn])
    ensures r.Some? ==> IsTargets(ruler, packed, targets)
    ensures r.Some? ==> Apply(existing, r.value.ops) == Collected(existing, targets, n => ClaimsConfigMap(ruler, n))
    ensures r.Some? ==>
      (r.value.ops == [] <==>
       (existing == Collected(existing, targets, n => ClaimsConfigMap(ruler, n))
        && forall sn: nat :: sn < shards ==> HasFile(rules, shards, md5, sn)))
  {
    packed, targets := [], map[];
    var sharded := ShardRules(rules, shards, md5, content);
    if sharded.None? {
      return None, packed, targets;
    }
    var named: map<string, Files> := map[];
    var recorded: seq<set<string>> := [];
    for sn := 0 to shards
      invariant |packed| == |recorded| == sn
      invariant IsTargets(ruler, packed, named)
      invariant forall m: nat :: m < sn ==>
        && IsPackedShard(rules, shards, md5, content, m, packed[m])
        && IsRecorded(ruler, m, packed[m], recorded[m])
    {
      var buckets := PackFiles(sharded.value[sn], MAX_CONFIG_MAP_DATA_SIZE);
      if buckets.None? {
        return None, packed, targets;
      }
      ghost var names :| IsSortedKeys(sharded.value[sn], names)
        && buckets.value == Buckets(sharded.value[sn], names, MAX_CONFIG_MAP_DATA_SIZE);
      assert IsPacked(rules, shards, md5, content, sn, sharded.value[sn], names, buckets.value);
      var more, rec := NameBuckets(ruler, sn, packed, named, buckets.value);
      named := more;
      packed := packed + [buckets.value];
      recorded := recorded + [rec];
    }
    NoneTooLarge(rules, shards, md5, content, packed);
    targets := named;
    TargetsAreClaimed(ruler, packed, named);
    FilledIff(ruler, rules, shards, md5, content, packed, named);
    var ops := ConfigMapOps(ruler, existing, named);
    r := Some(RuleObjects(ops, recorded));
  }

  /** Some rule file has a group in the shard. */
  ghost predicate HasFile(rules: Rules, shards: nat, md5: string -> Digest, sn: nat)
    requires shards >= 1
  {
    exists f :: f in rules && InShard(md5, f, rules[f], shards, sn) != []
  }

  /** A shard's first bucket is empty exactly when the shard has no file; no other bucket is. */
  lemma EmptyBucketIff(rules: Rules, shards: nat, md5: string -> Digest, content: seq<RuleGroup> -> Option<string>,
                       sn: nat, buckets: seq<Files>)
    requires shards >= 1 && IsPackedShard(rules, shards, md5, content, sn, buckets)
    ensures buckets != []
    ensures forall j :: 0 <= j < |buckets| ==> (buckets[j] != map[] <==> HasFile(rules, shards, md5, sn))
  {
    var files, names :| IsPacked(rules, shards, md5, content, sn, files, names, buckets);
    var packing := NextFit(files, names, MAX_CONFIG_MAP_DATA_SIZE);
    FilesFit(files, names);
    NextFitNonEmpty(files, names, MAX_CONFIG_MAP_DATA_SIZE);
    NoNames(files, names);
    assert files != map[] <==> HasFile(rules, shards, md5, sn) by {
      if f :| f in files {
        assert f in rules && InShard(md5, f, rules[f], shards, sn) != [];
      }
      if f :| f in rules && InShard(md5, f, rules[f], shards, sn) != [] {
        assert f in files;
      }
    }
    forall j | 0 <= j < |buckets| ensures buckets[j] != map[] <==> names != [] {
      assert buckets[j] == BucketOf(files, packing[j]);
      if packing[j] != [] {
        assert packing[j][0] in BucketOf(files, packing[j]);
      }
    }
  }

  lemma FilesFit(files: Files, names: seq<string>)
    requires IsSortedKeys(files, names) && FitsSingly(files, MAX_CONFIG_MAP_DATA_SIZE)
    ensures forall n :: n in names ==> n in files && |files[n]| <= MAX_CONFIG_MAP_DATA_SIZE
  {
  }

  lemma NoNames(files: Files, names: seq<string>)
    requires IsSortedKeys(files, names)
    ensures names == [] <==> files == map[]
  {
    if names != [] {
      assert names[0] in files;
    }
  }

  /** No target is empty exactly when every shard has a file. */
  lemma FilledIff(ruler: string, rules: Rules, shards: nat, md5: string -> Digest, content: seq<RuleGroup> -> Option<string>,
                  packed: seq<seq<Files>>, targets: map<string, Files>)
    requires shards >= 1 && |packed| == shards && IsTargets(ruler, packed, targets)
    requires forall sn: nat :: sn < shards ==> IsPackedShard(rules, shards, md5, content, sn, packed[sn])
    ensures (forall n :: n in targets ==> targets[n] != map[]) <==>
      forall sn: nat :: sn < shards ==> HasFile(rules, shards, md5, sn)
  {
    forall sn: nat | sn < shards
      ensures packed[sn] != []
      ensures forall j :: 0 <= j < |packed[sn]| ==> (packed[sn][j] != map[] <==> HasFile(rules, shards, md5, sn))
    {
      EmptyBucketIff(rules, shards, md5, content, sn, packed[sn]);
    }
    if forall n :: n in targets ==> targets[n] != map[] {
      forall sn: nat | sn < shards ensures HasFile(rules, shards, md5, sn) {
        assert ConfigMapName(ruler, sn, 0) in targets && targets[ConfigMapName(ruler, sn, 0)] == packed[sn][0];
      }
    }
    if forall sn: nat :: sn < shards ==> HasFile(rules, shards, md5, sn) {
      forall n | n in targets ensures targets[n] != map[] {
        var sn, j :| 0 <= sn < |packed| && 0 <= j < |packed[sn]| && n == ConfigMapName(ruler, sn, j);
        assert targets[n] == packed[sn][j];
      }
    }
  }

  /** Without rules, or with one group and more than one shard, some shard has no file, so every run
      emits an operation. */
  lemma FewGroupsNeverQuiet(rules: Rules, shards: nat, md5: string -> Digest, f: string, g: RuleGroup)
    returns (sn: nat)
    requires shards >= 1 && (rules == map[] || (rules == map[f := [g]] && shards >= 2))
    ensures sn < shards && !HasFile(rules, shards, md5, sn)
  {
    sn := if ShardOf(md5, f, g, shards) == 0 then shards - 1 else 0;
    ShardIs(md5, f, g, shards);
    if rules != map[] {
      ShardMultiplicity(md5, f, [g], shards, sn, g);
      forall x ensures multiset(InShard(md5, f, [g], shards, sn))[x] == 0 {
        ShardMultiplicity(md5, f, [g], shards, sn, x);
      }
      assert multiset(InShard(md5, f, [g], shards, sn)) == multiset{};
      assert |InShard(md5, f, [g], shards, sn)| == |multiset(InShard(md5, f, [g], shards, sn))|;
    }
  }

  lemma NoneTooLarge(rules: Rules, shards: nat, md5: string -> Digest, content: seq<RuleGroup> -> Option<string>,
                     packed: seq<seq<Files>>)
    requires shards >= 1 && |packed| == shards
    requires forall sn: nat :: sn < shards ==> IsPackedShard(rules, shards, md5, content, sn, packed[sn])
    ensures !SomeFileTooLarge(rules, shards, md5, content)
  {
    forall sn: nat, files | sn < shards && IsShard(rules, shards, md5, content, sn, files)
      ensures FitsSingly(files, MAX_CONFIG_MAP_DATA_SIZE)
    {
      PackedFilesFit(rules, shards, md5, content, sn, files, packed[sn]);
    }
  }

  lemma PackedFilesFit(rules: Rules, shards: nat, md5: string -> Digest, content: seq<RuleGroup> -> Option<string>,
                       sn: nat, files: Files, buckets: seq<Files>)
    requires shards >= 1 && IsPackedShard(rules, shards, md5, content, sn, buckets)
    requires IsShard(rules, shards, md5, content, sn, files)
    ensures FitsSingly(files, MAX_CONFIG_MAP_DATA_SIZE)
  {
    var same, names :| IsPacked(rules, shards, md5, content, sn, same, names, buckets);
    assert same == files;
  }

  lemma TargetsAreClaimed(ruler: string, packed: seq<seq<Files>>, targets: map<string, Files>)
    requires IsTargets(ruler, packed, targets)
    ensures forall n :: n in targets ==> ClaimsConfigMap(ruler, n)
  {
    forall n | n in targets ensures ClaimsConfigMap(ruler, n) {
      var sn, j :| 0 <= sn < |packed| && 0 <= j < |packed[sn]| && n == ConfigMapName(ruler, sn, j);
      ClaimsOnlyOwn(ruler, ruler, sn, j);
    }
  }

  // ----- no rule is lost, none is doubled -----

  lemma {:induction false} FlattenMembers(buckets: seq<seq<string>>, f: string)
    ensures f in Flatten(buckets) <==> exists b :: 0 <= b < |buckets| && f in buckets[b]
  {
    if buckets != [] {
      var init := buckets[..|buckets| - 1];
      FlattenMembers(init, f);
      if b :| 0 <= b < |init| && f in init[b] {
        assert f in buckets[b];
      }
      if b :| 0 <= b < |buckets| && f in buckets[b] {
        assert b < |init| ==> f in init[b];
      }
    }
  }

  lemma {:induction false} FlattenPosition(buckets: seq<seq<string>>, b: nat, i: nat)
    requires b < |buckets| && i < |buckets[b]|
    ensures |Flatten(buckets[..b])| + |buckets[b]| <= |Flatten(buckets)|
    ensures Flatten(buckets)[|Flatten(buckets[..b])| + i] == buckets[b][i]
    decreases |buckets|
  {
    var init := buckets[..|buckets| - 1];
    if b < |init| {
      FlattenPosition(init, b, i);
      assert init[..b] == buckets[..b];
    }
  }

  lemma {:induction false} FlattenGrows(buckets: seq<seq<string>>, b: nat, c: nat)
    requires b < c <= |buckets|
    ensures |Flatten(buckets[..b])| + |buckets[b]| <= |Flatten(buckets[..c])|
  {
    assert buckets[..c][..c - 1] == buckets[..c - 1];
    if b < c - 1 {
      FlattenGrows(buckets, b, c - 1);
    }
  }

  lemma TwiceIsDup(buckets: seq<seq<string>>, f: string, b: nat, c: nat)
    requires b < c < |buckets| && f in buckets[b] && f in buckets[c]
    ensures !NoDup(Flatten(buckets))
  {
    var i :| 0 <= i < |buckets[b]| && buckets[b][i] == f;
    var j :| 0 <= j < |buckets[c]| && buckets[c][j] == f;
    FlattenPosition(buckets, b, i);
    FlattenPosition(buckets, c, j);
    FlattenGrows(buckets, b, c);
    var p, q := |Flatten(buckets[..b])| + i, |Flatten(buckets[..c])| + j;
    assert p < q && Flatten(buckets)[p] == Flatten(buckets)[q];
  }

  lemma FlattenOnce(buckets: seq<seq<string>>, f: string, b: nat, c: nat)
    requires NoDup(Flatten(buckets)) && b < |buckets| && c < |buckets| && f in buckets[b] && f in buckets[c]
    ensures b == c
  {
    if b < c {
      TwiceIsDup(buckets, f, b, c);
    } else if c < b {
      TwiceIsDup(buckets, f, c, b);
    }
  }

  /** Each file is in exactly one bucket, with its content. */
  ghost predicate InOneBucket(buckets: seq<Files>, f: string, text: string, j: nat) {
    && j < |buckets| && f in buckets[j] && buckets[j][f] == text
    && forall l :: 0 <= l < |buckets| && f in buckets[l] ==> l == j
  }

  lemma FileInOneBucket(files: Files, names: seq<string>, limit: nat, f: string) returns (j: nat)
    requires IsSortedKeys(files, names) && f in files
    ensures InOneBucket(Buckets(files, names, limit), f, files[f], j)
  {
    var packing := NextFit(files, names, limit);
    NextFitKeepsOrder(files, names, limit);
    FlattenMembers(packing, f);
    j :| 0 <= j < |packing| && f in packing[j];
    forall l | 0 <= l < |packing| && f in Buckets(files, names, limit)[l] ensures l == j {
      FlattenOnce(packing, f, l, j);
    }
  }

  /** Sharding then packing conserves the rules. A group of a rule file is in the file's part of
      exactly one shard, as often as in the file; that part is rendered under the file's name
      into exactly one ConfigMap, which is recorded for that shard and is among the targets. */
  lemma RulesAreConserved(ruler: string, rules: Rules, shards: nat, md5: string -> Digest,
                          content: seq<RuleGroup> -> Option<string>, packed: seq<seq<Files>>,
                          targets: map<string, Files>, recorded: seq<set<string>>, f: string, g: RuleGroup)
    returns (sn: nat, j: nat)
    requires shards >= 1 && |packed| == |recorded| == shards && f in rules && g in rules[f]
    requires forall m: nat :: m < shards ==>
      IsPackedShard(rules, shards, md5, content, m, packed[m]) && IsRecorded(ruler, m, packed[m], recorded[m])
    requires IsTargets(ruler, packed, targets)
    ensures sn == BigEndian(md5(f + "/" + g.name)[8..]) % shards
    ensures forall m: nat :: multiset(InShard(md5, f, rules[f], shards, m))[g] == if m == sn then multiset(rules[f])[g] else 0
    ensures content(InShard(md5, f, rules[f], shards, sn)).Some?
    ensures InOneBucket(packed[sn], f, content(InShard(md5, f, rules[f], shards, sn)).value, j)
    ensures ConfigMapName(ruler, sn, j) in recorded[sn]
    ensures ConfigMapName(ruler, sn, j) in targets && targets[ConfigMapName(ruler, sn, j)] == packed[sn][j]
  {
    sn := ShardOf(md5, f, g, shards);
    ShardIs(md5, f, g, shards);
    forall m: nat
      ensures multiset(InShard(md5, f, rules[f], shards, m))[g] == if m == sn then multiset(rules[f])[g] else 0
    {
      ShardMultiplicity(md5, f, rules[f], shards, m, g);
    }
    assert multiset(rules[f])[g] > 0;
    assert g in InShard(md5, f, rules[f], shards, sn) by {
      assert g in multiset(InShard(md5, f, rules[f], shards, sn));
    }
    assert IsPackedShard(rules, shards, md5, content, sn, packed[sn]);
    var files, names :| IsPacked(rules, shards, md5, content, sn, files, names, packed[sn]);
    j := FileInOneBucket(files, names, MAX_CONFIG_MAP_DATA_SIZE, f);
  }
}
