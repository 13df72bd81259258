/** Spreading rule groups over the shards of a ruler, one rendered file per rule file and shard. */
module RulerShards {
  import opened Text
  import opened Sum64
  import opened Packing

  /** body stands for everything in the group but its name. */
  datatype RuleGroup = RuleGroup(name: string, body: string)

  type Rules = map<string, seq<RuleGroup>>

  /** The shard of a group: a function of the file and the group name only. */
  function ShardOf(md5: string -> Digest, file: string, g: RuleGroup, shards: nat): (sn: nat)
    requires shards >= 1
    ensures sn < shards
  {
    Shard(md5(file + "/" + g.name), shards)
  }

  /** The groups of a file that belong to a shard, in file order. */
  function InShard(md5: string -> Digest, file: string, groups: seq<RuleGroup>, shards: nat, sn: nat): seq<RuleGroup>
    requires shards >= 1
  {
    if groups == [] then []
    else
      var last := groups[|groups| - 1];
      InShard(md5, file, groups[..|groups| - 1], shards, sn)
      + (if ShardOf(md5, file, last, shards) == sn then [last] else [])
  }

  // ----- every group lands in exactly one shard -----

  /** The shard is the big-endian number of the last eight bytes of the digest of file and group
      name, modulo the number of shards. */
  lemma ShardIs(md5: string -> Digest, file: string, g: RuleGroup, shards: nat)
    requires shards >= 1
    ensures ShardOf(md5, file, g, shards) == BigEndian(md5(file + "/" + g.name)[8..]) % shards
  {
    LowHalf(md5(file + "/" + g.name));
  }

  /** Two groups share a shard exactly when their numbers are congruent modulo the shards. */
  lemma ShareShardIff(md5: string -> Digest, file: string, g: RuleGroup, other: string, h: RuleGroup, shards: nat)
    requires shards >= 1
    ensures ShardOf(md5, file, g, shards) == ShardOf(md5, other, h, shards) <==>
      exists q: int :: BigEndian(md5(file + "/" + g.name)[8..]) - BigEndian(md5(other + "/" + h.name)[8..]) == q * shards
  {
    ShardIs(md5, file, g, shards);
    ShardIs(md5, other, h, shards);
    CongruentIff(BigEndian(md5(file + "/" + g.name)[8..]), BigEndian(md5(other + "/" + h.name)[8..]), shards);
  }

  lemma CongruentIff(a: nat, b: nat, m: nat)
    requires m >= 1
    ensures a % m == b % m <==> exists q: int :: a - b == q * m
  {
    if a % m == b % m {
      var q := a / m - b / m;
      assert a - b == q * m by {
        assert a == a / m * m + a % m && b == b / m * m + b % m;
        Times(a / m, b / m, m);
      }
    }
    if q: int :| a - b == q * m {
      SameRemainder(b, q, m);
      assert a == b + q * m;
    }
  }

  lemma Times(x: int, y: int, m: int)
    ensures x * m - y * m == (x - y) * m
  {
  }

  lemma SameRemainder(b: nat, q: int, m: nat)
    requires m >= 1 && b + q * m >= 0
    ensures (b + q * m) % m == b % m
  {
    var r := b % m;
    var p := b / m;
    assert b + q * m == (p + q) * m + r by {
      assert b == p * m + r;
    }
    QuotientUnique(b + q * m, p + q, r, m);
  }

  lemma QuotientUnique(a: int, q: int, r: int, m: int)
    requires m >= 1 && a == q * m + r && 0 <= r < m
    ensures a % m == r
  {
    var d := a / m - q;
    assert a == a / m * m + a % m;
    assert d * m == r - a % m;
    if d >= 1 {
      MultiplyBoth(1, d, m);
    }
    if d <= -1 {
      MultiplyBoth(d, -1, m);
    }
  }

  /** Every shard up to 2^64 is the shard of some digest: none is left out by the hashing. */
  lemma EveryShardIsReached(file: string, g: RuleGroup, shards: nat, sn: nat) returns (md5: string -> Digest)
    requires sn < shards && sn < TWO_64
    ensures ShardOf(md5, file, g, shards) == sn
  {
    var d := EverySumOccurs(sn);
    md5 := text => d;
    ShardIs(md5, file, g, shards);
    SmallRemainder(sn, shards);
  }

  lemma SmallRemainder(v: nat, m: nat)
    requires v < m
    ensures v % m == v
  {
  }

  /** A group occurs in its own shard as often as in the file, and in no other shard. */
  lemma {:induction false} ShardMultiplicity(md5: string -> Digest, file: string, groups: seq<RuleGroup>, shards: nat, sn: nat, g: RuleGroup)
    requires shards >= 1
    ensures multiset(InShard(md5, file, groups, shards, sn))[g] ==
            if BigEndian(md5(file + "/" + g.name)[8..]) % shards == sn then multiset(groups)[g] else 0
  {
    ShardIs(md5, file, g, shards);
    if groups != [] {
      ShardMultiplicity(md5, file, groups[..|groups| - 1], shards, sn, g);
      assert groups == groups[..|groups| - 1] + [groups[|groups| - 1]];
    }
  }

  /** Positions that a shard keeps: the increasing list of the indices of its groups. */
  function Positions(md5: string -> Digest, file: string, groups: seq<RuleGroup>, shards: nat, sn: nat): seq<nat>
    requires shards >= 1
  {
    if groups == [] then []
    else
      var n := |groups| - 1;
      Positions(md5, file, groups[..n], shards, sn)
      + (if ShardOf(md5, file, groups[n], shards) == sn then [n] else [])
  }

  /** The order of the file is kept: a shard's groups stand at strictly increasing positions. */
  lemma {:induction false} ShardKeepsOrder(md5: string -> Digest, file: string, groups: seq<RuleGroup>, shards: nat, sn: nat)
    requires shards >= 1
    ensures var at := Positions(md5, file, groups, shards, sn);
      && |at| == |InShard(md5, file, groups, shards, sn)|
      && (forall i :: 0 <= i < |at| ==> at[i] < |groups| && groups[at[i]] == InShard(md5, file, groups, shards, sn)[i])
      && (forall i, j :: 0 <= i < j < |at| ==> at[i] < at[j])
  {
    if groups != [] {
      ShardKeepsOrder(md5, file, groups[..|groups| - 1], shards, sn);
    }
  }

  /** With one shard everything is in shard 0, so the shortcut is the general path. */
  lemma {:induction false} OneShardTakesAll(md5: string -> Digest, file: string, groups: seq<RuleGroup>)
    ensures InShard(md5, file, groups, 1, 0) == groups
  {
    if groups != [] {
      OneShardTakesAll(md5, file, groups[..|groups| - 1]);
    }
  }

  // ----- the loops -----

  /** The rendered files of one shard: one for each rule file with groups there. */
  ghost predicate IsShard(rules: Rules, shards: nat, md5: string -> Digest, content: seq<RuleGroup> -> Option<string>,
                          sn: nat, files: Files)
    requires shards >= 1
  {
    && (forall f :: f in files <==> f in rules && InShard(md5, f, rules[f], shards, sn) != [])
    && (forall f :: f in files ==> content(InShard(md5, f, rules[f], shards, sn)) == Some(files[f]))
  }

  /** Every file the shards need can be rendered. */
  ghost predicate Renders(rules: Rules, shards: nat, md5: string -> Digest, content: seq<RuleGroup> -> Option<string>)
    requires shards >= 1
  {
    forall f, sn: nat :: f in rules && sn < shards ==> PartRenders(md5, content, f, rules[f], shards, sn)
  }

  predicate PartRenders(md5: string -> Digest, content: seq<RuleGroup> -> Option<string>, file: string,
                        groups: seq<RuleGroup>, shards: nat, sn: nat)
    requires shards >= 1
  {
    InShard(md5, file, groups, shards, sn) != [] ==> content(InShard(md5, file, groups, shards, sn)).Some?
  }

  function Restrict(rules: Rules, done: set<string>): Rules {
    map f | f in rules && f in done :: rules[f]
  }

  method SplitGroups(md5: string -> Digest, file: string, groups: seq<RuleGroup>, shards: nat)
    returns (specs: seq<seq<RuleGroup>>)
    requires shards >= 1
    ensures |specs| == shards
    ensures forall sn :: 0 <= sn < shards ==> specs[sn] == InShard(md5, file, groups, shards, sn)
    ensures forall sn, g :: 0 <= sn < shards ==>
      multiset(specs[sn])[g] == if BigEndian(md5(file + "/" + g.name)[8..]) % shards == sn then multiset(groups)[g] else 0
  {
    specs := seq(shards, i => []);
    for i := 0 to |groups|
      invariant |specs| == shards
      invariant forall sn :: 0 <= sn < shards ==> specs[sn] == InShard(md5, file, groups[..i], shards, sn)
    {
      var s := Sum(md5(file + "/" + groups[i].name));
      var sn := s % shards;
      ShardIs(md5, file, groups[i], shards);
      assert groups[..i + 1][..i] == groups[..i];
      specs := specs[sn := specs[sn] + [groups[i]]];
    }
    assert groups[..|groups|] == groups;
    forall sn, g | 0 <= sn < shards
      ensures multiset(specs[sn])[g] == if BigEndian(md5(file + "/" + g.name)[8..]) % shards == sn then multiset(groups)[g] else 0
    {
      ShardMultiplicity(md5, file, groups, shards, sn, g);
    }
  }

  /** Rendering one rule file into the shards that have groups of it. */
  method RenderFile(rules: Rules, shards: nat, md5: string -> Digest, content: seq<RuleGroup> -> Option<string>,
                    done: set<string>, file: string, out: seq<Files>) returns (r: Option<seq<Files>>)
    requires shards >= 1 && |out| == shards && file in rules && file !in done
    requires forall sn :: 0 <= sn < shards ==> IsShard(Restrict(rules, done), shards, md5, content, sn, out[sn])
    ensures r.Some? <==> Renders(map[file := rules[file]], shards, md5, content)
    ensures r.Some? ==> |r.value| == shards
    ensures r.Some? ==> forall sn :: 0 <= sn < shards ==>
      IsShard(Restrict(rules, done + {file}), shards, md5, content, sn, r.value[sn])
  {
    var specs := SplitGroups(md5, file, rules[file], shards);
    var next := out;
    for sn := 0 to shards
      invariant |next| == shards
      invariant forall m :: 0 <= m < sn ==> IsShard(Restrict(rules, done + {file}), shards, md5, content, m, next[m])
      invariant forall m :: sn <= m < shards ==> next[m] == out[m]
      invariant forall m: nat :: m < sn ==> PartRenders(md5, content, file, rules[file], shards, m)
    {
      var part := RenderPart(rules, shards, md5, content, done, file, sn, specs[sn], out[sn]);
      if part.None? {
        RendersOne(md5, content, file, rules[file], shards);
        return None;
      }
      next := next[sn := part.value];
    }
    RendersOne(md5, content, file, rules[file], shards);
    return Some(next);
  }

  /** One shard's part of a file; a shard without groups of the file does not get it. */
  method RenderPart(rules: Rules, shards: nat, md5: string -> Digest, content: seq<RuleGroup> -> Option<string>,
                    ghost done: set<string>, file: string, sn: nat, spec: seq<RuleGroup>, files: Files)
    returns (r: Option<Files>)
    requires shards >= 1 && file in rules && file !in done && spec == InShard(md5, file, rules[file], shards, sn)
    requires IsShard(Restrict(rules, done), shards, md5, content, sn, files)
    ensures r.Some? <==> PartRenders(md5, content, file, rules[file], shards, sn)
    ensures r.Some? ==> IsShard(Restrict(rules, done + {file}), shards, md5, content, sn, r.value)
  {
    AddingFile(rules, shards, md5, content, done, file, sn, files);
    if |spec| == 0 {
      return Some(files);
    }
    var text := content(spec);
    if text.None? {
      return None;
    }
    return Some(files[file := text.value]);
  }

  lemma RendersOne(md5: string -> Digest, content: seq<RuleGroup> -> Option<string>, file: string,
                   groups: seq<RuleGroup>, shards: nat)
    requires shards >= 1
    ensures Renders(map[file := groups], shards, md5, content) <==>
      forall m: nat :: m < shards ==> PartRenders(md5, content, file, groups, shards, m)
  {
    var one := map[file := groups];
    if Renders(one, shards, md5, content) {
      forall m: nat | m < shards ensures PartRenders(md5, content, file, groups, shards, m) {
        assert PartRenders(md5, content, file, one[file], shards, m);
      }
    }
  }

  lemma AddingFile(rules: Rules, shards: nat, md5: string -> Digest, content: seq<RuleGroup> -> Option<string>,
                   done: set<string>, file: string, sn: nat, files: Files)
    requires shards >= 1 && file in rules && file !in done
    requires IsShard(Restrict(rules, done), shards, md5, content, sn, files)
    ensures InShard(md5, file, rules[file], shards, sn) == [] ==>
              IsShard(Restrict(rules, done + {file}), shards, md5, content, sn, files)
    ensures InShard(md5, file, rules[file], shards, sn) != []
            && content(InShard(md5, file, rules[file], shards, sn)).Some? ==>
              IsShard(Restrict(rules, done + {file}), shards, md5, content, sn,
                      files[file := content(InShard(md5, file, rules[file], shards, sn)).value])
  {
    var before, after := Restrict(rules, done), Restrict(rules, done + {file});
    assert forall f :: f in after <==> f in before || f == file;
    assert forall f :: f in before ==> after[f] == before[f];
  }

  /** The sharding part of ruleConfigMaps. Files are met in the order of a Go map; an error in
      rendering any of them ends it. */
  method ShardRules(rules: Rules, shards: nat, md5: string -> Digest, content: seq<RuleGroup> -> Option<string>)
    returns (r: Option<seq<Files>>)
    requires shards >= 1
    ensures r.Some? <==> Renders(rules, shards, md5, content)
    ensures r.Some? ==> |r.value| == shards
    ensures r.Some? ==> forall sn :: 0 <= sn < shards ==> IsShard(rules, shards, md5, content, sn, r.value[sn])
  {
    var out: seq<Files> := seq(shards, i => map[]);
    var done: set<string> := {};
    while done != rules.Keys
      invariant done <= rules.Keys && |out| == shards
      invariant forall sn :: 0 <= sn < shards ==> IsShard(Restrict(rules, done), shards, md5, content, sn, out[sn])
      invariant Renders(Restrict(rules, done), shards, md5, content)
      decreases rules.Keys - done
    {
      var file :| file in rules && file !in done;
      var next := None;
      if shards > 1 {
        next := RenderFile(rules, shards, md5, content, done, file, out);
      } else {
        next := RenderWhole(rules, md5, content, done, file, out);
      }
      if next.None? {
        UnrenderedFile(rules, shards, md5, content, file);
        return None;
      }
      RendersMore(rules, shards, md5, content, done, file);
      out := next.value;
      done := done + {file};
    }
    assert Restrict(rules, done) == rules;
    return Some(out);
  }

  lemma UnrenderedFile(rules: Rules, shards: nat, md5: string -> Digest, content: seq<RuleGroup> -> Option<string>, file: string)
    requires shards >= 1 && file in rules && !Renders(map[file := rules[file]], shards, md5, content)
    ensures !Renders(rules, shards, md5, content)
  {
    RendersOne(md5, content, file, rules[file], shards);
    var m: nat :| m < shards && !PartRenders(md5, content, file, rules[file], shards, m);
  }

  lemma RendersMore(rules: Rules, shards: nat, md5: string -> Digest, content: seq<RuleGroup> -> Option<string>,
                    done: set<string>, file: string)
    requires shards >= 1 && file in rules
    requires Renders(Restrict(rules, done), shards, md5, content)
    requires Renders(map[file := rules[file]], shards, md5, content)
    ensures Renders(Restrict(rules, done + {file}), shards, md5, content)
  {
    var one, before, after := map[file := rules[file]], Restrict(rules, done), Restrict(rules, done + {file});
    forall f, sn: nat | f in after && sn < shards ensures PartRenders(md5, content, f, after[f], shards, sn) {
      if f == file {
        assert PartRenders(md5, content, f, one[f], shards, sn);
      } else {
        assert PartRenders(md5, content, f, before[f], shards, sn);
      }
    }
  }

  /** The shortcut for a single shard: the file as a whole, unless it has no groups. */
  method RenderWhole(rules: Rules, md5: string -> Digest, content: seq<RuleGroup> -> Option<string>,
                     ghost done: set<string>, file: string, out: seq<Files>) returns (r: Option<seq<Files>>)
    requires |out| == 1 && file in rules && file !in done
    requires IsShard(Restrict(rules, done), 1, md5, content, 0, out[0])
    ensures r.Some? <==> Renders(map[file := rules[file]], 1, md5, content)
    ensures r.Some? ==> |r.value| == 1 && IsShard(Restrict(rules, done + {file}), 1, md5, content, 0, r.value[0])
  {
    OneShardTakesAll(md5, file, rules[file]);
    AddingFile(rules, 1, md5, content, done, file, 0, out[0]);
    RendersOne(md5, content, file, rules[file], 1);
    if |rules[file]| == 0 {
      return Some(out);
    }
    var text := content(rules[file]);
    if text.None? {
      assert !PartRenders(md5, content, file, rules[file], 1, 0);
      return None;
    }
    return Some([out[0][file := text.value]]);
  }
}
