/** Packing rule files into ConfigMaps of bounded size. The source calls it first-fit; only the
    bucket in hand is looked at, so it is next-fit. */
module Packing {
  import opened Text

  type Files = map<string, string>

  /** Half of the 1 MiB limit on Secrets. */
  const MAX_CONFIG_MAP_DATA_SIZE := 524288

  /** The size of a list of files. */
  function Size(files: Files, names: seq<string>): nat
    requires forall n :: n in names ==> n in files
  {
    if names == [] then 0 else Size(files, names[..|names| - 1]) + |files[names[|names| - 1]]|
  }

  /** The packing as lists of names: a file goes into the last bucket or opens a new one. */
  function NextFit(files: Files, names: seq<string>, limit: nat): (buckets: seq<seq<string>>)
    requires forall n :: n in names ==> n in files
    ensures buckets != []
    ensures forall b, n :: 0 <= b < |buckets| && n in buckets[b] ==> n in files
  {
    if names == [] then [[]]
    else
      var name := names[|names| - 1];
      var before := NextFit(files, names[..|names| - 1], limit);
      var last := before[|before| - 1];
      if Size(files, last) + |files[name]| > limit then before + [[name]]
      else before[..|before| - 1] + [last + [name]]
  }

  function Flatten(buckets: seq<seq<string>>): seq<string> {
    if buckets == [] then [] else Flatten(buckets[..|buckets| - 1]) + buckets[|buckets| - 1]
  }

  function Total(files: Files, buckets: seq<seq<string>>): nat
    requires forall b, n :: 0 <= b < |buckets| && n in buckets[b] ==> n in files
  {
    if buckets == [] then 0
    else Total(files, buckets[..|buckets| - 1]) + Size(files, buckets[|buckets| - 1])
  }

  lemma SizeSnoc(files: Files, names: seq<string>, n: string)
    requires forall m :: m in names + [n] ==> m in files
    ensures Size(files, names + [n]) == Size(files, names) + |files[n]|
  {
    assert (names + [n])[..|names|] == names;
  }

  lemma {:induction false} SizeConcat(files: Files, a: seq<string>, b: seq<string>)
    requires forall n :: n in a + b ==> n in files
    ensures Size(files, a + b) == Size(files, a) + Size(files, b)
  {
    if b == [] {
      assert a + b == a;
    } else {
      var init := b[..|b| - 1];
      assert (a + b)[..|a + b| - 1] == a + init;
      SizeConcat(files, a, init);
    }
  }

  // ----- the packing is a packing -----

  /** The buckets in order are exactly the names in order. */
  lemma {:induction false} NextFitKeepsOrder(files: Files, names: seq<string>, limit: nat)
    requires forall n :: n in names ==> n in files
    ensures Flatten(NextFit(files, names, limit)) == names
  {
    if names == [] {
      var one: seq<seq<string>> := [[]];
      assert one[..0] == [];
    } else {
      var init, name := names[..|names| - 1], names[|names| - 1];
      NextFitKeepsOrder(files, init, limit);
      var before, buckets := NextFit(files, init, limit), NextFit(files, names, limit);
      if |buckets| > |before| {
        assert buckets[..|buckets| - 1] == before;
      } else {
        assert buckets[..|buckets| - 1] == before[..|before| - 1];
      }
      assert names == init + [name];
    }
  }

  /** Every bucket is within the limit when every file is. */
  lemma {:induction false} NextFitWithinLimit(files: Files, names: seq<string>, limit: nat)
    requires forall n :: n in names ==> n in files && |files[n]| <= limit
    ensures forall b :: 0 <= b < |NextFit(files, names, limit)| ==> Size(files, NextFit(files, names, limit)[b]) <= limit
  {
    if names != [] {
      var init, name := names[..|names| - 1], names[|names| - 1];
      NextFitWithinLimit(files, init, limit);
      var before := NextFit(files, init, limit);
      SizeSnoc(files, before[|before| - 1], name);
      SizeSnoc(files, [], name);
      assert [] + [name] == [name];
    }
  }

  /** No bucket is empty unless there are no files. */
  lemma {:induction false} NextFitNonEmpty(files: Files, names: seq<string>, limit: nat)
    requires forall n :: n in names ==> n in files && |files[n]| <= limit
    ensures forall b :: 0 <= b < |NextFit(files, names, limit)| ==> (NextFit(files, names, limit)[b] == [] <==> names == [])
  {
    if names != [] {
      var init := names[..|names| - 1];
      NextFitNonEmpty(files, init, limit);
      var before, buckets := NextFit(files, init, limit), NextFit(files, names, limit);
      forall b | 0 <= b < |buckets| ensures buckets[b] != [] {
        if b == |buckets| - 1 {
          assert names[|names| - 1] in buckets[b];
        } else {
          assert init != [] && buckets[b] == before[b];
        }
      }
    }
  }

  /** A bucket and the first file of the next one do not fit together. */
  lemma {:induction false} NeighboursOverflow(files: Files, names: seq<string>, limit: nat, b: nat)
    requires forall n :: n in names ==> n in files
    requires 0 < b < |NextFit(files, names, limit)|
    ensures Size(files, NextFit(files, names, limit)[b - 1]) + Size(files, NextFit(files, names, limit)[b]) > limit
  {
    var init, name := names[..|names| - 1], names[|names| - 1];
    var before, buckets := NextFit(files, init, limit), NextFit(files, names, limit);
    var last := before[|before| - 1];
    if b == |before| {
      assert buckets[b] == [] + [name];
      SizeSnoc(files, [], name);
    } else {
      NeighboursOverflow(files, init, limit, b);
      SizeSnoc(files, last, name);
      assert Size(files, buckets[b]) >= Size(files, before[b]);
      assert buckets[b - 1] == before[b - 1];
    }
  }

  lemma {:induction false} OverflowAddsUp(files: Files, buckets: seq<seq<string>>, limit: nat)
    requires forall b, n :: 0 <= b < |buckets| && n in buckets[b] ==> n in files
    requires forall b :: 0 < b < |buckets| ==> Size(files, buckets[b - 1]) + Size(files, buckets[b]) > limit
    requires |buckets| >= 1
    ensures 2 * Total(files, buckets) >=
            (|buckets| - 1) * limit + (|buckets| - 1) + Size(files, buckets[|buckets| - 1]) + Size(files, buckets[0])
  {
    var k := |buckets|;
    var init := buckets[..k - 1];
    if k == 1 {
      assert Total(files, init) == 0;
    } else {
      assert init[k - 2] == buckets[k - 2] && init[0] == buckets[0];
      forall b | 0 < b < k - 1 ensures Size(files, init[b - 1]) + Size(files, init[b]) > limit {
        assert init[b - 1] == buckets[b - 1] && init[b] == buckets[b];
      }
      OverflowAddsUp(files, init, limit);
      OneMore(k - 2, limit);
      assert Total(files, buckets) == Total(files, init) + Size(files, buckets[k - 1]);
    }
  }

  lemma OneMore(k: nat, limit: nat)
    ensures (k + 1) * limit == k * limit + limit
  {
  }

  lemma {:induction false} TotalIsSize(files: Files, buckets: seq<seq<string>>)
    requires forall b, n :: 0 <= b < |buckets| && n in buckets[b] ==> n in files
    ensures forall n :: n in Flatten(buckets) ==> n in files
    ensures Total(files, buckets) == Size(files, Flatten(buckets))
  {
    if buckets != [] {
      TotalIsSize(files, buckets[..|buckets| - 1]);
      SizeConcat(files, Flatten(buckets[..|buckets| - 1]), buckets[|buckets| - 1]);
    }
  }

  /** Two or more buckets are on average more than half full. */
  lemma HalfFull(files: Files, names: seq<string>, limit: nat)
    requires forall n :: n in names ==> n in files && |files[n]| <= limit
    requires |NextFit(files, names, limit)| >= 2
    ensures 2 * Size(files, names) > (|NextFit(files, names, limit)| - 1) * limit
  {
    var buckets := NextFit(files, names, limit);
    forall b | 0 < b < |buckets| ensures Size(files, buckets[b - 1]) + Size(files, buckets[b]) > limit {
      NeighboursOverflow(files, names, limit, b);
    }
    OverflowAddsUp(files, buckets, limit);
    TotalIsSize(files, buckets);
    NextFitKeepsOrder(files, names, limit);
  }

  // ----- against any other packing -----

  /** Buckets within the limit that hold exactly the given files. */
  ghost predicate IsPacking(files: Files, names: seq<string>, limit: nat, buckets: seq<seq<string>>) {
    && (forall b, n :: 0 <= b < |buckets| && n in buckets[b] ==> n in files)
    && multiset(Flatten(buckets)) == multiset(names)
    && forall b :: 0 <= b < |buckets| ==> Size(files, buckets[b]) <= limit
  }

  lemma RemoveAt(names: seq<string>, i: nat)
    requires i < |names|
    ensures multiset(names[..i] + names[i + 1..]) == multiset(names) - multiset{names[i]}
    ensures forall n :: n in names[..i] + names[i + 1..] ==> n in names
  {
    assert names == names[..i] + [names[i]] + names[i + 1..];
  }

  lemma SizeRemoveAt(files: Files, names: seq<string>, i: nat)
    requires i < |names| && forall n :: n in names ==> n in files
    ensures Size(files, names) == Size(files, names[..i] + names[i + 1..]) + |files[names[i]]|
  {
    SizeConcat(files, names[..i], names[i + 1..]);
    assert names == (names[..i] + [names[i]]) + names[i + 1..];
    SizeConcat(files, names[..i] + [names[i]], names[i + 1..]);
    SizeSnoc(files, names[..i], names[i]);
  }

  /** The size of a list of files does not depend on their order. */
  lemma {:induction false} SizePermuted(files: Files, a: seq<string>, b: seq<string>)
    requires forall n :: n in a ==> n in files
    requires forall n :: n in b ==> n in files
    requires multiset(a) == multiset(b)
    ensures Size(files, a) == Size(files, b)
    decreases |a|
  {
    if a == [] {
      assert |multiset(b)| == 0;
    } else {
      SameMembers(a, b, a[0]);
      var i :| 0 <= i < |b| && b[i] == a[0];
      RemoveBoth(a, b, i);
      SizePermuted(files, a[1..], b[..i] + b[i + 1..]);
      SizeRemoveAt(files, a, 0);
      assert a[..0] + a[1..] == a[1..];
      SizeRemoveAt(files, b, i);
    }
  }

  lemma RemoveBoth(a: seq<string>, b: seq<string>, i: nat)
    requires a != [] && i < |b| && b[i] == a[0] && multiset(a) == multiset(b)
    ensures multiset(a[1..]) == multiset(b[..i] + b[i + 1..])
    ensures forall n :: n in a[1..] ==> n in a
    ensures forall n :: n in b[..i] + b[i + 1..] ==> n in b
  {
    assert a[..0] + a[1..] == a[1..];
    RemoveAt(a, 0);
    RemoveAt(b, i);
  }

  lemma {:induction false} TotalWithin(files: Files, buckets: seq<seq<string>>, limit: nat)
    requires forall b, n :: 0 <= b < |buckets| && n in buckets[b] ==> n in files
    requires forall b :: 0 <= b < |buckets| ==> Size(files, buckets[b]) <= limit
    ensures Total(files, buckets) <= |buckets| * limit
  {
    if buckets != [] {
      TotalWithin(files, buckets[..|buckets| - 1], limit);
      assert |buckets| * limit == (|buckets| - 1) * limit + limit;
    }
  }

  lemma Factor(k: nat, m: nat, limit: nat, total: nat)
    requires limit > 0 && 2 * total > (k - 1) * limit && total <= m * limit
    ensures k <= 2 * m
  {
    assert 2 * (m * limit) == 2 * m * limit;
    if k - 1 >= 2 * m {
      MultiplyBoth(2 * m, k - 1, limit);
    }
  }

  lemma MultiplyBoth(a: int, b: int, c: int)
    requires a <= b && c > 0
    ensures a * c <= b * c
  {
  }

  /** Next-fit uses at most twice as many ConfigMaps as any packing of the same files. */
  lemma AtMostTwiceOptimal(files: Files, names: seq<string>, limit: nat, other: seq<seq<string>>)
    requires limit > 0 && names != []
    requires forall n :: n in names ==> n in files && |files[n]| <= limit
    requires IsPacking(files, names, limit, other)
    ensures |NextFit(files, names, limit)| <= 2 * |other|
  {
    TotalWithin(files, other, limit);
    TotalIsSize(files, other);
    SizePermuted(files, names, Flatten(other));
    assert other != [] by {
      SameMembers(names, Flatten(other), names[0]);
    }
    if |NextFit(files, names, limit)| >= 2 {
      HalfFull(files, names, limit);
      Factor(|NextFit(files, names, limit)|, |other|, limit, Size(files, names));
    }
  }

  /** The packing itself is one, so the factor is against the best of them. */
  lemma NextFitIsPacking(files: Files, names: seq<string>, limit: nat)
    requires forall n :: n in names ==> n in files && |files[n]| <= limit
    ensures IsPacking(files, names, limit, NextFit(files, names, limit))
  {
    NextFitKeepsOrder(files, names, limit);
    NextFitWithinLimit(files, names, limit);
  }

  // ----- the loops -----

  /** The size of a set of files, in whatever order a loop meets them. */
  ghost function SizeOfSet(files: Files, names: set<string>): nat
    requires names <= files.Keys
  {
    if names == {} then 0
    else
      var n :| n in names;
      |files[n]| + SizeOfSet(files, names - {n})
  }

  lemma {:induction false} SizeOfSetMinus(files: Files, names: set<string>, n: string)
    requires names <= files.Keys && n in names
    ensures SizeOfSet(files, names) == |files[n]| + SizeOfSet(files, names - {n})
    decreases |names|
  {
    var m :| m in names && SizeOfSet(files, names) == |files[m]| + SizeOfSet(files, names - {m});
    if m != n {
      SizeOfSetMinus(files, names - {m}, n);
      SizeOfSetMinus(files, names - {n}, m);
      assert names - {m} - {n} == names - {n} - {m};
    }
  }

  method BucketSize(bucket: Files) returns (total: nat)
    ensures total == SizeOfSet(bucket, bucket.Keys)
  {
    total := 0;
    var rest := bucket.Keys;
    while rest != {}
      invariant rest <= bucket.Keys
      invariant total + SizeOfSet(bucket, rest) == SizeOfSet(bucket, bucket.Keys)
      decreases |rest|
    {
      var n :| n in rest;
      SizeOfSetMinus(bucket, rest, n);
      total := total + |bucket[n]|;
      rest := rest - {n};
    }
  }

  /** The bucket as the map that becomes the data of a ConfigMap. */
  function BucketOf(files: Files, names: seq<string>): Files
    requires forall n :: n in names ==> n in files
  {
    map n | n in names :: files[n]
  }

  lemma {:induction false} BucketSizeIsSize(files: Files, names: seq<string>)
    requires NoDup(names) && forall n :: n in names ==> n in files
    ensures SizeOfSet(BucketOf(files, names), BucketOf(files, names).Keys) == Size(files, names)
  {
    if names != [] {
      var init, name := names[..|names| - 1], names[|names| - 1];
      BucketSizeIsSize(files, init);
      var b, c := BucketOf(files, names), BucketOf(files, init);
      SizeOfSetMinus(b, b.Keys, name);
      assert name !in init;
      assert names == init + [name];
      assert b.Keys - {name} == c.Keys;
      SizeOfSameEntries(b, c, c.Keys);
    }
  }

  lemma {:induction false} SizeOfSameEntries(b: Files, c: Files, names: set<string>)
    requires names <= b.Keys && names <= c.Keys && forall n :: n in names ==> b[n] == c[n]
    ensures SizeOfSet(b, names) == SizeOfSet(c, names)
    decreases |names|
  {
    if names != {} {
      var n :| n in names;
      SizeOfSameEntries(b, c, names - {n});
      SizeOfSetMinus(b, names, n);
      SizeOfSetMinus(c, names, n);
    }
  }

  /** The file names in sorted order. */
  ghost predicate IsSortedKeys(files: Files, names: seq<string>) {
    IsSorted(names) && NoDup(names) && forall n :: n in names <==> n in files
  }

  /** There is only one sorted list of the file names, so the result does not depend on the
      order in which the map is walked. */
  lemma SortedKeysUnique(files: Files, a: seq<string>, b: seq<string>)
    requires IsSortedKeys(files, a) && IsSortedKeys(files, b)
    ensures a == b
  {
    MultisetOfKeys(files, a);
    MultisetOfKeys(files, b);
    SortedUnique(a, b);
  }

  lemma MultisetOfKeys(files: Files, a: seq<string>)
    requires NoDup(a) && forall n :: n in a <==> n in files
    ensures multiset(a) == multiset(files.Keys)
  {
    forall n ensures multiset(a)[n] == multiset(files.Keys)[n] {
      CountOnce(a, n);
    }
  }

  lemma {:induction false} CountOnce(a: seq<string>, n: string)
    requires NoDup(a)
    ensures multiset(a)[n] == if n in a then 1 else 0
  {
    if a != [] {
      CountOnce(a[1..], n);
      assert a == [a[0]] + a[1..];
      assert a[0] !in a[1..];
    }
  }

  method SortedKeys(files: Files) returns (names: seq<string>)
    ensures IsSortedKeys(files, names)
  {
    var listed: seq<string> := [];
    var rest := files.Keys;
    while rest != {}
      invariant rest <= files.Keys && NoDup(listed)
      invariant forall n :: n in listed <==> n in files && n !in rest
      decreases |rest|
    {
      var n :| n in rest;
      listed := listed + [n];
      rest := rest - {n};
    }
    names := Sort(listed);
    SortSorts(listed);
    forall n ensures n in names <==> n in listed {
      SameMembers(listed, names, n);
    }
    NoDupPermuted(listed, names);
  }

  lemma NoDupPermuted(a: seq<string>, b: seq<string>)
    requires NoDup(a) && multiset(a) == multiset(b)
    ensures NoDup(b)
  {
    forall i, j | 0 <= i < j < |b| ensures b[i] != b[j] {
      CountOnce(a, b[i]);
      assert b == b[..j] + [b[j]] + b[j + 1..];
      assert b[i] in b[..j];
    }
  }

  function Buckets(files: Files, names: seq<string>, limit: nat): (r: seq<Files>)
    requires forall n :: n in names ==> n in files
    ensures |r| == |NextFit(files, names, limit)|
    ensures forall b :: 0 <= b < |r| ==> r[b] == BucketOf(files, NextFit(files, names, limit)[b])
  {
    seq(|NextFit(files, names, limit)|,
        b requires 0 <= b < |NextFit(files, names, limit)| => BucketOf(files, NextFit(files, names, limit)[b]))
  }

  ghost predicate FitsSingly(files: Files, limit: nat) {
    forall n :: n in files ==> |files[n]| <= limit
  }

  /** The packing part of makeRulesConfigMaps: an error when some file is too large by itself,
      else the next-fit buckets of the sorted file names. */
  method PackFiles(files: Files, limit: nat) returns (buckets: Option<seq<Files>>)
    ensures buckets.Some? <==> FitsSingly(files, limit)
    ensures buckets.Some? ==>
              exists names :: IsSortedKeys(files, names) && buckets.value == Buckets(files, names, limit)
  {
    var unchecked := files.Keys;
    while unchecked != {}
      invariant unchecked <= files.Keys
      invariant forall n :: n in files && n !in unchecked ==> |files[n]| <= limit
      decreases |unchecked|
    {
      var n :| n in unchecked;
      if |files[n]| > limit {
        return None;
      }
      unchecked := unchecked - {n};
    }
    var names := SortedKeys(files);
    var packed := PackSorted(files, names, limit);
    return Some(packed);
  }

  /** Into the bucket in hand, or into a new one when it does not fit there. */
  method PlaceFile(files: Files, packed: seq<Files>, n: string, limit: nat) returns (r: seq<Files>)
    requires packed != [] && n in files
    ensures var last := packed[|packed| - 1];
      r == AddFile(files, packed, n, SizeOfSet(last, last.Keys) + |files[n]| <= limit)
  {
    r := packed;
    var current := BucketSize(r[|r| - 1]);
    if current + |files[n]| > limit {
      r := r + [map[]];
    }
    r := r[|r| - 1 := r[|r| - 1][n := files[n]]];
  }

  method PackSorted(files: Files, names: seq<string>, limit: nat) returns (packed: seq<Files>)
    requires NoDup(names) && forall n :: n in names ==> n in files
    ensures packed == Buckets(files, names, limit)
  {
    packed := [map[]];
    for i := 0 to |names|
      invariant packed == Buckets(files, names[..i], limit)
    {
      PackStep(files, names, i, limit);
      packed := PlaceFile(files, packed, names[i], limit);
    }
    assert names[..|names|] == names;
  }

  lemma NoDupLast(files: Files, names: seq<string>, limit: nat)
    requires NoDup(names) && forall n :: n in names ==> n in files
    ensures NoDup(NextFit(files, names, limit)[|NextFit(files, names, limit)| - 1])
  {
    NextFitKeepsOrder(files, names, limit);
    var buckets := NextFit(files, names, limit);
    var k := |buckets| - 1;
    var last := buckets[k];
    assert names == Flatten(buckets[..k]) + last;
    forall i, j | 0 <= i < j < |last| ensures last[i] != last[j] {
      var d := |Flatten(buckets[..k])|;
      assert names[d + i] == last[i] && names[d + j] == last[j];
    }
  }

  /** One turn of the packing loop on the buckets as maps. */
  function AddFile(files: Files, packed: seq<Files>, n: string, fits: bool): seq<Files>
    requires packed != [] && n in files
  {
    var grown := if fits then packed else packed + [map[]];
    grown[|grown| - 1 := grown[|grown| - 1][n := files[n]]]
  }

  lemma PackStep(files: Files, names: seq<string>, i: nat, limit: nat)
    requires NoDup(names) && i < |names| && forall n :: n in names ==> n in files
    ensures var packed := Buckets(files, names[..i], limit);
      var last := packed[|packed| - 1];
      Buckets(files, names[..i + 1], limit) ==
      AddFile(files, packed, names[i], SizeOfSet(last, last.Keys) + |files[names[i]]| <= limit)
  {
    var before, name := NextFit(files, names[..i], limit), names[i];
    var packed := Buckets(files, names[..i], limit);
    var last := before[|before| - 1];
    assert names[..i + 1][..i] == names[..i];
    NoDupLast(files, names[..i], limit);
    BucketSizeIsSize(files, last);
    BucketSnoc(files, last, name);
    BucketSnoc(files, [], name);
    assert [] + [name] == [name];
    var after := NextFit(files, names[..i + 1], limit);
    var fits := Size(files, last) + |files[name]| <= limit;
    var expected := AddFile(files, packed, name, fits);
    assert |expected| == |after|;
    forall b | 0 <= b < |after| ensures BucketOf(files, after[b]) == expected[b] {
      if b < |before| - 1 {
        assert after[b] == before[b] && expected[b] == packed[b];
      }
    }
    assert Buckets(files, names[..i + 1], limit) == expected;
  }

  lemma BucketSnoc(files: Files, names: seq<string>, n: string)
    requires forall m :: m in names + [n] ==> m in files
    ensures BucketOf(files, names + [n]) == BucketOf(files, names)[n := files[n]]
  {
  }
}
