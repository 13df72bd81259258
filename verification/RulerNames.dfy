/** The names of a ruler's ConfigMaps, StatefulSets and Services, and how the reconciler decides
    from a name alone that an object is its own. */
module RulerNames {
  import opened Text

  /** QualifiedName: the app name, the ruler's name and the suffixes, joined by dashes. */
  function Prefix(ruler: string): string { "ruler-" + ruler }

  function ConfigMapName(ruler: string, shard: nat, sn: nat): string {
    Prefix(ruler) + "-rulefiles-" + Itoa(shard) + "-" + Itoa(sn)
  }

  function StatefulSetName(ruler: string, shard: nat): string {
    Prefix(ruler) + "-" + Itoa(shard)
  }

  function ServiceName(ruler: string, shard: nat): string {
    Prefix(ruler) + "-" + Itoa(shard) + "-operated"
  }

  // ----- the decisions, as the code makes them -----

  function TrimPrefix(s: string, p: string): string {
    if p <= s then s[|p|..] else s
  }

  predicate HasSuffix(s: string, q: string) {
    |q| <= |s| && s[|s| - |q|..] == q
  }

  function TrimSuffix(s: string, q: string): string {
    if HasSuffix(s, q) then s[..|s| - |q|] else s
  }

  predicate ClaimsConfigMap(ruler: string, name: string) {
    var p := Prefix(ruler) + "-rulefiles-";
    && p <= name
    && var sns := Split(TrimPrefix(name, p), '-');
    |sns| == 2 && IsSequenceNumber(sns[0]) && IsSequenceNumber(sns[1])
  }

  predicate ClaimsStatefulSet(ruler: string, name: string) {
    var p := Prefix(ruler) + "-";
    p <= name && IsSequenceNumber(TrimPrefix(name, p))
  }

  predicate ClaimsService(ruler: string, name: string) {
    var p := Prefix(ruler) + "-";
    && p <= name && HasSuffix(name, "-operated")
    && IsSequenceNumber(TrimSuffix(TrimPrefix(name, p), "-operated"))
  }

  // ----- generated names are unambiguous -----

  lemma ConfigMapNameUnique(a: string, i: nat, j: nat, b: string, k: nat, l: nat)
    requires ConfigMapName(a, i, j) == ConfigMapName(b, k, l)
    ensures a == b && i == k && j == l
  {
    var pa, pb := Prefix(a) + "-rulefiles", Prefix(b) + "-rulefiles";
    assert ConfigMapName(a, i, j) == (pa + ['-'] + Itoa(i)) + ['-'] + Itoa(j);
    assert ConfigMapName(b, k, l) == (pb + ['-'] + Itoa(k)) + ['-'] + Itoa(l);
    NoDash(i); NoDash(j); NoDash(k); NoDash(l);
    LastCutUnique(pa + ['-'] + Itoa(i), Itoa(j), pb + ['-'] + Itoa(k), Itoa(l), '-');
    LastCutUnique(pa, Itoa(i), pb, Itoa(k), '-');
    assert a == pa[6..|pa| - 10] && b == pb[6..|pb| - 10];
    ItoaInjective(i, k);
    ItoaInjective(j, l);
  }

  lemma NoDash(n: nat)
    ensures '-' !in Itoa(n)
  {
    ItoaHasNo(n, '-');
  }

  lemma StatefulSetNameUnique(a: string, i: nat, b: string, k: nat)
    requires StatefulSetName(a, i) == StatefulSetName(b, k)
    ensures a == b && i == k
  {
    assert StatefulSetName(a, i) == Prefix(a) + ['-'] + Itoa(i);
    assert StatefulSetName(b, k) == Prefix(b) + ['-'] + Itoa(k);
    NoDash(i); NoDash(k);
    LastCutUnique(Prefix(a), Itoa(i), Prefix(b), Itoa(k), '-');
    assert a == Prefix(a)[6..] && b == Prefix(b)[6..];
    ItoaInjective(i, k);
  }

  lemma ServiceNameUnique(a: string, i: nat, b: string, k: nat)
    requires ServiceName(a, i) == ServiceName(b, k)
    ensures a == b && i == k
  {
    var sa, sb := StatefulSetName(a, i), StatefulSetName(b, k);
    assert ServiceName(a, i)[..|sa|] == sa && ServiceName(b, k)[..|sb|] == sb;
    assert |sa| == |sb|;
    StatefulSetNameUnique(a, i, b, k);
  }

  // ----- what the decisions accept -----

  lemma PrefixCut(s: string, p: string)
    requires p <= s
    ensures s == p + TrimPrefix(s, p)
  {
  }

  /** A ruler claims exactly the ConfigMap names it generates, for some shard and number. */
  lemma ClaimedConfigMaps(ruler: string, name: string)
    ensures ClaimsConfigMap(ruler, name) <==> exists i: nat, j: nat :: name == ConfigMapName(ruler, i, j)
  {
    if ClaimsConfigMap(ruler, name) {
      var i, j := ClaimedIsNamed(ruler, name);
    }
    if i: nat, j: nat :| name == ConfigMapName(ruler, i, j) {
      NamedIsClaimed(ruler, i, j);
    }
  }

  lemma NumberOf(text: string) returns (i: nat)
    requires IsSequenceNumber(text)
    ensures text == Itoa(i)
  {
    SequenceNumberIsPrinted(text);
    i := Value(text);
  }

  lemma ClaimedIsNamed(ruler: string, name: string) returns (i: nat, j: nat)
    requires ClaimsConfigMap(ruler, name)
    ensures name == ConfigMapName(ruler, i, j)
  {
    var p := Prefix(ruler) + "-rulefiles-";
    var suffix := TrimPrefix(name, p);
    var sns := Split(suffix, '-');
    PrefixCut(name, p);
    TwoParts(suffix, '-');
    i := NumberOf(sns[0]);
    j := NumberOf(sns[1]);
    assert name == p + (Itoa(i) + ['-'] + Itoa(j));
  }

  lemma NamedIsClaimed(ruler: string, i: nat, j: nat)
    ensures ClaimsConfigMap(ruler, ConfigMapName(ruler, i, j))
  {
    var p := Prefix(ruler) + "-rulefiles-";
    var suffix := Itoa(i) + ['-'] + Itoa(j);
    assert ConfigMapName(ruler, i, j) == p + suffix;
    assert TrimPrefix(p + suffix, p) == suffix;
    NoDash(i); NoDash(j);
    SplitAtFirst(Itoa(i), Itoa(j), '-');
    SplitWhole(Itoa(j), '-');
    ItoaReadsBack(i);
    ItoaReadsBack(j);
  }

  lemma ClaimedStatefulSets(ruler: string, name: string)
    ensures ClaimsStatefulSet(ruler, name) <==> exists i: nat :: name == StatefulSetName(ruler, i)
  {
    var p := Prefix(ruler) + "-";
    if ClaimsStatefulSet(ruler, name) {
      PrefixCut(name, p);
      SequenceNumberIsPrinted(TrimPrefix(name, p));
      assert name == StatefulSetName(ruler, Value(TrimPrefix(name, p)));
    }
    if i: nat :| name == StatefulSetName(ruler, i) {
      assert TrimPrefix(name, p) == Itoa(i);
      ItoaReadsBack(i);
    }
  }

  /** Cutting a suffix off leaves a number only if the suffix was there: a text that ends in a
      letter is no number. */
  lemma TrimmedToNumber(rest: string, q: string)
    requires rest != "" && !IsDigit(rest[|rest| - 1])
    requires IsSequenceNumber(TrimSuffix(rest, q))
    ensures HasSuffix(rest, q) && rest == TrimSuffix(rest, q) + q
  {
    SequenceNumberDigits(TrimSuffix(rest, q));
  }

  /** A name with a letter at its end leaves a rest with that letter, or no rest at all. */
  lemma RestKeepsEnd(name: string, p: string)
    requires p < name
    ensures TrimPrefix(name, p) != "" && TrimPrefix(name, p)[|name| - |p| - 1] == name[|name| - 1]
  {
  }

  lemma ServiceNumber(ruler: string, name: string)
    requires ClaimsService(ruler, name)
    ensures var sn := TrimSuffix(TrimPrefix(name, Prefix(ruler) + "-"), "-operated");
      AllDigits(sn) && name == ServiceName(ruler, Value(sn))
  {
    var p, q := Prefix(ruler) + "-", "-operated";
    var rest := TrimPrefix(name, p);
    var sn := TrimSuffix(rest, q);
    PrefixCut(name, p);
    SequenceNumberIsPrinted(sn);
    SequenceNumberDigits(sn);
    assert rest != "";
    RestKeepsEnd(name, p);
    assert name[|name| - 1] == q[|q| - 1];
    TrimmedToNumber(rest, q);
    assert name == p + (Itoa(Value(sn)) + q);
    assert name == Prefix(ruler) + "-" + Itoa(Value(sn)) + q;
  }

  /** For Services the prefix and the suffix may overlap in a short name; such a name is not
      claimed, because what remains is not a number. */
  lemma ClaimedServices(ruler: string, name: string)
    ensures ClaimsService(ruler, name) <==> exists i: nat :: name == ServiceName(ruler, i)
  {
    var p, q := Prefix(ruler) + "-", "-operated";
    if ClaimsService(ruler, name) {
      ServiceNumber(ruler, name);
    }
    if i: nat :| name == ServiceName(ruler, i) {
      assert name == p + (Itoa(i) + q);
      assert TrimPrefix(name, p) == Itoa(i) + q;
      assert TrimSuffix(Itoa(i) + q, q) == Itoa(i);
      ItoaReadsBack(i);
      assert name[|name| - |q|..] == q;
    }
  }

  /** An object generated for ruler b is claimed by ruler a exactly when they are the same. */
  lemma ClaimsOnlyOwn(a: string, b: string, i: nat, j: nat)
    ensures ClaimsConfigMap(a, ConfigMapName(b, i, j)) <==> a == b
    ensures ClaimsStatefulSet(a, StatefulSetName(b, i)) <==> a == b
    ensures ClaimsService(a, ServiceName(b, i)) <==> a == b
  {
    ClaimedConfigMaps(a, ConfigMapName(b, i, j));
    ClaimedStatefulSets(a, StatefulSetName(b, i));
    ClaimedServices(a, ServiceName(b, i));
    if k: nat, l: nat :| ConfigMapName(b, i, j) == ConfigMapName(a, k, l) {
      ConfigMapNameUnique(b, i, j, a, k, l);
    }
    if k: nat :| StatefulSetName(b, i) == StatefulSetName(a, k) {
      StatefulSetNameUnique(b, i, a, k);
    }
    if k: nat :| ServiceName(b, i) == ServiceName(a, k) {
      ServiceNameUnique(b, i, a, k);
    }
  }

  /** The names of the objects, written out. */
  lemma NamesAre(ruler: string, shard: nat, sn: nat)
    ensures ConfigMapName(ruler, shard, sn) == "ruler-" + ruler + "-rulefiles-" + Itoa(shard) + "-" + Itoa(sn)
    ensures StatefulSetName(ruler, shard) == "ruler-" + ruler + "-" + Itoa(shard)
    ensures ServiceName(ruler, shard) == "ruler-" + ruler + "-" + Itoa(shard) + "-operated"
  {
  }
}
