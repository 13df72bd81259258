/** The relabel expression that makes a compactor keep the blocks of its own tenants. */
module KeepRegex {
  import opened Text
  import opened Cluster
  import C = Compaction
  import opened CompactionSafety

  function Anchored(x: string): string { "^" + x + "$" }

  function AllAnchored(tenants: seq<string>): seq<string> {
    if tenants == [] then [] else AllAnchored(tenants[..|tenants| - 1]) + [Anchored(tenants[|tenants| - 1])]
  }

  /** A character that stands for itself in an expression. */
  predicate IsPlainChar(c: char) {
    'a' <= c <= 'z' || 'A' <= c <= 'Z' || '0' <= c <= '9' || c == '-'
  }

  predicate IsPlain(x: string) { forall i :: 0 <= i < |x| ==> IsPlainChar(x[i]) }

  // ----- matching -----

  /** The alternative at the beginning of e, read up to its bar or to the end of e, takes v from
      position p to its end: '^' stands for the beginning of v, '$' for its end, any other
      character for itself. Relabelling matches the whole value. */
  predicate Takes(e: string, v: string, p: nat)
    requires p <= |v|
  {
    if e == "" || e[0] == '|' then p == |v|
    else if e[0] == '^' then p == 0 && Takes(e[1..], v, p)
    else if e[0] == '$' then p == |v| && Takes(e[1..], v, p)
    else p < |v| && v[p] == e[0] && Takes(e[1..], v, p + 1)
  }

  /** Some alternative of the expression takes the whole value. */
  predicate Matches(regex: string, v: string) {
    Takes(regex, v, 0) || exists i :: 0 <= i < |regex| && regex[i] == '|' && Takes(regex[i + 1..], v, 0)
  }

  /** Plain characters take themselves. */
  lemma {:induction false} PlainTakes(x: string, rest: string, v: string, p: nat)
    requires IsPlain(x) && p <= |v|
    ensures Takes(x + rest, v, p) <==> p + |x| <= |v| && v[p..p + |x|] == x && Takes(rest, v, p + |x|)
  {
    if x == "" {
      assert x + rest == rest;
    } else {
      assert (x + rest)[1..] == x[1..] + rest && IsPlainChar(x[0]);
      if p < |v| {
        PlainTakes(x[1..], rest, v, p + 1);
        if p + |x| <= |v| {
          assert v[p..p + |x|] == [v[p]] + v[p + 1..p + 1 + |x[1..]|];
          assert x == [x[0]] + x[1..];
        }
      }
    }
  }

  predicate EndsHere(rest: string) { rest == "" || rest[0] == '|' }

  /** An anchored plain name takes exactly that name. */
  lemma AnchoredTakes(x: string, rest: string, v: string)
    requires IsPlain(x) && EndsHere(rest)
    ensures Takes(Anchored(x) + rest, v, 0) <==> v == x
  {
    var tail := "$" + rest;
    assert Anchored(x) + rest == "^" + (x + tail);
    assert ("^" + (x + tail))[1..] == x + tail;
    assert tail[1..] == rest;
    PlainTakes(x, tail, v, 0);
    if |x| <= |v| {
      assert Takes(tail, v, |x|) <==> |x| == |v|;
    }
    if |x| == |v| {
      assert v[0..|x|] == v;
    }
  }

  /** The alternatives after a first one without a bar are matched one by one. */
  lemma MatchesFirst(a: string, rest: string, v: string)
    requires '|' !in a
    ensures Matches(a + ['|'] + rest, v) <==> Takes(a + ['|'] + rest, v, 0) || Matches(rest, v)
  {
    var e := a + ['|'] + rest;
    if i :| 0 <= i < |rest| && rest[i] == '|' && Takes(rest[i + 1..], v, 0) {
      BarBehind(a, rest, i);
    }
    assert e[|a|] == '|' && e[|a| + 1..] == rest;
    if i :| 0 <= i < |e| && e[i] == '|' && Takes(e[i + 1..], v, 0) {
      BarBefore(a, rest, i);
    }
  }

  lemma BarBehind(a: string, rest: string, i: nat)
    requires i < |rest|
    ensures var e, j := a + ['|'] + rest, |a| + 1 + i; e[j] == rest[i] && e[j + 1..] == rest[i + 1..]
  {
  }

  /** A bar of the whole is the one behind a, or a bar of the rest. */
  lemma BarBefore(a: string, rest: string, i: nat)
    requires '|' !in a && i < |a + ['|'] + rest| && (a + ['|'] + rest)[i] == '|'
    ensures i >= |a|
    ensures i > |a| ==> var j := i - |a| - 1; rest[j] == '|' && rest[j + 1..] == (a + ['|'] + rest)[i + 1..]
  {
    forall j | 0 <= j < |a| ensures (a + ['|'] + rest)[j] != '|' {
      assert (a + ['|'] + rest)[j] == a[j];
    }
  }

  lemma MatchesOnly(a: string, v: string)
    requires '|' !in a
    ensures Matches(a, v) <==> Takes(a, v, 0)
  {
  }

  lemma {:induction false} AllAnchoredIs(tenants: seq<string>)
    ensures |AllAnchored(tenants)| == |tenants|
    ensures forall i :: 0 <= i < |tenants| ==> AllAnchored(tenants)[i] == Anchored(tenants[i])
  {
    if tenants != [] {
      AllAnchoredIs(tenants[..|tenants| - 1]);
    }
  }

  lemma {:induction false} JoinSnoc(parts: seq<string>, x: string, sep: char)
    requires parts != []
    ensures Join(parts + [x], sep) == Join(parts, sep) + [sep] + x
  {
    assert (parts + [x])[1..] == parts[1..] + [x];
    if |parts| == 1 {
      assert parts[1..] + [x] == [x];
    } else {
      JoinSnoc(parts[1..], x, sep);
    }
  }

  /** The loop of createRelabelConfig: every tenant adds an alternative, the first bar goes. */
  method KeepExpression(tenants: seq<string>) returns (regex: string)
    ensures regex == Join(AllAnchored(tenants), '|')
  {
    regex := "";
    for i := 0 to |tenants|
      invariant regex == if i == 0 then "" else "|" + Join(AllAnchored(tenants[..i]), '|')
    {
      assert tenants[..i + 1][..i] == tenants[..i];
      assert AllAnchored(tenants[..i + 1]) == AllAnchored(tenants[..i]) + [Anchored(tenants[i])];
      if i > 0 {
        JoinSnoc(AllAnchored(tenants[..i]), Anchored(tenants[i]), '|');
      } else {
        assert AllAnchored(tenants[..1]) == [Anchored(tenants[0])];
      }
      regex := regex + "|^" + tenants[i] + "$";
    }
    assert tenants[..|tenants|] == tenants;
    if |regex| > 0 && regex[0] == '|' {
      regex := regex[1..];
    }
  }

  lemma AnchoredHasNoBar(x: string)
    requires IsPlain(x)
    ensures '|' !in Anchored(x)
  {
  }

  /** A non-empty list of plain names keeps exactly its own names. */
  lemma {:induction false} KeepsExactlyListed(tenants: seq<string>, v: string)
    requires tenants != [] && forall x :: x in tenants ==> IsPlain(x)
    ensures Matches(Join(AllAnchored(tenants), '|'), v) <==> v in tenants
  {
    var x, more := tenants[0], tenants[1..];
    assert tenants == [x] + more;
    ExpressionOf(x, more);
    if more == [] {
      AnchoredTakes(x, "", v);
      assert Anchored(x) + "" == Anchored(x);
      AnchoredHasNoBar(x);
      MatchesOnly(Anchored(x), v);
    } else {
      FirstTaken(x, Join(AllAnchored(more), '|'), v);
      KeepsExactlyListed(more, v);
    }
  }

  lemma FirstTaken(x: string, rest: string, v: string)
    requires IsPlain(x)
    ensures Matches(Anchored(x) + ['|'] + rest, v) <==> v == x || Matches(rest, v)
  {
    AnchoredHasNoBar(x);
    assert Anchored(x) + ['|'] + rest == Anchored(x) + (['|'] + rest);
    AnchoredTakes(x, ['|'] + rest, v);
    MatchesFirst(Anchored(x), rest, v);
  }

  lemma ExpressionOf(x: string, more: seq<string>)
    ensures Join(AllAnchored([x] + more), '|') ==
      if more == [] then Anchored(x) else Anchored(x) + ['|'] + Join(AllAnchored(more), '|')
  {
    AllAnchoredIs([x] + more);
    AllAnchoredIs(more);
    assert AllAnchored([x] + more) == [Anchored(x)] + AllAnchored(more);
    if more != [] {
      JoinCons(Anchored(x), AllAnchored(more), '|');
    }
  }

  /** With no tenants the expression is empty and keeps only blocks without a tenant. */
  lemma EmptyListKeepsUnlabelled(v: string)
    ensures Matches(Join(AllAnchored([]), '|'), v) <==> v == ""
  {
  }

  /** No block is kept by two compactors of a group, in any state of any run that leaves
      exclusiveness alone: two of them that match a block's tenant label are the same. */
  lemma BlockKeptOnce(run: seq<C.Compactors>, acts: seq<C.Action>, exclusive: string -> bool, n: nat,
                      g: Group, k: Key, l: Key, v: string)
    requires C.IsRun(run, acts) && n < |run|
    requires forall i :: 0 <= i < |acts| ==> C.KeepsExclusive(acts[i], exclusive)
    requires k in C.Members(run[n], g) && forall x :: x in run[n].compactors[k].tenants ==> IsPlain(x)
    requires l in C.Members(run[n], g) && forall x :: x in run[n].compactors[l].tenants ==> IsPlain(x)
    requires Matches(Join(AllAnchored(run[n].compactors[k].tenants), '|'), v)
    requires Matches(Join(AllAnchored(run[n].compactors[l].tenants), '|'), v)
    ensures k == l
  {
    C.RunsKeepUnique(run, acts, exclusive, n);
    RunsKeepNonEmpty(run, acts, n);
    KeepsExactlyListed(run[n].compactors[k].tenants, v);
    KeepsExactlyListed(run[n].compactors[l].tenants, v);
    assert k in C.Holders(run[n], g, v) && l in C.Holders(run[n], g, v);
  }
}
