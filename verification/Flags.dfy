/** The command line of a component: user flags merged into the default arguments, then sorted. */
module Flags {
  import opened Text

  /** What the user may not set, and what may be set repeatedly: names of arguments. */
  datatype Rules = Rules(unsupported: seq<string>, repeatable: seq<string>) {
    predicate Appends(n: string) { n !in unsupported && n in repeatable }
    predicate Replaces(n: string) { n !in unsupported && n !in repeatable }
  }

  /** GetArgName: what stands before the first '='. */
  function GetArgName(s: string): string { Split(s, '=')[0] }

  /** "name" and "name=value" have that name, whatever the value. */
  lemma ArgNameOf(n: string, value: string)
    requires '=' !in n
    ensures GetArgName(n) == n && GetArgName(n + ['='] + value) == n
  {
    SplitWhole(n, '=');
    SplitAtFirst(n, value, '=');
  }

  /** Every argument is one or the other. */
  lemma {:induction false} NameBegins(s: string)
    ensures var n := GetArgName(s); '=' !in n && n <= s && (|n| < |s| ==> s[|n|] == '=')
  {
    if s != "" && s[0] != '=' {
      NameBegins(s[1..]);
      assert GetArgName(s) == [s[0]] + GetArgName(s[1..]);
      assert s == [s[0]] + s[1..];
    }
  }

  /** An argument starts with two dashes exactly when its name does. */
  lemma DashedName(s: string)
    ensures "--" <= s <==> "--" <= GetArgName(s)
  {
    NameBegins(s);
    var n := GetArgName(s);
    if "--" <= n {
      assert s[..2] == n[..2];
    }
    if "--" <= s {
      assert s[0] == '-' && s[1] == '-';
      assert |n| >= 2;
      assert n[..2] == s[..2];
    }
  }

  /** The arguments with a name, in order. */
  function OfName(args: seq<string>, n: string): seq<string> {
    if args == [] then []
    else (if GetArgName(args[0]) == n then [args[0]] else []) + OfName(args[1..], n)
  }

  lemma {:induction false} OfNameConcat(a: seq<string>, b: seq<string>, n: string)
    ensures OfName(a + b, n) == OfName(a, n) + OfName(b, n)
  {
    if a == [] {
      assert a + b == b;
    } else {
      assert (a + b)[1..] == a[1..] + b;
      OfNameConcat(a[1..], b, n);
    }
  }

  lemma OfNameSnoc(a: seq<string>, x: string, n: string)
    ensures OfName(a + [x], n) == OfName(a, n) + if GetArgName(x) == n then [x] else []
  {
    OfNameConcat(a, [x], n);
    assert OfName([x][1..], n) == [];
  }

  lemma {:induction false} OfNameCounts(s: seq<string>, n: string, x: string)
    ensures multiset(OfName(s, n))[x] == if GetArgName(x) == n then multiset(s)[x] else 0
  {
    if s != [] {
      OfNameCounts(s[1..], n, x);
      assert s == [s[0]] + s[1..];
    }
  }

  /** Two lists hold the same arguments exactly when they do so name by name. */
  lemma SameBagOfName(a: seq<string>, b: seq<string>, n: string)
    requires multiset(a) == multiset(b)
    ensures multiset(OfName(a, n)) == multiset(OfName(b, n))
  {
    forall x: string ensures multiset(OfName(a, n))[x] == multiset(OfName(b, n))[x] {
      OfNameCounts(a, n, x);
      OfNameCounts(b, n, x);
    }
  }

  lemma SameBags(a: seq<string>, b: seq<string>)
    requires forall n :: multiset(OfName(a, n)) == multiset(OfName(b, n))
    ensures multiset(a) == multiset(b)
  {
    forall x: string ensures multiset(a)[x] == multiset(b)[x] {
      var n := GetArgName(x);
      assert multiset(OfName(a, n)) == multiset(OfName(b, n));
      OfNameCounts(a, n, x);
      OfNameCounts(b, n, x);
    }
  }

  // ----- the specification of the loop -----

  predicate HasName(args: seq<string>, n: string) { exists i :: 0 <= i < |args| && GetArgName(args[i]) == n }

  /** The first argument of the flag's name replaced by the flag. */
  function Replaced(args: seq<string>, flag: string): seq<string> {
    if args == [] then []
    else if GetArgName(args[0]) == GetArgName(flag) then [flag] + args[1..]
    else [args[0]] + Replaced(args[1..], flag)
  }

  function Step(args: seq<string>, flag: string, rules: Rules): seq<string> {
    var n := GetArgName(flag);
    if n in rules.unsupported then args
    else if n in rules.repeatable || !HasName(args, n) then args + [flag]
    else Replaced(args, flag)
  }

  function Merge(args: seq<string>, flags: seq<string>, rules: Rules): seq<string> {
    if flags == [] then args
    else Step(Merge(args, flags[..|flags| - 1], rules), flags[|flags| - 1], rules)
  }

  function MergedArgs(args: seq<string>, flags: seq<string>, rules: Rules): seq<string>
    requires args != []
  {
    var merged := Merge(args, flags, rules);
    assert merged != [] by { MergeHead(args, flags, rules); }
    [merged[0]] + Sort(merged[1..])
  }

  // ----- the loop itself -----

  class Container {
    var args: seq<string>

    constructor (args: seq<string>)
      ensures this.args == args
    {
      this.args := args;
    }

    method Contains(list: seq<string>, key: string) returns (found: bool)
      ensures found <==> key in list
    {
      for i := 0 to |list|
        invariant key !in list[..i]
      {
        if list[i] == key {
          return true;
        }
      }
      found := false;
    }

    method ReplaceInSlice(flag: string) returns (replaced: bool)
      modifies this
      ensures replaced <==> HasName(old(args), GetArgName(flag))
      ensures args == if replaced then Replaced(old(args), flag) else old(args)
    {
      for i := 0 to |args|
        invariant args == old(args)
        invariant forall j :: 0 <= j < i ==> GetArgName(args[j]) != GetArgName(flag)
      {
        if GetArgName(args[i]) == GetArgName(flag) {
          ReplacedAt(args, flag, i);
          args := args[i := flag];
          return true;
        }
      }
      replaced := false;
    }

    method MergeFlags(flags: seq<string>, rules: Rules)
      requires args != []
      modifies this
      ensures args == MergedArgs(old(args), flags, rules)
    {
      for i := 0 to |flags|
        invariant args == Merge(old(args), flags[..i], rules)
      {
        assert flags[..i + 1][..i] == flags[..i];
        var flag := flags[i];
        var unsupported := Contains(rules.unsupported, GetArgName(flag));
        if unsupported {
          continue;
        }
        var repeatable := Contains(rules.repeatable, GetArgName(flag));
        if repeatable {
          args := args + [flag];
          continue;
        }
        var replaced := ReplaceInSlice(flag);
        if !replaced {
          args := args + [flag];
        }
      }
      assert flags[..|flags|] == flags;
      MergeHead(old(args), flags, rules);
      args := [args[0]] + Sort(args[1..]);
    }
  }

  lemma {:induction false} ReplacedAt(args: seq<string>, flag: string, i: nat)
    requires i < |args| && GetArgName(args[i]) == GetArgName(flag)
    requires forall j :: 0 <= j < i ==> GetArgName(args[j]) != GetArgName(flag)
    ensures Replaced(args, flag) == args[i := flag]
  {
    if i > 0 {
      forall j | 0 <= j < i - 1 ensures GetArgName(args[1..][j]) != GetArgName(flag) {
        assert args[1..][j] == args[j + 1];
      }
      ReplacedAt(args[1..], flag, i - 1);
    }
  }

  // ----- what the merge does to the arguments of one name -----

  /** A default list of one name after the user's flags of that name. */
  function Expected(defaults: seq<string>, flags: seq<string>, n: string, rules: Rules): seq<string> {
    if flags == [] || n in rules.unsupported then defaults
    else if n in rules.repeatable then defaults + flags
    else [flags[|flags| - 1]] + Rest(defaults)
  }

  function Rest(s: seq<string>): seq<string> { if s == [] then [] else s[1..] }

  lemma {:induction false} HasNameIff(args: seq<string>, n: string)
    ensures HasName(args, n) <==> OfName(args, n) != []
  {
    if args != [] {
      HasNameIff(args[1..], n);
      if HasName(args[1..], n) {
        var i :| 0 <= i < |args[1..]| && GetArgName(args[1..][i]) == n;
        assert GetArgName(args[i + 1]) == n;
      }
      if HasName(args, n) && GetArgName(args[0]) != n {
        var i :| 0 <= i < |args| && GetArgName(args[i]) == n;
        assert args[1..][i - 1] == args[i];
      }
    }
  }

  lemma {:induction false} ReplacedByName(args: seq<string>, flag: string, n: string)
    requires HasName(args, GetArgName(flag))
    ensures OfName(Replaced(args, flag), n) ==
      if GetArgName(flag) == n then [flag] + Rest(OfName(args, n)) else OfName(args, n)
  {
    var rest := args[1..];
    assert args == [args[0]] + rest;
    OfNameCons(args[0], rest, n);
    if GetArgName(args[0]) == GetArgName(flag) {
      OfNameCons(flag, rest, n);
    } else {
      HasNameIff(args, GetArgName(flag));
      HasNameIff(rest, GetArgName(flag));
      ReplacedByName(rest, flag, n);
      OfNameCons(args[0], Replaced(rest, flag), n);
    }
  }

  lemma OfNameCons(x: string, rest: seq<string>, n: string)
    ensures OfName([x] + rest, n) == (if GetArgName(x) == n then [x] else []) + OfName(rest, n)
  {
    assert ([x] + rest)[1..] == rest;
  }

  lemma StepByName(args: seq<string>, flag: string, n: string, rules: Rules)
    ensures OfName(Step(args, flag, rules), n) ==
      Expected(OfName(args, n), if GetArgName(flag) == n then [flag] else [], n, rules)
  {
    OfNameSnoc(args, flag, n);
    HasNameIff(args, GetArgName(flag));
    if HasName(args, GetArgName(flag)) {
      ReplacedByName(args, flag, n);
    }
  }

  /** Name by name, the merge appends repeatable flags and otherwise lets the last flag win. */
  lemma {:induction false} MergeByName(args: seq<string>, flags: seq<string>, n: string, rules: Rules)
    ensures OfName(Merge(args, flags, rules), n) == Expected(OfName(args, n), OfName(flags, n), n, rules)
  {
    if flags != [] {
      var before, flag := flags[..|flags| - 1], flags[|flags| - 1];
      assert flags == before + [flag];
      var own := if GetArgName(flag) == n then [flag] else [];
      MergeByName(args, before, n, rules);
      StepByName(Merge(args, before, rules), flag, n, rules);
      OfNameSnoc(before, flag, n);
      ExpectedTwice(OfName(args, n), OfName(before, n), own, n, rules);
    }
  }

  lemma ExpectedTwice(defaults: seq<string>, f: seq<string>, g: seq<string>, n: string, rules: Rules)
    requires |g| <= 1
    ensures Expected(Expected(defaults, f, n, rules), g, n, rules) == Expected(defaults, f + g, n, rules)
  {
    if g == [] {
      assert f + g == f;
    }
  }

  function Last(flags: seq<string>, n: string, fallback: string): string {
    var own := OfName(flags, n);
    if own == [] then fallback else own[|own| - 1]
  }

  /** The first argument after the merge. */
  function Head(first: string, flags: seq<string>, rules: Rules): string {
    if rules.Replaces(GetArgName(first)) then Last(flags, GetArgName(first), first) else first
  }

  lemma {:induction false} OfNameHasName(args: seq<string>, n: string)
    ensures forall x :: x in OfName(args, n) ==> GetArgName(x) == n && x in args
  {
    if args != [] {
      OfNameHasName(args[1..], n);
    }
  }

  lemma {:induction false} MergeHead(args: seq<string>, flags: seq<string>, rules: Rules)
    requires args != []
    ensures Merge(args, flags, rules) != [] && Merge(args, flags, rules)[0] == Head(args[0], flags, rules)
  {
    if flags != [] {
      var before, flag := flags[..|flags| - 1], flags[|flags| - 1];
      assert flags == before + [flag];
      MergeHead(args, before, rules);
      OfNameSnoc(before, flag, GetArgName(args[0]));
      OfNameHasName(before, GetArgName(args[0]));
      var merged := Merge(args, before, rules);
      assert GetArgName(merged[0]) == GetArgName(args[0]);
    }
  }

  // ----- main results -----

  /** The result: first argument in place, the others sorted, and for each name the defaults
      with the user's flags of that name put in. */
  lemma MergedByName(args: seq<string>, flags: seq<string>, rules: Rules)
    requires args != []
    ensures var r := MergedArgs(args, flags, rules);
      && r[0] == Head(args[0], flags, rules)
      && IsSorted(r[1..])
      && forall n :: multiset(OfName(r, n)) == multiset(Expected(OfName(args, n), OfName(flags, n), n, rules))
  {
    var merged := Merge(args, flags, rules);
    MergeHead(args, flags, rules);
    SortSorts(merged[1..]);
    var r := MergedArgs(args, flags, rules);
    assert r[1..] == Sort(merged[1..]);
    assert r == [r[0]] + r[1..] && merged == [merged[0]] + merged[1..];
    assert multiset(r) == multiset(merged);
    forall n ensures multiset(OfName(r, n)) == multiset(Expected(OfName(args, n), OfName(flags, n), n, rules)) {
      SameBagOfName(r, merged, n);
      MergeByName(args, flags, n, rules);
    }
  }

  /** Each name that flags replace has one default at most. */
  predicate DistinctDefaults(args: seq<string>, rules: Rules) {
    forall i, j :: 0 <= i < j < |args| && rules.Replaces(GetArgName(args[i])) ==> GetArgName(args[i]) != GetArgName(args[j])
  }

  lemma {:induction false} DistinctGivesOne(args: seq<string>, n: string, rules: Rules)
    requires DistinctDefaults(args, rules) && rules.Replaces(n)
    ensures |OfName(args, n)| <= 1
  {
    if args != [] {
      assert DistinctDefaults(args[1..], rules) by {
        forall i, j | 0 <= i < j < |args[1..]| && rules.Replaces(GetArgName(args[1..][i]))
          ensures GetArgName(args[1..][i]) != GetArgName(args[1..][j])
        {
          assert args[1..][i] == args[i + 1] && args[1..][j] == args[j + 1];
        }
      }
      DistinctGivesOne(args[1..], n, rules);
      HasNameIff(args[1..], n);
      if GetArgName(args[0]) == n {
        forall i | 0 <= i < |args[1..]| ensures GetArgName(args[1..][i]) != n {
          assert args[1..][i] == args[i + 1];
        }
        assert !HasName(args[1..], n);
      }
    }
  }

  lemma SingleBag(s: seq<string>, t: seq<string>)
    requires multiset(s) == multiset(t) && |t| <= 1
    ensures s == t
  {
    assert |s| == |multiset(s)| == |multiset(t)| == |t|;
    if |t| == 1 {
      assert t[0] in multiset(s);
    }
  }

  /** With distinct defaults the result is a last-wins map: a replaceable name occurs at most once,
      with the last user flag or else the default; repeatable flags keep their multiplicity; an
      unsupported name keeps the defaults and nothing else. */
  lemma LastWins(args: seq<string>, flags: seq<string>, rules: Rules, n: string)
    requires args != [] && DistinctDefaults(args, rules)
    ensures var own := OfName(MergedArgs(args, flags, rules), n);
      && (rules.Replaces(n) ==> own == if OfName(flags, n) == [] then OfName(args, n) else [Last(flags, n, "")])
      && (rules.Appends(n) ==> multiset(own) == multiset(OfName(args, n)) + multiset(OfName(flags, n)))
      && (n in rules.unsupported ==> multiset(own) == multiset(OfName(args, n)))
  {
    MergedByName(args, flags, rules);
    var own := OfName(MergedArgs(args, flags, rules), n);
    assert multiset(own) == multiset(Expected(OfName(args, n), OfName(flags, n), n, rules));
    if rules.Replaces(n) {
      DistinctGivesOne(args, n, rules);
      SingleBag(own, Expected(OfName(args, n), OfName(flags, n), n, rules));
    }
  }

  /** The program's subcommand stays first whenever every user flag starts with "--". */
  lemma FirstArgStays(args: seq<string>, flags: seq<string>, rules: Rules)
    requires args != [] && !("--" <= args[0])
    requires forall f :: f in flags ==> "--" <= f
    ensures MergedArgs(args, flags, rules)[0] == args[0]
  {
    MergedByName(args, flags, rules);
    var n := GetArgName(args[0]);
    DashedName(args[0]);
    forall i | 0 <= i < |flags| ensures GetArgName(flags[i]) != n {
      assert flags[i] in flags;
      DashedName(flags[i]);
    }
    HasNameIff(flags, n);
    assert OfName(flags, n) == [];
  }

  lemma SameHeadSameBag(a: seq<string>, b: seq<string>)
    requires a != [] && b != [] && a[0] == b[0] && IsSorted(a[1..]) && IsSorted(b[1..])
    requires multiset(a) == multiset(b)
    ensures a == b
  {
    assert a == [a[0]] + a[1..] && b == [b[0]] + b[1..];
    assert multiset(a[1..]) == multiset(a) - multiset{a[0]};
    assert multiset(b[1..]) == multiset(b) - multiset{b[0]};
    SortedUnique(a[1..], b[1..]);
  }

  /** The same flags as far as the merge can see: the same last one of each name that is replaced,
      the same ones of each name that is repeated. */
  ghost predicate SameFlags(f: seq<string>, g: seq<string>, rules: Rules) {
    forall n ::
      && (rules.Replaces(n) ==> Last(f, n, "") == Last(g, n, "") && (OfName(f, n) == [] <==> OfName(g, n) == []))
      && (rules.Appends(n) ==> multiset(OfName(f, n)) == multiset(OfName(g, n)))
  }

  /** The order of flags of different names, of repeatable flags, and of overridden ones is
      irrelevant: such lists give the same command line, so no Pod restarts. */
  lemma OrderIsIrrelevant(args: seq<string>, f: seq<string>, g: seq<string>, rules: Rules)
    requires args != [] && SameFlags(f, g, rules)
    ensures MergedArgs(args, f, rules) == MergedArgs(args, g, rules)
  {
    var r, s := MergedArgs(args, f, rules), MergedArgs(args, g, rules);
    MergedByName(args, f, rules);
    MergedByName(args, g, rules);
    forall n ensures multiset(OfName(r, n)) == multiset(OfName(s, n)) {
      assert multiset(OfName(r, n)) == multiset(Expected(OfName(args, n), OfName(f, n), n, rules));
      assert rules.Appends(n) ==> (OfName(f, n) == [] <==> |multiset(OfName(f, n))| == 0);
      assert rules.Appends(n) ==> (OfName(g, n) == [] <==> |multiset(OfName(g, n))| == 0);
    }
    SameBags(r, s);
    var n := GetArgName(args[0]);
    assert rules.Replaces(n) ==> Last(f, n, "") == Last(g, n, "");
    SameHeadSameBag(r, s);
  }

  lemma AppendsAgain(r: seq<string>, flags: seq<string>, rules: Rules, f: string)
    requires r != [] && f in flags && rules.Appends(GetArgName(f))
    ensures MergedArgs(r, flags, rules) != r
  {
    MergedByName(r, flags, rules);
    var n := GetArgName(f);
    HasNameIff(flags, n);
    var again := MergedArgs(r, flags, rules);
    assert multiset(OfName(again, n)) == multiset(OfName(r, n) + OfName(flags, n));
    assert |multiset(OfName(again, n))| > |multiset(OfName(r, n))|;
  }

  lemma SettlesByName(args: seq<string>, flags: seq<string>, rules: Rules, n: string)
    requires args != [] && DistinctDefaults(args, rules)
    requires forall f :: f in flags ==> !rules.Appends(GetArgName(f))
    ensures var r := MergedArgs(args, flags, rules);
      multiset(OfName(MergedArgs(r, flags, rules), n)) == multiset(OfName(r, n))
  {
    var r := MergedArgs(args, flags, rules);
    MergedByName(r, flags, rules);
    LastWins(args, flags, rules, n);
    if rules.Appends(n) {
      forall i | 0 <= i < |flags| ensures GetArgName(flags[i]) != n {
        assert flags[i] in flags;
      }
      HasNameIff(flags, n);
    }
  }

  lemma SettlesHead(first: string, flags: seq<string>, rules: Rules)
    ensures Head(Head(first, flags, rules), flags, rules) == Head(first, flags, rules)
  {
    OfNameHasName(flags, GetArgName(first));
  }

  /** Merging the same flags again changes nothing exactly when none of them is repeatable. */
  lemma IdempotentIff(args: seq<string>, flags: seq<string>, rules: Rules)
    requires args != [] && DistinctDefaults(args, rules)
    ensures var r := MergedArgs(args, flags, rules);
      MergedArgs(r, flags, rules) == r <==> forall f :: f in flags ==> !rules.Appends(GetArgName(f))
  {
    var r := MergedArgs(args, flags, rules);
    var again := MergedArgs(r, flags, rules);
    MergedByName(args, flags, rules);
    MergedByName(r, flags, rules);
    if f :| f in flags && rules.Appends(GetArgName(f)) {
      AppendsAgain(r, flags, rules, f);
    } else {
      forall n ensures multiset(OfName(again, n)) == multiset(OfName(r, n)) {
        SettlesByName(args, flags, rules, n);
      }
      SameBags(again, r);
      SettlesHead(args[0], flags, rules);
      SameHeadSameBag(again, r);
    }
  }

  /** Written out for one flag: the last flag of a name that may be set once is the only argument of
      that name, wherever it stands among the flags. */
  lemma LastFlagWins(args: seq<string>, before: seq<string>, flag: string, behind: seq<string>, rules: Rules)
    requires args != [] && DistinctDefaults(args, rules)
    requires GetArgName(flag) !in rules.unsupported && GetArgName(flag) !in rules.repeatable
    requires forall i :: 0 <= i < |behind| ==> GetArgName(behind[i]) != GetArgName(flag)
    ensures var r := MergedArgs(args, before + [flag] + behind, rules);
      && flag in r
      && forall i, j :: 0 <= i < j < |r| && GetArgName(r[i]) == GetArgName(flag) ==> GetArgName(r[j]) != GetArgName(flag)
  {
    var n, flags := GetArgName(flag), before + [flag] + behind;
    var r := MergedArgs(args, flags, rules);
    HasNameIff(behind, n);
    assert flags == (before + [flag]) + behind;
    OfNameConcat(before + [flag], behind, n);
    OfNameSnoc(before, flag, n);
    LastWins(args, flags, rules, n);
    assert OfName(r, n) == [flag];
    OfNameHasName(r, n);
    assert flag in OfName(r, n);
    forall i, j | 0 <= i < j < |r| && GetArgName(r[i]) == n ensures GetArgName(r[j]) != n {
      TwoOfName(r, n, i, j);
    }
  }

  lemma TwoOfName(r: seq<string>, n: string, i: nat, j: nat)
    requires i < j < |r| && GetArgName(r[i]) == n && |OfName(r, n)| <= 1
    ensures GetArgName(r[j]) != n
  {
    assert r == r[..j] + r[j..];
    OfNameConcat(r[..j], r[j..], n);
    HasNameIff(r[..j], n);
    HasNameIff(r[j..], n);
    assert GetArgName(r[..j][i]) == n;
    assert OfName(r[..j], n) != [];
    assert OfName(r[j..], n) == [];
    assert r[j..][0] == r[j];
  }
}
