/** Strings as the operator uses them: splitting, joining, decimal numbers and the
    byte-wise order of sort.Strings. Nothing here knows about Kubernetes objects. */
module Text {

  datatype Option<+T> = None | Some(value: T)

  // ----- splitting and joining on one separator character -----

  /** strings.Split for a one-character separator: always at least one part. */
  function Split(s: string, sep: char): (parts: seq<string>)
    ensures |parts| >= 1
  {
    if s == [] then [""]
    else
      var rest := Split(s[1..], sep);
      if s[0] == sep then [""] + rest else [[s[0]] + rest[0]] + rest[1..]
  }

  /** strings.Join for a one-character separator. */
  function Join(parts: seq<string>, sep: char): string {
    if parts == [] then ""
    else if |parts| == 1 then parts[0]
    else parts[0] + [sep] + Join(parts[1..], sep)
  }

  /** Splitting cuts at the first separator. */
  lemma {:induction false} SplitAtFirst(a: string, b: string, sep: char)
    requires sep !in a
    ensures Split(a + [sep] + b, sep) == [a] + Split(b, sep)
  {
    var s := a + [sep] + b;
    if a == "" {
      assert s[1..] == b;
    } else {
      assert s[1..] == a[1..] + [sep] + b;
      SplitAtFirst(a[1..], b, sep);
      assert [a[0]] + a[1..] == a;
    }
  }

  lemma {:induction false} SplitWhole(a: string, sep: char)
    requires sep !in a
    ensures Split(a, sep) == [a]
  {
    if a != "" {
      SplitWhole(a[1..], sep);
      assert [a[0]] + a[1..] == a;
    }
  }

  /** No part contains the separator. */
  lemma {:induction false} SplitParts(s: string, sep: char)
    ensures forall i :: 0 <= i < |Split(s, sep)| ==> sep !in Split(s, sep)[i]
  {
    if s != "" {
      SplitParts(s[1..], sep);
    }
  }

  /** Joining the parts gives the string back. */
  lemma {:induction false} JoinOfSplit(s: string, sep: char)
    ensures Join(Split(s, sep), sep) == s
  {
    if s != "" {
      var rest := Split(s[1..], sep);
      JoinOfSplit(s[1..], sep);
      if s[0] == sep {
        JoinCons("", rest, sep);
      } else if |rest| == 1 {
        assert rest == [rest[0]];
      } else {
        JoinCons([s[0]] + rest[0], rest[1..], sep);
        assert rest == [rest[0]] + rest[1..];
        JoinCons(rest[0], rest[1..], sep);
      }
    }
  }

  lemma JoinCons(part: string, rest: seq<string>, sep: char)
    requires rest != []
    ensures Join([part] + rest, sep) == part + [sep] + Join(rest, sep)
  {
    assert ([part] + rest)[1..] == rest;
  }

  /** A string of two parts is the two parts around the separator. */
  lemma TwoParts(s: string, sep: char)
    requires |Split(s, sep)| == 2
    ensures s == Split(s, sep)[0] + [sep] + Split(s, sep)[1]
  {
    JoinOfSplit(s, sep);
    var parts := Split(s, sep);
    assert parts == [parts[0]] + [parts[1]];
    JoinCons(parts[0], [parts[1]], sep);
  }

  /** Splitting the joined parts gives the parts back. */
  lemma {:induction false} SplitOfJoin(parts: seq<string>, sep: char)
    requires parts != []
    requires forall i :: 0 <= i < |parts| ==> sep !in parts[i]
    ensures Split(Join(parts, sep), sep) == parts
  {
    if |parts| == 1 {
      SplitWhole(parts[0], sep);
    } else {
      SplitOfJoin(parts[1..], sep);
      SplitAtFirst(parts[0], Join(parts[1..], sep), sep);
      assert [parts[0]] + parts[1..] == parts;
    }
  }

  /** A separator inside the string makes at least one more part. */
  lemma {:induction false} SplitCount(s: string, sep: char)
    ensures (sep in s) <==> |Split(s, sep)| >= 2
  {
    if s != "" {
      SplitCount(s[1..], sep);
    }
  }

  /** Two strings cut at their first separators agree piecewise. */
  lemma FirstCutUnique(a: string, x: string, b: string, y: string, sep: char)
    requires a + [sep] + x == b + [sep] + y
    requires sep !in a && sep !in b
    ensures a == b && x == y
  {
    SplitAtFirst(a, x, sep);
    SplitAtFirst(b, y, sep);
    assert a == Split(a + [sep] + x, sep)[0] == b;
    assert x == (a + [sep] + x)[|a| + 1..] && y == (b + [sep] + y)[|b| + 1..];
  }

  // ----- substrings -----

  /** strings.Contains, and the shell's quoted =~ test. */
  ghost predicate IsSubstring(part: string, whole: string) {
    exists i :: OccursAt(part, whole, i)
  }

  predicate OccursAt(part: string, whole: string, i: int) {
    0 <= i && i + |part| <= |whole| && whole[i..i + |part|] == part
  }

  /** Every joined part is a substring of the joined text. */
  lemma {:induction false} JoinedPartIsSubstring(parts: seq<string>, i: nat, sep: char)
    requires i < |parts|
    ensures IsSubstring(parts[i], Join(parts, sep))
  {
    var whole := Join(parts, sep);
    if i == 0 {
      assert OccursAt(parts[0], whole, 0);
    } else {
      JoinedPartIsSubstring(parts[1..], i - 1, sep);
      var tail := Join(parts[1..], sep);
      var j :| OccursAt(parts[i], tail, j);
      var k := |parts[0]| + 1 + j;
      assert whole == parts[0] + [sep] + tail;
      assert whole[k..k + |parts[i]|] == tail[j..j + |parts[i]|];
      assert OccursAt(parts[i], whole, k);
    }
  }

  // ----- decimal numbers -----

  predicate IsDigit(c: char) { '0' <= c <= '9' }

  predicate AllDigits(s: string) { forall i :: 0 <= i < |s| ==> IsDigit(s[i]) }

  function Digit(d: nat): char
    requires d < 10
  {
    ('0' as int + d) as char
  }

  /** strconv.Itoa on non-negative numbers. */
  function Itoa(n: nat): string {
    if n < 10 then [Digit(n)] else Itoa(n / 10) + [Digit(n % 10)]
  }

  /** The number a string of digits denotes. */
  function Value(s: string): nat
    requires AllDigits(s)
  {
    if s == "" then 0
    else 10 * Value(s[..|s| - 1]) + (s[|s| - 1] as int - '0' as int)
  }

  /** The expression ^([1-9]\d*|0)$ that recognises sequence numbers. */
  predicate IsSequenceNumber(s: string) {
    || s == "0"
    || (|s| >= 1 && '1' <= s[0] <= '9' && AllDigits(s[1..]))
  }

  lemma SequenceNumberDigits(s: string)
    requires IsSequenceNumber(s)
    ensures s != "" && AllDigits(s)
  {
    if s != "0" {
      forall i | 0 <= i < |s| ensures IsDigit(s[i]) {
        if i > 0 {
          assert s[i] == s[1..][i - 1];
        }
      }
    }
  }

  /** Every printed number is recognised and reads back as itself. */
  lemma {:induction false} ItoaReadsBack(n: nat)
    ensures IsSequenceNumber(Itoa(n)) && AllDigits(Itoa(n)) && Value(Itoa(n)) == n
    ensures n > 0 ==> Itoa(n)[0] != '0'
  {
    var s := Itoa(n);
    if n >= 10 {
      ItoaReadsBack(n / 10);
      assert s[..|s| - 1] == Itoa(n / 10);
      assert s[1..] == Itoa(n / 10)[1..] + [Digit(n % 10)];
    } else {
      assert s[..|s| - 1] == "";
    }
  }

  /** Every recognised string is the print-out of the number it denotes. */
  lemma {:induction false} SequenceNumberIsPrinted(s: string)
    requires IsSequenceNumber(s)
    ensures AllDigits(s) && s == Itoa(Value(s))
    ensures s != "0" ==> Value(s) > 0
    decreases |s|
  {
    SequenceNumberDigits(s);
    if |s| == 1 {
      assert s[..0] == "";
      assert s == [s[0]];
    } else {
      var init := s[..|s| - 1];
      assert init[1..] == s[1..][..|s| - 2];
      SequenceNumberIsPrinted(init);
      assert s == init + [s[|s| - 1]];
    }
  }

  /** The sequence-number expression accepts exactly the printed naturals. */
  lemma SequenceNumberIffPrinted(s: string)
    ensures IsSequenceNumber(s) <==> exists n: nat :: s == Itoa(n)
  {
    if IsSequenceNumber(s) {
      SequenceNumberIsPrinted(s);
    }
    if n: nat :| s == Itoa(n) {
      ItoaReadsBack(n);
    }
  }

  lemma ItoaInjective(m: nat, n: nat)
    requires Itoa(m) == Itoa(n)
    ensures m == n
  {
    ItoaReadsBack(m);
    ItoaReadsBack(n);
  }

  /** A printed number contains no character that is not a digit. */
  lemma ItoaHasNo(n: nat, c: char)
    requires !IsDigit(c)
    ensures c !in Itoa(n)
  {
    ItoaReadsBack(n);
  }

  // ----- cutting a string at its last separator -----

  lemma NoSeparatorBehindCut(a: string, x: string, sep: char, i: int)
    requires sep !in x
    requires |a| < i < |a| + 1 + |x|
    ensures (a + [sep] + x)[i] != sep
  {
    assert (a + [sep] + x)[i] == x[i - |a| - 1];
  }

  /** Two strings cut at a separator that does not occur behind the cut agree piecewise. */
  lemma LastCutUnique(a: string, x: string, b: string, y: string, sep: char)
    requires a + [sep] + x == b + [sep] + y
    requires sep !in x && sep !in y
    ensures a == b && x == y
  {
    var s := a + [sep] + x;
    assert s[|a|] == sep && s[|b|] == sep;
    assert |a| == |b| by {
      if |a| < |b| {
        NoSeparatorBehindCut(a, x, sep, |b|);
      } else if |b| < |a| {
        NoSeparatorBehindCut(b, y, sep, |a|);
      }
    }
    assert a == s[..|a|] && b == s[..|b|];
    assert x == s[|a| + 1..] && y == s[|b| + 1..];
  }

  // ----- the order of sort.Strings -----

  predicate StringLe(a: string, b: string) {
    || a == ""
    || (b != "" && (a[0] < b[0] || (a[0] == b[0] && StringLe(a[1..], b[1..]))))
  }

  lemma {:induction false} StringLeTotal(a: string, b: string)
    ensures StringLe(a, b) || StringLe(b, a)
  {
    if a != "" && b != "" {
      StringLeTotal(a[1..], b[1..]);
    }
  }

  lemma {:induction false} StringLeTransitive(a: string, b: string, c: string)
    requires StringLe(a, b) && StringLe(b, c)
    ensures StringLe(a, c)
  {
    if a != "" && a[0] == b[0] && b[0] == c[0] {
      StringLeTransitive(a[1..], b[1..], c[1..]);
    }
  }

  lemma {:induction false} StringLeAntisymmetric(a: string, b: string)
    requires StringLe(a, b) && StringLe(b, a)
    ensures a == b
  {
    if a != "" {
      StringLeAntisymmetric(a[1..], b[1..]);
      assert a == [a[0]] + a[1..] && b == [b[0]] + b[1..];
    }
  }

  predicate IsSorted(s: seq<string>) {
    forall i, j :: 0 <= i < j < |s| ==> StringLe(s[i], s[j])
  }

  function Insert(x: string, s: seq<string>): seq<string> {
    if s == [] then [x]
    else if StringLe(x, s[0]) then [x] + s
    else [s[0]] + Insert(x, s[1..])
  }

  /** sort.Strings: the sorted rearrangement. */
  function Sort(s: seq<string>): seq<string> {
    if s == [] then [] else Insert(s[0], Sort(s[1..]))
  }

  lemma {:induction false} InsertKeeps(x: string, s: seq<string>)
    ensures multiset(Insert(x, s)) == multiset{x} + multiset(s)
  {
    if s != [] {
      assert s == [s[0]] + s[1..];
      if !StringLe(x, s[0]) {
        InsertKeeps(x, s[1..]);
      }
    }
  }

  lemma {:induction false} InsertSorts(x: string, s: seq<string>)
    requires IsSorted(s)
    ensures IsSorted(Insert(x, s))
  {
    if s != [] {
      var r := Insert(x, s);
      if StringLe(x, s[0]) {
        forall j | 0 < j < |r| ensures StringLe(x, r[j]) {
          if j > 1 {
            StringLeTransitive(x, s[0], s[j - 1]);
          }
        }
      } else {
        StringLeTotal(x, s[0]);
        InsertSorts(x, s[1..]);
        InsertKeeps(x, s[1..]);
        var t := Insert(x, s[1..]);
        forall j | 0 <= j < |t| ensures StringLe(s[0], t[j]) {
          assert t[j] in multiset(t);
          assert t[j] == x || t[j] in s[1..];
        }
      }
    }
  }

  /** Sort returns a sorted rearrangement of its argument. */
  lemma {:induction false} SortSorts(s: seq<string>)
    ensures IsSorted(Sort(s)) && multiset(Sort(s)) == multiset(s)
  {
    if s != [] {
      SortSorts(s[1..]);
      InsertSorts(s[0], Sort(s[1..]));
      InsertKeeps(s[0], Sort(s[1..]));
      assert s == [s[0]] + s[1..];
    }
  }

  lemma SameMembers(s: seq<string>, t: seq<string>, x: string)
    requires multiset(s) == multiset(t)
    ensures x in s <==> x in t
  {
    assert x in s <==> x in multiset(s);
    assert x in t <==> x in multiset(t);
  }

  lemma SortedHead(s: seq<string>, t: seq<string>)
    requires s != [] && IsSorted(s) && IsSorted(t) && multiset(s) == multiset(t)
    ensures t != [] && s[0] == t[0]
  {
    assert |multiset(t)| == |multiset(s)|;
    SameMembers(s, t, s[0]);
    SameMembers(s, t, t[0]);
    var i :| 0 <= i < |t| && t[i] == s[0];
    var j :| 0 <= j < |s| && s[j] == t[0];
    StringLeReflexive(s[0]);
    StringLeAntisymmetric(s[0], t[0]);
  }

  /** A sorted rearrangement is unique. */
  lemma {:induction false} SortedUnique(s: seq<string>, t: seq<string>)
    requires IsSorted(s) && IsSorted(t) && multiset(s) == multiset(t)
    ensures s == t
  {
    if s == [] {
      assert |multiset(t)| == 0;
    } else {
      SortedHead(s, t);
      var s', t' := s[1..], t[1..];
      TailBag(s);
      TailBag(t);
      SortedUnique(s', t');
    }
  }

  lemma TailBag(s: seq<string>)
    requires s != []
    ensures multiset(s[1..]) == multiset(s) - multiset{s[0]}
  {
    assert s == [s[0]] + s[1..];
  }

  lemma StringLeReflexive(a: string)
    ensures StringLe(a, a)
  {
    StringLeTotal(a, a);
  }

  // ----- lists without repetition -----

  ghost predicate NoDup<T(!new)>(s: seq<T>) {
    forall i, j :: 0 <= i < j < |s| ==> s[i] != s[j]
  }

  /** removeString: every occurrence goes, the rest keeps its order. */
  function Without(s: seq<string>, x: string): (r: seq<string>) {
    if s == [] then []
    else if s[0] == x then Without(s[1..], x)
    else [s[0]] + Without(s[1..], x)
  }

  lemma {:induction false} WithoutMembers(s: seq<string>, x: string)
    ensures forall y :: y in Without(s, x) <==> y in s && y != x
    ensures |Without(s, x)| <= |s|
  {
    if s != [] {
      WithoutMembers(s[1..], x);
      assert s == [s[0]] + s[1..];
    }
  }

  lemma {:induction false} WithoutNoDup(s: seq<string>, x: string)
    requires NoDup(s)
    ensures NoDup(Without(s, x))
  {
    if s != [] {
      WithoutNoDup(s[1..], x);
      WithoutMembers(s[1..], x);
      assert s[0] !in s[1..];
    }
  }

  lemma {:induction false} WithoutAbsent(s: seq<string>, x: string)
    requires x !in s
    ensures Without(s, x) == s
  {
    if s != [] {
      WithoutAbsent(s[1..], x);
      assert s == [s[0]] + s[1..];
    }
  }

  lemma {:induction false} WithoutSnoc(s: seq<string>, y: string, x: string)
    ensures Without(s + [y], x) == Without(s, x) + (if y == x then [] else [y])
  {
    if s == [] {
      assert s + [y] == [y];
    } else {
      assert (s + [y])[1..] == s[1..] + [y];
      WithoutSnoc(s[1..], y, x);
    }
  }
}
