/**
 * The string operations the configuration code relies on, with the semantics of
 * JavaScript's `String.prototype.split`, `Array.prototype.join`,
 * `String.prototype.includes` and number-to-string conversion of a non-negative
 * integer.
 */
module Strings {

  /** `s.split(sep)` for a one-character separator: always at least one part. */
  function Split(s: string, sep: char): (parts: seq<string>)
    ensures |parts| >= 1
    ensures forall i :: 0 <= i < |parts| ==> sep !in parts[i]
    ensures Join(parts, sep) == s
    decreases |s|
  {
    if |s| == 0 then [""]
    else
      var rest := Split(s[1..], sep);
      if s[0] == sep then [""] + rest
      else [[s[0]] + rest[0]] + rest[1..]
  }

  /** `parts.join(sep)`: the inverse of `Split`. */
  function Join(parts: seq<string>, sep: char): string
  {
    if |parts| == 0 then ""
    else if |parts| == 1 then parts[0]
    else parts[0] + [sep] + Join(parts[1..], sep)
  }

  /** Joining with the separator inserted adds the joins of both halves. */
  lemma {:induction false} JoinAppend(a: seq<string>, b: seq<string>, sep: char)
    requires |a| >= 1 && |b| >= 1
    ensures Join(a + b, sep) == Join(a, sep) + [sep] + Join(b, sep)
    decreases |a|
  {
    if |a| == 1 {
      assert (a + b)[1..] == b;
    } else {
      assert (a + b)[1..] == a[1..] + b;
      JoinAppend(a[1..], b, sep);
    }
  }

  /** Round trip the other way: splitting a join of separator-free parts gives the parts back. */
  lemma {:induction false} SplitJoin(parts: seq<string>, sep: char)
    requires |parts| >= 1
    requires forall i :: 0 <= i < |parts| ==> sep !in parts[i]
    ensures Split(Join(parts, sep), sep) == parts
    decreases |parts|, |parts[0]|
  {
    var p0 := parts[0];
    if |parts| == 1 {
      if |p0| > 0 {
        SplitJoin([p0[1..]], sep);
        assert Join([p0[1..]], sep) == p0[1..];
        assert [p0[0]] + p0[1..] == p0;
      }
    } else if |p0| == 0 {
      var j := Join(parts, sep);
      assert j == [sep] + Join(parts[1..], sep);
      assert j[1..] == Join(parts[1..], sep);
      SplitJoin(parts[1..], sep);
      assert parts == [""] + parts[1..];
    } else {
      var q := [p0[1..]] + parts[1..];
      assert q[1..] == parts[1..];
      SplitJoin(q, sep);
      var j := Join(parts, sep);
      assert j == p0 + [sep] + Join(parts[1..], sep);
      assert Join(q, sep) == p0[1..] + [sep] + Join(parts[1..], sep);
      assert j[1..] == Join(q, sep);
      assert j[0] == p0[0];
      assert [p0[0]] + p0[1..] == p0;
    }
  }

  /** Splitting at one separator occurrence splits each side independently. */
  lemma SplitAppend(a: string, b: string, sep: char)
    ensures Split(a + [sep] + b, sep) == Split(a, sep) + Split(b, sep)
  {
    var pa, pb := Split(a, sep), Split(b, sep);
    JoinAppend(pa, pb, sep);
    SplitJoin(pa + pb, sep);
  }

  /** A string without the separator is a single part. */
  lemma SingleSegment(s: string, sep: char)
    requires sep !in s
    ensures Split(s, sep) == [s]
  {
    SplitJoin([s], sep);
  }

  /** `s.includes(sub)`: `sub` occurs somewhere in `s`. */
  function Contains(s: string, sub: string): (b: bool)
    ensures b <==> exists i :: 0 <= i <= |s| && sub <= s[i..]
    decreases |s|
  {
    if sub <= s then
      assert sub <= s[0..];
      true
    else if |s| == 0 then
      false
    else
      var r := Contains(s[1..], sub);
      ContainsShift(s, sub);
      r
  }

  lemma ContainsShift(s: string, sub: string)
    requires |s| > 0 && !(sub <= s)
    ensures (exists i :: 0 <= i <= |s| && sub <= s[i..])
        <==> (exists i :: 0 <= i <= |s| - 1 && sub <= s[1..][i..])
  {
    forall i | 0 <= i <= |s| - 1
      ensures s[1..][i..] == s[i + 1..]
    {
    }
    assert s[0..] == s;
    if i :| 0 <= i <= |s| && sub <= s[i..] {
      assert i > 0;
      assert sub <= s[1..][i - 1..];
    }
  }

  /** An occurrence in a prefix is an occurrence in the whole string. */
  lemma ContainsExtend(s: string, t: string, sub: string)
    requires Contains(s, sub)
    ensures Contains(s + t, sub)
  {
    var i :| 0 <= i <= |s| && sub <= s[i..];
    assert (s + t)[i..] == s[i..] + t;
  }

  predicate IsDigit(c: char) {
    '0' <= c <= '9'
  }

  /** A canonical array-index string as JavaScript writes one: digits, no leading zero. */
  predicate IsIndex(s: string) {
    && |s| >= 1
    && (forall i :: 0 <= i < |s| ==> IsDigit(s[i]))
    && (s[0] == '0' ==> |s| == 1)
  }

  function DigitChar(d: nat): (c: char)
    requires d < 10
    ensures IsDigit(c) && c as int - '0' as int == d
  {
    ('0' as int + d) as char
  }

  /** Decimal rendering of a non-negative number, as in a template literal `${n}`. */
  function NatToString(n: nat): (s: string)
    ensures IsIndex(s)
    ensures ParseNat(s) == n
    ensures '/' !in s && '.' !in s
  {
    if n < 10 then [DigitChar(n)]
    else
      var s := NatToString(n / 10) + [DigitChar(n % 10)];
      assert s[..|s| - 1] == NatToString(n / 10);
      s
  }

  /** The number a digit string denotes. */
  function ParseNat(s: string): nat
    requires forall i :: 0 <= i < |s| ==> IsDigit(s[i])
  {
    if |s| == 0 then 0
    else ParseNat(s[..|s| - 1]) * 10 + DigitValue(s[|s| - 1])
  }

  function DigitValue(c: char): (d: nat)
    requires IsDigit(c)
    ensures d < 10 && DigitChar(d) == c
  {
    c as int - '0' as int
  }

  /** Round trip: every canonical index string is the rendering of the number it denotes. */
  lemma {:induction false} IndexRoundTrip(s: string)
    requires IsIndex(s)
    ensures NatToString(ParseNat(s)) == s
    decreases |s|
  {
    var n := ParseNat(s);
    if |s| == 1 {
      assert s[..|s| - 1] == [];
      assert ParseNat(s[..|s| - 1]) == 0;
      assert n == DigitValue(s[0]);
      assert NatToString(n) == [DigitChar(n)];
    } else {
      var init := s[..|s| - 1];
      assert init[0] == s[0];
      if ParseNat(init) == 0 {
        LeadingDigitPositive(init);
      }
      IndexRoundTrip(init);
      assert n / 10 == ParseNat(init);
      assert init + [s[|s| - 1]] == s;
    }
  }

  lemma LeadingDigitPositive(s: string)
    requires IsIndex(s) && |s| >= 2
    ensures ParseNat(s) > 0
    decreases |s|
  {
    if |s| > 2 {
      var init := s[..|s| - 1];
      assert init[0] == s[0];
      LeadingDigitPositive(init);
    } else {
      assert s[..1] == [s[0]];
    }
  }

  /** Distinct numbers render to distinct strings. */
  lemma NatToStringInjective(m: nat, n: nat)
    requires NatToString(m) == NatToString(n)
    ensures m == n
  {
  }

  /** `xs.filter(Boolean)` on strings: drops the empty strings, keeps the order. */
  function NonEmpty(xs: seq<string>): (r: seq<string>)
    ensures forall i :: 0 <= i < |r| ==> r[i] != "" && r[i] in xs
    ensures forall x :: x in xs && x != "" ==> x in r
  {
    if |xs| == 0 then []
    else if xs[0] == "" then NonEmpty(xs[1..])
    else [xs[0]] + NonEmpty(xs[1..])
  }

  /** A list without empty strings is left as it is. */
  lemma {:induction false} NonEmptyKeeps(xs: seq<string>)
    requires forall i :: 0 <= i < |xs| ==> xs[i] != ""
    ensures NonEmpty(xs) == xs
    decreases |xs|
  {
    if |xs| > 0 {
      NonEmptyKeeps(xs[1..]);
    }
  }

  lemma NonEmptyAppend(a: seq<string>, b: seq<string>)
    ensures NonEmpty(a + b) == NonEmpty(a) + NonEmpty(b)
  {
    if |a| > 0 {
      assert (a + b)[1..] == a[1..] + b;
      NonEmptyAppend(a[1..], b);
    } else {
      assert a + b == b;
    }
  }
}
