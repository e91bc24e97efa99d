/** The string handling the API scripts lean on: decimal rendering of a
    count, Python's `int()` applied to a string, `str.replace(c, '')` and
    Python's ordering of strings. */
module Text {
  import opened Wrappers

  predicate IsDigit(c: char) {
    '0' <= c <= '9'
  }

  predicate AllDigits(s: string) {
    forall i :: 0 <= i < |s| ==> IsDigit(s[i])
  }

  function DigitValue(c: char): nat
    requires IsDigit(c)
  {
    c as int - '0' as int
  }

  function DigitChar(d: nat): (c: char)
    requires d < 10
    ensures IsDigit(c) && DigitValue(c) == d
  {
    ('0' as int + d) as char
  }

  /** The value of a string of decimal digits, most significant first. */
  function DigitsValue(s: string): nat
    requires AllDigits(s)
  {
    if s == [] then 0 else 10 * DigitsValue(s[..|s| - 1]) + DigitValue(s[|s| - 1])
  }

  /** Decimal rendering of a natural number, as `str` and `format` write an
      int: digits only, never empty, no leading zero except for 0 itself. */
  function NatToString(n: nat): (s: string)
    ensures |s| >= 1 && AllDigits(s)
    ensures s[0] == '0' ==> n == 0
  {
    if n < 10 then [DigitChar(n)] else NatToString(n / 10) + [DigitChar(n % 10)]
  }

  lemma {:induction false} NatToStringValue(n: nat)
    ensures DigitsValue(NatToString(n)) == n
  {
    if n >= 10 {
      var s := NatToString(n);
      NatToStringValue(n / 10);
      assert s[..|s| - 1] == NatToString(n / 10);
    }
  }

  /** `s.replace(c, '')`: every occurrence of `c` removed, the rest kept in order. */
  function RemoveChar(s: string, c: char): (r: string)
    ensures |r| <= |s|
    ensures forall k :: 0 <= k < |r| ==> r[k] != c
    ensures c !in s ==> r == s
  {
    if s == [] then []
    else
      var t := RemoveChar(s[..|s| - 1], c);
      assert c !in s ==> s == s[..|s| - 1] + [s[|s| - 1]];
      if s[|s| - 1] == c then t else t + [s[|s| - 1]]
  }

  /** Removal keeps every other character, as many times as it occurs, and
      drops every occurrence of `c`. */
  lemma {:induction false} RemoveCharMultiset(s: string, c: char)
    ensures multiset(RemoveChar(s, c)) == multiset(s)[c := 0]
  {
    if s != [] {
      RemoveCharMultiset(s[..|s| - 1], c);
      assert s == s[..|s| - 1] + [s[|s| - 1]];
    }
  }

  /** Removal works character by character: removing from a concatenation
      is removing from each part. */
  lemma {:induction false} RemoveCharAppend(a: string, b: string, c: char)
    ensures RemoveChar(a + b, c) == RemoveChar(a, c) + RemoveChar(b, c)
    decreases |b|
  {
    if b != [] {
      var b' := b[..|b| - 1];
      assert (a + b)[..|a + b| - 1] == a + b';
      RemoveCharAppend(a, b', c);
    } else {
      assert a + b == a;
    }
  }

  /** Removing the separator from digits and separators leaves digits. */
  lemma {:induction false} RemoveCharLeavesDigits(s: string, c: char)
    requires forall i :: 0 <= i < |s| ==> IsDigit(s[i]) || s[i] == c
    ensures AllDigits(RemoveChar(s, c))
  {
    if s != [] {
      RemoveCharLeavesDigits(s[..|s| - 1], c);
    }
  }

  /** The characters `int()` skips around a number (ASCII whitespace). */
  predicate IsSpace(c: char) {
    c == ' ' || c == '\t' || c == '\n' || c == '\r' || c == '\U{B}' || c == '\U{C}'
  }

  function TrimLeft(s: string): (r: string)
    ensures r == [] || !IsSpace(r[0])
    ensures s != [] && !IsSpace(s[0]) ==> r == s
  {
    if s != [] && IsSpace(s[0]) then TrimLeft(s[1..]) else s
  }

  function TrimRight(s: string): (r: string)
    ensures r == [] || !IsSpace(r[|r| - 1])
    ensures s != [] && !IsSpace(s[|s| - 1]) ==> r == s
  {
    if s != [] && IsSpace(s[|s| - 1]) then TrimRight(s[..|s| - 1]) else s
  }

  /** Decimal digits in which single underscores may separate two digits
      (the literal grammar `int()` accepts in base 10). */
  predicate IsDigitGroups(s: string) {
    && |s| >= 1
    && IsDigit(s[0])
    && IsDigit(s[|s| - 1])
    && (forall i :: 0 <= i < |s| ==> IsDigit(s[i]) || s[i] == '_')
    && NoDoubleUnderscore(s)
  }

  predicate NoDoubleUnderscore(s: string) {
    |s| < 2 || (!(s[0] == '_' && s[1] == '_') && NoDoubleUnderscore(s[1..]))
  }

  function GroupsValue(s: string): (v: nat)
    requires IsDigitGroups(s)
  {
    RemoveCharLeavesDigits(s, '_');
    DigitsValue(RemoveChar(s, '_'))
  }

  /** Python's `int(s)` for a string: surrounding whitespace is ignored, an
      optional sign may precede the digit groups; anything else raises
      ValueError, modelled as None. */
  function ParseInt(s: string): (r: Option<int>)
    ensures TrimRight(TrimLeft(s)) == [] ==> r.None?
    ensures var t := TrimRight(TrimLeft(s));
      r.Some? <==> t != [] && IsDigitGroups(if t[0] == '+' || t[0] == '-' then t[1..] else t)
    ensures r.Some? ==>
      var t := TrimRight(TrimLeft(s));
      (t[0] == '-' ==> r.value <= 0) && (t[0] != '-' ==> r.value >= 0)
  {
    var t := TrimRight(TrimLeft(s));
    if t != [] && (t[0] == '+' || t[0] == '-') then
      if IsDigitGroups(t[1..]) then
        Some(if t[0] == '-' then 0 - GroupsValue(t[1..]) as int else GroupsValue(t[1..]))
      else None
    else if IsDigitGroups(t) then Some(GroupsValue(t))
    else None
  }

  lemma {:induction false} NoUnderscoreNoDouble(s: string)
    requires '_' !in s
    ensures NoDoubleUnderscore(s)
  {
    if |s| >= 2 {
      assert s[1..][..] == s[1..] && '_' !in s[1..];
      NoUnderscoreNoDouble(s[1..]);
    }
  }

  /** `int()` is right on plain digit strings. */
  lemma ParseIntOfDigits(s: string)
    requires |s| >= 1 && AllDigits(s)
    ensures ParseInt(s) == Some(DigitsValue(s))
  {
    assert TrimLeft(s) == s;
    assert TrimRight(s) == s;
    assert '_' !in s;
    NoUnderscoreNoDouble(s);
    assert IsDigitGroups(s);
  }

  /** Predicate on a parse function: it reads every non-empty plain digit
      string as its decimal value, as `int()` does. */
  ghost predicate ReadsPlainDigits(parse: string -> Option<int>) {
    forall s :: |s| >= 1 && AllDigits(s) ==> parse(s) == Some(DigitsValue(s))
  }

  lemma ParseIntReadsPlainDigits()
    ensures ReadsPlainDigits(ParseInt)
  {
    forall s | |s| >= 1 && AllDigits(s)
      ensures ParseInt(s) == Some(DigitsValue(s))
    {
      ParseIntOfDigits(s);
    }
  }

  /** `int("n/a")` and `int("unknown")` raise ValueError. */
  lemma ParseIntRejectsPlaceholders()
    ensures ParseInt("n/a") == None && ParseInt("unknown") == None
  {
    assert TrimRight(TrimLeft("n/a")) == "n/a";
    assert TrimRight(TrimLeft("unknown")) == "unknown";
  }

  /** Rendering a count and reading it back with `int()` gives the count. */
  lemma ParseIntOfNatToString(n: nat)
    ensures ParseInt(NatToString(n)) == Some(n)
  {
    ParseIntOfDigits(NatToString(n));
    NatToStringValue(n);
  }

  /** Python's `<` on str: lexicographic by code point, a proper prefix first. */
  predicate StringLess(a: string, b: string) {
    if a == [] then b != []
    else if b == [] then false
    else if a[0] != b[0] then a[0] < b[0]
    else StringLess(a[1..], b[1..])
  }

  lemma {:induction false} StringLessIrreflexive(a: string)
    ensures !StringLess(a, a)
  {
    if a != [] { StringLessIrreflexive(a[1..]); }
  }

  lemma {:induction false} StringLessTransitive(a: string, b: string, c: string)
    requires StringLess(a, b) && StringLess(b, c)
    ensures StringLess(a, c)
  {
    if a != [] && b != [] && c != [] && a[0] == b[0] == c[0] {
      StringLessTransitive(a[1..], b[1..], c[1..]);
    }
  }

  lemma {:induction false} StringLessTotal(a: string, b: string)
    ensures a == b || StringLess(a, b) || StringLess(b, a)
  {
    if a != [] && b != [] && a[0] == b[0] {
      StringLessTotal(a[1..], b[1..]);
      assert a == [a[0]] + a[1..] && b == [b[0]] + b[1..];
    }
  }

  lemma {:induction false} StringLessAsymmetric(a: string, b: string)
    requires StringLess(a, b)
    ensures !StringLess(b, a)
  {
    if a != [] && b != [] && a[0] == b[0] {
      StringLessAsymmetric(a[1..], b[1..]);
    }
  }
}
