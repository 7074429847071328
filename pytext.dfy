/**
 * The few Python `str` operations the scraper relies on, stated over `seq<char>`:
 * `strip()`, `lower()`, `upper()`, the `in` substring test, `startswith`,
 * `split(c)[-1]`, `replace`, `''.join`, `' '.join` and `int()` on a stripped string.
 */
module PyText {
  import opened Wrappers

  /** The characters Python's `str.isspace()` (and so `strip()` and the regex `\s`) accepts. */
  predicate IsSpace(c: char) {
    || ('\t' <= c <= '\r')
    || ('\U{1C}' <= c <= ' ')
    || c == '\U{85}' || c == '\U{A0}' || c == '\U{1680}'
    || ('\U{2000}' <= c <= '\U{200A}')
    || c == '\U{2028}' || c == '\U{2029}' || c == '\U{202F}' || c == '\U{205F}' || c == '\U{3000}'
  }

  /** `s.lstrip()` */
  function StripLeft(s: string): (r: string)
    ensures |r| <= |s| && r == s[|s| - |r|..]
    ensures r != "" ==> !IsSpace(r[0])
    ensures forall i :: 0 <= i < |s| - |r| ==> IsSpace(s[i])
  {
    if s != "" && IsSpace(s[0]) then StripLeft(s[1..]) else s
  }

  /** `s.rstrip()` */
  function StripRight(s: string): (r: string)
    ensures |r| <= |s| && r == s[..|r|]
    ensures r != "" ==> !IsSpace(r[|r| - 1])
    ensures forall i :: |r| <= i < |s| ==> IsSpace(s[i])
  {
    if s != "" && IsSpace(s[|s| - 1]) then StripRight(s[..|s| - 1]) else s
  }

  predicate NoOuterSpace(s: string) {
    s == "" || (!IsSpace(s[0]) && !IsSpace(s[|s| - 1]))
  }

  /** Every character of `t` is whitespace. */
  predicate AllSpaces(t: string) {
    forall i :: 0 <= i < |t| ==> IsSpace(t[i])
  }

  /** `r` is a slice of `s` with only whitespace before and after it. */
  predicate SpaceAround(s: string, r: string) {
    exists k :: 0 <= k <= |s| - |r| && r == s[k..k + |r|] && AllSpaces(s[..k]) && AllSpaces(s[k + |r|..])
  }

  /** `s.strip()` (`StripSpaceAround` says which slice of `s` it is). */
  function Strip(s: string): (r: string)
    ensures NoOuterSpace(r)
    ensures |r| <= |s|
    ensures NoOuterSpace(s) ==> r == s
  {
    StripRight(StripLeft(s))
  }

  /** `s.strip()` is the slice of `s` left once the whitespace at both ends is cut: some cut
      point has only whitespace before it and only whitespace after the result. As the result
      has no whitespace at either end, this fixes it. */
  lemma StripSpaceAround(s: string)
    ensures SpaceAround(s, Strip(s))
  {
    SliceBetweenSpace(s, StripLeft(s), StripRight(StripLeft(s)));
  }

  /** `l` is what `lstrip()` leaves of `s`, and `r` what `rstrip()` leaves of `l`. */
  predicate LeftCut(s: string, l: string) {
    && |l| <= |s| && l == s[|s| - |l|..]
    && (l != "" ==> !IsSpace(l[0]))
    && (forall i :: 0 <= i < |s| - |l| ==> IsSpace(s[i]))
  }

  predicate RightCut(l: string, r: string) {
    && |r| <= |l| && r == l[..|r|]
    && (r != "" ==> !IsSpace(r[|r| - 1]))
    && (forall i :: |r| <= i < |l| ==> IsSpace(l[i]))
  }

  /** Cutting the leading and then the trailing whitespace of `s` leaves a slice of `s`
      with only whitespace around it. */
  lemma SliceBetweenSpace(s: string, l: string, r: string)
    requires LeftCut(s, l) && RightCut(l, r)
    ensures SpaceAround(s, r)
  {
    var k := |s| - |l|;
    assert r == s[k..k + |r|];
    forall i | 0 <= i < k
      ensures IsSpace(s[..k][i])
    {
      assert s[..k][i] == s[i];
    }
    var t := s[k + |r|..];
    forall i | 0 <= i < |t|
      ensures IsSpace(t[i])
    {
      assert t[i] == l[|r| + i];
    }
    assert r == s[k..k + |r|] && AllSpaces(s[..k]) && AllSpaces(s[k + |r|..]);
  }

  /** `c.lower()` for ASCII and Latin-1 letters. */
  function LowerChar(c: char): char {
    if 'A' <= c <= 'Z' || ('\U{C0}' <= c <= '\U{DE}' && c != '\U{D7}') then (c as int + 32) as char else c
  }

  /** `c.upper()` for ASCII and Latin-1 letters whose upper case is one character. */
  function UpperChar(c: char): char {
    if 'a' <= c <= 'z' || ('\U{E0}' <= c <= '\U{FE}' && c != '\U{F7}') then (c as int - 32) as char
    else if c == '\U{FF}' then '\U{178}'
    else if c == '\U{B5}' then '\U{39C}'
    else c
  }

  function Lower(s: string): (r: string)
    ensures |r| == |s| && forall i :: 0 <= i < |s| ==> r[i] == LowerChar(s[i])
  {
    if s == "" then "" else [LowerChar(s[0])] + Lower(s[1..])
  }

  function Upper(s: string): (r: string)
    ensures |r| == |s| && forall i :: 0 <= i < |s| ==> r[i] == UpperChar(s[i])
  {
    if s == "" then "" else [UpperChar(s[0])] + Upper(s[1..])
  }

  /** Python's `t in s` for strings. */
  predicate Contains(s: string, t: string) {
    exists i :: 0 <= i <= |s| - |t| && OccursAt(s, t, i)
  }

  predicate OccursAt(s: string, t: string, i: int) {
    0 <= i && i + |t| <= |s| && s[i..i + |t|] == t
  }

  /** `t in s.lower()` as soon as the characters of `s` at offset `i` lower-case to `t`. */
  lemma LowerContains(s: string, t: string, i: nat)
    requires i + |t| <= |s|
    requires forall k :: 0 <= k < |t| ==> LowerChar(s[i + k]) == t[k]
    ensures Contains(Lower(s), t)
  {
    var l := Lower(s);
    assert l[i..i + |t|] == t;
    assert OccursAt(l, t, i);
  }

  predicate StartsWith(s: string, t: string) {
    |t| <= |s| && s[..|t|] == t
  }

  /** `s.split(c)[-1]`: the longest suffix of `s` that does not contain `c`. */
  function AfterLast(s: string, c: char): (r: string)
    ensures |r| <= |s| && r == s[|s| - |r|..]
    ensures c !in r
    ensures |r| < |s| ==> s[|s| - |r| - 1] == c
  {
    if s == "" then ""
    else if s[|s| - 1] == c then ""
    else AfterLast(s[..|s| - 1], c) + [s[|s| - 1]]
  }

  /** `s.replace(a, b)` for single characters. */
  function ReplaceChar(s: string, a: char, b: char): (r: string)
    ensures |r| == |s| && forall i :: 0 <= i < |s| ==> r[i] == if s[i] == a then b else s[i]
  {
    if s == "" then "" else [if s[0] == a then b else s[0]] + ReplaceChar(s[1..], a, b)
  }

  /** Python's `in` on strings: the empty string is in every string and a string is in itself;
      a string found in `s` is no longer than `s` and is still found once text is added around `s`. */
  lemma ContainsFacts(s: string, t: string, a: string, b: string)
    ensures Contains(s, "") && Contains(s, s)
    ensures Contains(s, t) ==> |t| <= |s| && Contains(a + s + b, t)
  {
    assert OccursAt(s, "", 0);
    assert OccursAt(s, s, 0);
    if Contains(s, t) {
      var i :| 0 <= i <= |s| - |t| && OccursAt(s, t, i);
      var u := a + s + b;
      assert u[|a| + i..|a| + i + |t|] == s[i..i + |t|];
      assert OccursAt(u, t, |a| + i);
    }
  }

  /** `''.join(parts)` */
  function Concat(parts: seq<string>): string {
    if parts == [] then "" else parts[0] + Concat(parts[1..])
  }

  /** `''.join` of two lists of parts is the concatenation of their joins. */
  lemma {:induction false} ConcatAppend(a: seq<string>, b: seq<string>)
    ensures Concat(a + b) == Concat(a) + Concat(b)
  {
    if a == [] {
      assert a + b == b;
    } else {
      assert (a + b)[1..] == a[1..] + b;
      ConcatAppend(a[1..], b);
    }
  }

  /** Joining non-empty parts that have no whitespace at their ends gives a string without
      whitespace at its ends. */
  lemma {:induction false} ConcatNoOuterSpace(parts: seq<string>)
    requires forall k :: 0 <= k < |parts| ==> parts[k] != "" && NoOuterSpace(parts[k])
    ensures NoOuterSpace(Concat(parts))
  {
    if parts != [] {
      ConcatNoOuterSpace(parts[1..]);
      var rest := Concat(parts[1..]);
      var c := parts[0] + rest;
      assert c[0] == parts[0][0];
      if rest == "" {
        assert c == parts[0];
      } else {
        assert c[|c| - 1] == rest[|rest| - 1];
      }
    }
  }

  /** `sep.join(parts)` */
  function Join(parts: seq<string>, sep: string): string {
    if parts == [] then ""
    else if |parts| == 1 then parts[0]
    else parts[0] + sep + Join(parts[1..], sep)
  }

  /** Every part occurs in `sep.join(parts)`: `' '.join(classes)` contains each class name. */
  lemma {:induction false} JoinContains(parts: seq<string>, sep: string, i: nat)
    requires i < |parts|
    ensures Contains(Join(parts, sep), parts[i])
  {
    var j := Join(parts, sep);
    if |parts| == 1 || i == 0 {
      assert j[..|parts[0]|] == parts[0];
      assert OccursAt(j, parts[0], 0);
    } else {
      JoinContains(parts[1..], sep, i - 1);
      var rest := Join(parts[1..], sep);
      var t := parts[1..][i - 1];
      var k :| 0 <= k <= |rest| - |t| && OccursAt(rest, t, k);
      var off := |parts[0]| + |sep|;
      assert j == parts[0] + sep + rest;
      assert j[off + k..off + k + |t|] == rest[k..k + |t|];
      assert OccursAt(j, t, off + k);
    }
  }

  predicate IsDigit(c: char) {
    '0' <= c <= '9'
  }

  predicate AllDigits(s: string) {
    |s| > 0 && forall i :: 0 <= i < |s| ==> IsDigit(s[i])
  }

  function DigitsValue(ds: string): nat
    requires forall i :: 0 <= i < |ds| ==> IsDigit(ds[i])
  {
    if ds == "" then 0 else DigitsValue(ds[..|ds| - 1]) * 10 + DigitValue(ds[|ds| - 1])
  }

  function DigitValue(c: char): nat
    requires IsDigit(c)
  {
    c as int - '0' as int
  }

  predicate IsSign(c: char) {
    c == '+' || c == '-'
  }

  /** `int(s)` on an already stripped string: an optional sign and decimal digits;
      any other text makes Python raise, which is `None` here. */
  function ParseInt(s: string): (r: Option<int>)
    ensures r.Some? <==> AllDigits(s) || (|s| > 0 && IsSign(s[0]) && AllDigits(s[1..]))
    ensures r.Some? && s[0] != '-' ==> r.value >= 0
  {
    if AllDigits(s) then Some(DigitsValue(s))
    else if |s| > 0 && IsSign(s[0]) && AllDigits(s[1..]) then
      var v: int := DigitsValue(s[1..]);
      Some(if s[0] == '-' then -v else v)
    else None
  }

  function DigitChar(d: nat): (c: char)
    requires d < 10
    ensures IsDigit(c) && c as int - '0' as int == d
  {
    ('0' as int + d) as char
  }

  /** `str(n)` for a non-negative integer. */
  function ShowNat(n: nat): (s: string)
    ensures AllDigits(s)
  {
    if n < 10 then [DigitChar(n)] else ShowNat(n / 10) + [DigitChar(n % 10)]
  }

  /** `str(n)` */
  function ShowInt(n: int): string {
    if n < 0 then "-" + ShowNat(-n) else ShowNat(n)
  }

  lemma {:induction false} DigitsValueShowNat(n: nat)
    ensures DigitsValue(ShowNat(n)) == n
  {
    if n >= 10 {
      var s := ShowNat(n);
      assert s[..|s| - 1] == ShowNat(n / 10);
      DigitsValueShowNat(n / 10);
    }
  }

  /** `int(str(n)) == n`: the count parser reads back every integer Python prints. */
  lemma ParseIntShowInt(n: int)
    ensures ParseInt(ShowInt(n)) == Some(n)
  {
    if n < 0 {
      var s := ShowInt(n);
      assert s[1..] == ShowNat(-n);
      assert !AllDigits(s) by { assert !IsDigit(s[0]); }
      DigitsValueShowNat(-n);
    } else {
      DigitsValueShowNat(n);
    }
  }
}
