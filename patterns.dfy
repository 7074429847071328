/**
 * `re.search` for the two regular expressions of the core, both of the shape
 *
 *   prefix ([^']+) sep [\s*] open ([^']+) suffix
 *
 * where `sep` and `suffix` begin with a quote. A `[^']+` group followed by a quote can
 * only match the longest quote-free run, and `\s*` followed by a quote only the longest
 * whitespace run, so backtracking never changes the outcome and a left-to-right scan that
 * takes those longest runs computes what `re.search` computes: the groups of the match at
 * the first position where one exists.
 */
module Patterns {
  import opened Wrappers
  import opened PyText

  datatype TwoGroupPattern = TwoGroupPattern(prefix: string, sep: string, spaces: bool, open: string, suffix: string)

  /** `lireMessage\('([^']+)',\s*'([^']+)'\)` (scraper_messages.py line 288) */
  const LireMessage := TwoGroupPattern("lireMessage('", "',", true, "'", "')")

  /** `__doPostBack\('([^']+)','([^']+)'\)` (notifs.py line 111): no space after the comma */
  const DoPostBack := TwoGroupPattern("__doPostBack('", "','", false, "", "')")

  /** The shape the scan relies on: each group is followed by a quote, and an optional
      whitespace run is followed by something that is not whitespace. */
  predicate WellFormed(p: TwoGroupPattern) {
    && |p.sep| > 0 && p.sep[0] == '\''
    && |p.suffix| > 0 && p.suffix[0] == '\''
    && (p.spaces ==> |p.open| > 0 && !IsSpace(p.open[0]))
  }

  lemma PatternsWellFormed()
    ensures WellFormed(LireMessage) && WellFormed(DoPostBack)
  {
  }

  predicate QuoteFree(g: string) {
    forall k :: 0 <= k < |g| ==> g[k] != '\''
  }

  /** The text the pattern matches with groups `g1`, `g2` and whitespace `w`. */
  function Instance(p: TwoGroupPattern, g1: string, w: string, g2: string): string {
    p.prefix + (g1 + (p.sep + (w + (p.open + (g2 + p.suffix)))))
  }

  predicate ValidGroups(p: TwoGroupPattern, g1: string, w: string, g2: string) {
    && g1 != "" && QuoteFree(g1)
    && g2 != "" && QuoteFree(g2)
    && (if p.spaces then AllSpaces(w) else w == "")
  }

  /** `lit` occurs in `s` at position `i`. */
  predicate At(s: string, i: nat, lit: string) {
    i + |lit| <= |s| && forall k :: 0 <= k < |lit| ==> s[i + k] == lit[k]
  }

  /** The regular expression matches at position `i` with these groups: `s[i..]` begins with
      `Instance(p, g1, w, g2)`, read piece by piece. */
  predicate OccursWith(p: TwoGroupPattern, s: string, i: nat, g1: string, w: string, g2: string) {
    At(s, i, p.prefix) && HeadWith(p, s, i + |p.prefix|, g1, w, g2)
  }

  /** The part of an occurrence after the prefix, starting at `a`. */
  predicate HeadWith(p: TwoGroupPattern, s: string, a: nat, g1: string, w: string, g2: string) {
    && g1 != "" && QuoteFree(g1)
    && At(s, a, g1) && At(s, a + |g1|, p.sep)
    && TailWith(p, s, a + |g1| + |p.sep|, w, g2)
  }

  /** The part of an occurrence after the separator, starting at `c`. */
  predicate TailWith(p: TwoGroupPattern, s: string, c: nat, w: string, g2: string) {
    var d := c + |w|;
    var e := d + |p.open|;
    && g2 != "" && QuoteFree(g2)
    && (if p.spaces then AllSpaces(w) else w == "")
    && At(s, c, w) && At(s, d, p.open) && At(s, e, g2) && At(s, e + |g2|, p.suffix)
  }

  /** End of the longest quote-free run starting at `i`. */
  function GroupEnd(s: string, i: nat): (j: nat)
    requires i <= |s|
    ensures i <= j <= |s|
    decreases |s| - i
  {
    if i == |s| || s[i] == '\'' then i else GroupEnd(s, i + 1)
  }

  lemma {:induction false} GroupEndProperties(s: string, i: nat)
    requires i <= |s|
    ensures forall k :: i <= k < GroupEnd(s, i) ==> s[k] != '\''
    ensures GroupEnd(s, i) < |s| ==> s[GroupEnd(s, i)] == '\''
    decreases |s| - i
  {
    if !(i == |s| || s[i] == '\'') {
      GroupEndProperties(s, i + 1);
    }
  }

  /** End of the longest whitespace run starting at `i`. */
  function SpaceEnd(s: string, i: nat): (j: nat)
    requires i <= |s|
    ensures i <= j <= |s|
    decreases |s| - i
  {
    if i == |s| || !IsSpace(s[i]) then i else SpaceEnd(s, i + 1)
  }

  lemma {:induction false} SpaceEndProperties(s: string, i: nat)
    requires i <= |s|
    ensures forall k :: i <= k < SpaceEnd(s, i) ==> IsSpace(s[k])
    decreases |s| - i
  {
    if !(i == |s| || !IsSpace(s[i])) {
      SpaceEndProperties(s, i + 1);
    }
  }

  /** The match anchored at position `i`, if any. */
  function MatchAt(p: TwoGroupPattern, s: string, i: nat): Option<(string, string)>
    requires i <= |s|
  {
    if !At(s, i, p.prefix) then None else MatchFirstGroup(p, s, i + |p.prefix|)
  }

  /** The rest of the match once the prefix has been read up to `a`. */
  function MatchFirstGroup(p: TwoGroupPattern, s: string, a: nat): Option<(string, string)>
    requires a <= |s|
  {
    var b := GroupEnd(s, a);
    if b == a || !At(s, b, p.sep) then None else MatchSecondGroup(p, s, b + |p.sep|, s[a..b])
  }

  /** The rest of the match once the first group `g1` and the separator have been read up to `c`. */
  function MatchSecondGroup(p: TwoGroupPattern, s: string, c: nat, g1: string): Option<(string, string)>
    requires c <= |s|
  {
    var d := if p.spaces then SpaceEnd(s, c) else c;
    if !At(s, d, p.open) then None
    else
      var e := d + |p.open|;
      var f := GroupEnd(s, e);
      if f == e || !At(s, f, p.suffix) then None else Some((g1, s[e..f]))
  }

  function SearchFrom(p: TwoGroupPattern, s: string, i: nat): Option<(string, string)>
    requires i <= |s|
    decreases |s| - i
  {
    if MatchAt(p, s, i).Some? then MatchAt(p, s, i)
    else if i == |s| then None
    else SearchFrom(p, s, i + 1)
  }

  /** `re.search(p, s)`, giving the two groups of the first match. */
  function Search(p: TwoGroupPattern, s: string): Option<(string, string)> {
    SearchFrom(p, s, 0)
  }

  /** `At` as a slice. */
  lemma AtSlice(s: string, i: nat, lit: string)
    requires At(s, i, lit)
    ensures s[i..i + |lit|] == lit
  {
  }

  lemma AtFirst(s: string, i: nat, lit: string)
    requires At(s, i, lit) && |lit| > 0
    ensures i < |s| && s[i] == lit[0]
  {
    assert s[i + 0] == lit[0];
  }

  /** `At` through a containing string. */
  lemma AtTrans(s: string, i: nat, t: string, j: nat, u: string)
    requires At(s, i, t) && At(t, j, u)
    ensures At(s, i + j, u)
  {
    forall k | 0 <= k < |u| ensures s[i + j + k] == u[k] {
      assert t[j + k] == u[k];
      assert s[i + (j + k)] == t[j + k];
    }
  }

  lemma AtConcat(x: string, y: string)
    ensures At(x + y, 0, x) && At(x + y, |x|, y)
  {
    forall k | 0 <= k < |y| ensures (x + y)[|x| + k] == y[k] {
    }
  }

  lemma GroupRun(s: string, a: nat, g: string)
    requires At(s, a, g) && QuoteFree(g) && a + |g| < |s| && s[a + |g|] == '\''
    ensures GroupEnd(s, a) == a + |g|
  {
    forall k | a <= k < a + |g| ensures s[k] != '\'' {
      assert s[a + (k - a)] == g[k - a];
    }
    GroupEndAt(s, a, a + |g|);
  }

  lemma SpaceRun(s: string, c: nat, w: string)
    requires At(s, c, w) && AllSpaces(w) && c + |w| < |s| && !IsSpace(s[c + |w|])
    ensures SpaceEnd(s, c) == c + |w|
  {
    forall k | c <= k < c + |w| ensures IsSpace(s[k]) {
      assert s[c + (k - c)] == w[k - c];
    }
    SpaceEndAt(s, c, c + |w|);
  }

  lemma {:induction false} GroupEndAt(s: string, i: nat, j: nat)
    requires i <= j < |s| && s[j] == '\''
    requires forall k :: i <= k < j ==> s[k] != '\''
    ensures GroupEnd(s, i) == j
    decreases j - i
  {
    if i < j {
      GroupEndAt(s, i + 1, j);
    }
  }

  lemma {:induction false} SpaceEndAt(s: string, i: nat, j: nat)
    requires i <= j < |s| && !IsSpace(s[j])
    requires forall k :: i <= k < j ==> IsSpace(s[k])
    ensures SpaceEnd(s, i) == j
    decreases j - i
  {
    if i < j {
      SpaceEndAt(s, i + 1, j);
    }
  }

  lemma SecondGroupComplete(p: TwoGroupPattern, s: string, c: nat, g1: string, w: string, g2: string)
    requires WellFormed(p) && c <= |s| && TailWith(p, s, c, w, g2)
    ensures MatchSecondGroup(p, s, c, g1) == Some((g1, g2))
  {
    var d := c + |w|;
    var e := d + |p.open|;
    var f := e + |g2|;
    if p.spaces {
      AtFirst(s, d, p.open);
      SpaceRun(s, c, w);
    }
    AtFirst(s, f, p.suffix);
    GroupRun(s, e, g2);
    AtSlice(s, e, g2);
  }

  lemma FirstGroupComplete(p: TwoGroupPattern, s: string, a: nat, g1: string)
    requires WellFormed(p) && a <= |s|
    requires g1 != "" && QuoteFree(g1) && At(s, a, g1) && At(s, a + |g1|, p.sep)
    ensures MatchFirstGroup(p, s, a) == MatchSecondGroup(p, s, a + |g1| + |p.sep|, g1)
  {
    AtFirst(s, a + |g1|, p.sep);
    GroupRun(s, a, g1);
    AtSlice(s, a, g1);
  }

  lemma HeadComplete(p: TwoGroupPattern, s: string, a: nat, g1: string, w: string, g2: string)
    requires WellFormed(p) && a <= |s| && HeadWith(p, s, a, g1, w, g2)
    ensures MatchFirstGroup(p, s, a) == Some((g1, g2))
  {
    FirstGroupComplete(p, s, a, g1);
    SecondGroupComplete(p, s, a + |g1| + |p.sep|, g1, w, g2);
  }

  /** Every occurrence is found by the anchored scan, with its own groups. */
  lemma MatchAtComplete(p: TwoGroupPattern, s: string, i: nat, g1: string, w: string, g2: string)
    requires WellFormed(p) && i <= |s| && OccursWith(p, s, i, g1, w, g2)
    ensures MatchAt(p, s, i) == Some((g1, g2))
  {
    HeadComplete(p, s, i + |p.prefix|, g1, w, g2);
  }

  /** The whitespace the anchored scan skips after the separator. */
  function SkippedSpaces(p: TwoGroupPattern, s: string, c: nat): string
    requires c <= |s|
  {
    if p.spaces then s[c..SpaceEnd(s, c)] else ""
  }

  lemma SecondGroupSound(p: TwoGroupPattern, s: string, c: nat, g1: string)
    requires c <= |s| && MatchSecondGroup(p, s, c, g1).Some?
    ensures MatchSecondGroup(p, s, c, g1).value.0 == g1
    ensures TailWith(p, s, c, SkippedSpaces(p, s, c), MatchSecondGroup(p, s, c, g1).value.1)
  {
    var d := if p.spaces then SpaceEnd(s, c) else c;
    var e := d + |p.open|;
    var f := GroupEnd(s, e);
    var w, g2 := s[c..d], s[e..f];
    GroupEndProperties(s, e);
    if p.spaces {
      SpaceEndProperties(s, c);
    }
    assert At(s, c, w);
    assert At(s, e, g2);
  }

  /** The whitespace an anchored match skipped, once the prefix has been read up to `a`. */
  function FirstSpaces(p: TwoGroupPattern, s: string, a: nat): string
    requires a <= |s|
  {
    var b := GroupEnd(s, a);
    if b + |p.sep| <= |s| then SkippedSpaces(p, s, b + |p.sep|) else ""
  }

  /** The whitespace an anchored match skipped. */
  function MatchSpaces(p: TwoGroupPattern, s: string, i: nat): string
    requires i <= |s|
  {
    if i + |p.prefix| <= |s| then FirstSpaces(p, s, i + |p.prefix|) else ""
  }

  lemma FirstGroupSound(p: TwoGroupPattern, s: string, a: nat)
    requires a <= |s| && MatchFirstGroup(p, s, a).Some?
    ensures HeadWith(p, s, a, MatchFirstGroup(p, s, a).value.0, FirstSpaces(p, s, a), MatchFirstGroup(p, s, a).value.1)
  {
    var b := GroupEnd(s, a);
    var g1 := s[a..b];
    GroupEndProperties(s, a);
    assert At(s, a, g1);
    assert QuoteFree(g1) by {
      forall k | 0 <= k < |g1| ensures g1[k] != '\'' {
        assert g1[k] == s[a + k];
      }
    }
    SecondGroupSound(p, s, b + |p.sep|, g1);
  }

  /** An anchored match succeeds only with the groups of an occurrence at that position. */
  lemma MatchAtSound(p: TwoGroupPattern, s: string, i: nat)
    requires i <= |s| && MatchAt(p, s, i).Some?
    ensures OccursWith(p, s, i, MatchAt(p, s, i).value.0, MatchSpaces(p, s, i), MatchAt(p, s, i).value.1)
  {
    FirstGroupSound(p, s, i + |p.prefix|);
  }

  /** When `re.search` returns groups, they are those of an occurrence of the pattern, and
      no earlier position matches. */
  lemma SearchFromHere(p: TwoGroupPattern, s: string, i: nat)
    requires i <= |s| && MatchAt(p, s, i).Some?
    ensures SearchFrom(p, s, i).Some?
    ensures OccursWith(p, s, i, SearchFrom(p, s, i).value.0, MatchSpaces(p, s, i), SearchFrom(p, s, i).value.1)
  {
    MatchAtSound(p, s, i);
  }

  lemma SearchFromSkip(p: TwoGroupPattern, s: string, i: nat)
    requires i <= |s| && MatchAt(p, s, i).None? && SearchFrom(p, s, i).Some?
    ensures i < |s| && SearchFrom(p, s, i) == SearchFrom(p, s, i + 1)
  {
  }

  lemma {:induction false} SearchFromSome(p: TwoGroupPattern, s: string, i: nat)
    requires i <= |s| && SearchFrom(p, s, i).Some?
    ensures exists j: nat, w ::
              && i <= j <= |s| && (forall k: nat :: i <= k < j ==> MatchAt(p, s, k).None?)
              && OccursWith(p, s, j, SearchFrom(p, s, i).value.0, w, SearchFrom(p, s, i).value.1)
    decreases |s| - i
  {
    if MatchAt(p, s, i).Some? {
      SearchFromHere(p, s, i);
    } else {
      SearchFromSkip(p, s, i);
      var r := SearchFrom(p, s, i + 1);
      SearchFromSome(p, s, i + 1);
      var j: nat, w :| && i + 1 <= j <= |s| && (forall k: nat :: i + 1 <= k < j ==> MatchAt(p, s, k).None?)
                       && OccursWith(p, s, j, r.value.0, w, r.value.1);
      assert forall k: nat :: i <= k < j ==> MatchAt(p, s, k).None?;
    }
  }

  /** `re.search` returns `None` only when the pattern occurs nowhere. */
  lemma {:induction false} SearchFromNone(p: TwoGroupPattern, s: string, i: nat, j: nat, g1: string, w: string, g2: string)
    requires WellFormed(p) && i <= j <= |s| && OccursWith(p, s, j, g1, w, g2)
    ensures SearchFrom(p, s, i).Some?
    decreases j - i
  {
    if MatchAt(p, s, i).None? {
      if i == j {
        MatchAtComplete(p, s, j, g1, w, g2);
      } else {
        SearchFromNone(p, s, i + 1, j, g1, w, g2);
      }
    }
  }

  /** If `x + y` sits at `i`, then so do `x` and `y`, one after the other. */
  lemma AtSplit(s: string, i: nat, x: string, y: string)
    requires At(s, i, x + y)
    ensures At(s, i, x) && At(s, i + |x|, y)
  {
    AtConcat(x, y);
    AtTrans(s, i, x + y, 0, x);
    AtTrans(s, i, x + y, |x|, y);
  }

  lemma InstanceTail(p: TwoGroupPattern, s: string, c: nat, w: string, g2: string)
    requires g2 != "" && QuoteFree(g2) && (if p.spaces then AllSpaces(w) else w == "")
    requires At(s, c, w + (p.open + (g2 + p.suffix)))
    ensures TailWith(p, s, c, w, g2)
  {
    AtSplit(s, c, w, p.open + (g2 + p.suffix));
    AtSplit(s, c + |w|, p.open, g2 + p.suffix);
    AtSplit(s, c + |w| + |p.open|, g2, p.suffix);
  }

  lemma InstanceHead(p: TwoGroupPattern, s: string, a: nat, g1: string, w: string, g2: string)
    requires ValidGroups(p, g1, w, g2)
    requires At(s, a, g1 + (p.sep + (w + (p.open + (g2 + p.suffix)))))
    ensures HeadWith(p, s, a, g1, w, g2)
  {
    AtSplit(s, a, g1, p.sep + (w + (p.open + (g2 + p.suffix))));
    AtSplit(s, a + |g1|, p.sep, w + (p.open + (g2 + p.suffix)));
    InstanceTail(p, s, a + |g1| + |p.sep|, w, g2);
  }

  /** The pieces of `Instance(p, g1, w, g2)` sit where `OccursWith` expects them. */
  lemma InstanceOccurs(p: TwoGroupPattern, g1: string, w: string, g2: string)
    requires ValidGroups(p, g1, w, g2)
    ensures OccursWith(p, Instance(p, g1, w, g2), 0, g1, w, g2)
  {
    AtConcat(p.prefix, g1 + (p.sep + (w + (p.open + (g2 + p.suffix)))));
    InstanceHead(p, Instance(p, g1, w, g2), |p.prefix|, g1, w, g2);
  }

  /** Matching the text the pattern itself describes yields back its two groups. */
  lemma SearchInstance(p: TwoGroupPattern, g1: string, w: string, g2: string)
    requires WellFormed(p) && ValidGroups(p, g1, w, g2)
    ensures Search(p, Instance(p, g1, w, g2)) == Some((g1, g2))
  {
    InstanceOccurs(p, g1, w, g2);
    MatchAtComplete(p, Instance(p, g1, w, g2), 0, g1, w, g2);
  }
}
