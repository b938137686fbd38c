/**
 * The two regular-expression shapes the profile extractors share.
 *
 * A section is `/Head([\s\S]*?)(?=Stop1|Stop2|...|$)/i`: the leftmost head, then
 * the shortest content after which one of the stops begins, or the end of the
 * text. A capture is `\s*([^X]+)` (or `\s+([^X]+)`): the greedy spaces give back
 * characters until the class can take at least one.
 */
module Segments {
  import opened Wrappers
  import opened Text

  /** Where the head was found, and where its content starts and ends. */
  datatype Section = Section(at: nat, start: nat, end: nat)

  /** One of `heads` begins at `p`. */
  function HeadIn(t: string, heads: seq<string>): (p: nat -> bool)
    ensures forall k: nat :: p(k) == CiAtAny(t, k, heads)
  {
    (k: nat) => CiAtAny(t, k, heads)
  }

  /** The match of `/(?:H1|H2|...)([\s\S]*?)(?=S1|S2|...|$)/i` on `t`. */
  function SectionOf(t: string, heads: seq<string>, stops: seq<string>): (r: Option<Section>)
    ensures r.None? <==> forall p :: 0 <= p <= |t| ==> !CiAtAny(t, p, heads)
    ensures r.Some? ==> r.value.at <= r.value.start <= r.value.end <= |t|
    ensures r.Some? ==> CiAtAny(t, r.value.at, heads) && forall p :: 0 <= p < r.value.at ==> !CiAtAny(t, p, heads)
    ensures r.Some? ==> r.value.start == r.value.at + |FirstAlternative(t, r.value.at, heads)|
    ensures r.Some? ==> forall k :: r.value.start <= k < r.value.end ==> !CiAtAny(t, k, stops)
    ensures r.Some? ==> r.value.end == |t| || CiAtAny(t, r.value.end, stops)
  {
    match FirstFrom(0, |t| + 1, HeadIn(t, heads))
    case None => None
    case Some(p) =>
      var h := p + |FirstAlternative(t, p, heads)|;
      var e := match FirstFrom(h, |t|, HeadIn(t, stops)) case Some(e) => e case None => |t|;
      Some(Section(p, h, e))
  }

  /** The captured content of the section, when the head occurs. */
  function SectionText(t: string, heads: seq<string>, stops: seq<string>): (r: Option<string>)
    ensures r.None? <==> SectionOf(t, heads, stops).None?
  {
    match SectionOf(t, heads, stops)
    case None => None
    case Some(sec) => Some(t[sec.start..sec.end])
  }

  /** `split('\n')`. */
  function Lines(s: string): (r: seq<string>)
    ensures |r| >= 1
  {
    SplitOn(s, "\n")
  }

  /** The characters a negated class `[^...]` refuses. */
  function Outside(excluded: set<char>): (p: char -> bool)
    ensures forall c :: p(c) == (c !in excluded)
  {
    (c: char) => c !in excluded
  }

  /** A position where `[^...]` can take a character. */
  function TakesAt(s: string, excluded: set<char>): (p: nat -> bool)
    ensures forall k: nat :: p(k) == (k < |s| && s[k] !in excluded)
  {
    (k: nat) => k < |s| && s[k] !in excluded
  }

  /**
   * `\s*([^X]+)` (`least == 0`) or `\s+([^X]+)` (`least == 1`) tried at `a`: the
   * capture's bounds. The spaces are first taken greedily and then given back
   * one by one until the class can take a character, with at least `least` left.
   */
  function CaptureAfterSpaces(s: string, a: nat, least: nat, excluded: set<char>): (r: Option<(nat, nat)>)
    requires a <= |s|
    ensures r.Some? ==> a + least <= r.value.0 < r.value.1 <= |s|
    ensures r.Some? ==> forall k :: a <= k < r.value.0 ==> IsSpace(s[k])
    ensures r.Some? ==> forall k :: r.value.0 <= k < r.value.1 ==> s[k] !in excluded
    ensures r.Some? ==> r.value.1 == |s| || s[r.value.1] in excluded
    ensures r.None? ==> forall k :: a + least <= k <= SpaceEnd(s, a) && k < |s| ==> s[k] in excluded
  {
    match LastBelow(a + least, SpaceEnd(s, a) + 1, TakesAt(s, excluded))
    case None => None
    case Some(g) => Some((g, RunEnd(s, g, Outside(excluded))))
  }

  /** When the spaces are followed by a character the class takes, the capture starts right there. */
  lemma CaptureAtFirstNonSpace(s: string, a: nat, least: nat, excluded: set<char>)
    requires a <= |s| && a + least <= SpaceEnd(s, a) < |s| && s[SpaceEnd(s, a)] !in excluded
    ensures CaptureAfterSpaces(s, a, least, excluded) == Some((SpaceEnd(s, a), RunEnd(s, SpaceEnd(s, a), Outside(excluded))))
  {
  }
}
