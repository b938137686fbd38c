/**
 * Character classes and string scanners shared by every extractor.
 *
 * The extractors are written with JavaScript regular expressions. Each one is
 * modelled by a scanner built from the pieces below: a maximal run of a class
 * (`RunEnd`), the leftmost position where a pattern starts (`FirstFrom`, which is
 * how `String.prototype.match` without `g` picks its match), and the greatest
 * position a greedy quantifier settles on after backtracking (`LastBelow`).
 */
module Text {
  import opened Wrappers

  // ---------------------------------------------------------------- classes

  /** JavaScript's `\s`; `String.prototype.trim` removes exactly these characters. */
  predicate IsSpace(c: char)
  {
    c == ' ' || c == '\t' || c == '\n' || c == '\r' || c == '\U{B}' || c == '\U{C}' ||
    c == '\U{A0}' || c == '\U{1680}' || ('\U{2000}' <= c <= '\U{200A}') ||
    c == '\U{2028}' || c == '\U{2029}' || c == '\U{202F}' || c == '\U{205F}' ||
    c == '\U{3000}' || c == '\U{FEFF}'
  }

  /** Where `^` and `$` anchor in multiline mode, and what `.` refuses to match. */
  predicate IsLineTerminator(c: char)
  {
    c == '\n' || c == '\r' || c == '\U{2028}' || c == '\U{2029}'
  }

  predicate IsDigit(c: char) { '0' <= c <= '9' }
  predicate IsUpper(c: char) { 'A' <= c <= 'Z' }
  predicate IsLower(c: char) { 'a' <= c <= 'z' }
  predicate IsLetter(c: char) { IsUpper(c) || IsLower(c) }

  /** `\w`, which decides where `\b` holds. */
  predicate IsWordChar(c: char) { IsLetter(c) || IsDigit(c) || c == '_' }

  /** `[A-ZÀ-ß]`: the capital class of the name and institution patterns (U+00C0 to U+00DF). */
  predicate IsLatinCapital(c: char) { IsUpper(c) || ('\U{C0}' <= c <= '\U{DF}') }

  lemma LatinCapitalNotSpace(c: char)
    requires IsLatinCapital(c)
    ensures !IsSpace(c)
  {
  }

  /** `toLowerCase` on one character (ASCII and Latin-1). */
  function Lower(c: char): char
  {
    if IsUpper(c) || ('\U{C0}' <= c <= '\U{DE}' && c != '\U{D7}') then (c as int + 32) as char else c
  }

  function LowerAll(s: string): (r: string)
    ensures |r| == |s| && forall i :: 0 <= i < |s| ==> r[i] == Lower(s[i])
  {
    seq(|s|, i requires 0 <= i < |s| => Lower(s[i]))
  }

  /**
   * The canonical form two characters share when a case-insensitive (`/i`, non-Unicode)
   * pattern treats them as equal: their upper case, for ASCII and Latin-1.
   */
  function Canon(c: char): char
  {
    if IsLower(c) || ('\U{E0}' <= c <= '\U{FE}' && c != '\U{F7}') then (c as int - 32) as char
    else if c == '\U{FF}' then '\U{178}'
    else if c == '\U{B5}' then '\U{39C}'
    else c
  }

  // --------------------------------------------------------------- literals

  predicate LitAt(s: string, i: nat, lit: string)
  {
    i + |lit| <= |s| && s[i..i + |lit|] == lit
  }

  /** `lit` occurs at `i` when compared case-insensitively. */
  predicate CiAt(s: string, i: nat, lit: string)
  {
    i + |lit| <= |s| && forall k :: 0 <= k < |lit| ==> Canon(s[i + k]) == Canon(lit[k])
  }

  /** One of the alternatives `lits[0] | lits[1] | ...` occurs at `i`, case-insensitively. */
  predicate CiAtAny(s: string, i: nat, lits: seq<string>)
  {
    exists k :: 0 <= k < |lits| && CiAt(s, i, lits[k])
  }

  /** The alternative a regular expression takes at `i`: the first in order that matches. */
  function FirstAlternative(s: string, i: nat, lits: seq<string>): (r: string)
    requires CiAtAny(s, i, lits)
    ensures CiAt(s, i, r) && r in lits
    ensures exists k :: 0 <= k < |lits| && lits[k] == r && forall m :: 0 <= m < k ==> !CiAt(s, i, lits[m])
    decreases |lits|
  {
    if CiAt(s, i, lits[0]) then lits[0]
    else
      var r := FirstAlternative(s, i, lits[1..]);
      assert forall m :: 1 <= m < |lits| ==> lits[m] == lits[1..][m - 1];
      r
  }

  predicate StartsWith(s: string, prefix: string) { LitAt(s, 0, prefix) }

  /** `String.prototype.includes`. */
  predicate Contains(s: string, lit: string)
  {
    exists k :: 0 <= k <= |s| && LitAt(s, k, lit)
  }

  // ------------------------------------------------------------------ scans

  /** End of the maximal run of `p`-characters starting at `i`. */
  function RunEnd(s: string, i: nat, p: char -> bool): (j: nat)
    requires i <= |s|
    ensures i <= j <= |s|
    ensures forall k :: i <= k < j ==> p(s[k])
    ensures j < |s| ==> !p(s[j])
    decreases |s| - i
  {
    if i < |s| && p(s[i]) then RunEnd(s, i + 1, p) else i
  }

  /** A run is determined by where it stops. */
  lemma {:induction false} RunEndAt(s: string, i: nat, j: nat, p: char -> bool)
    requires i <= j <= |s|
    requires forall k :: i <= k < j ==> p(s[k])
    requires j < |s| ==> !p(s[j])
    ensures RunEnd(s, i, p) == j
    decreases j - i
  {
    if i < j {
      RunEndAt(s, i + 1, j, p);
    }
  }

  /** End of the maximal run of `\s` starting at `i`: where a greedy `\s*` stops. */
  function SpaceEnd(s: string, i: nat): (j: nat)
    requires i <= |s|
    ensures i <= j <= |s|
    ensures forall k :: i <= k < j ==> IsSpace(s[k])
    ensures j < |s| ==> !IsSpace(s[j])
    decreases |s| - i
  {
    if i < |s| && IsSpace(s[i]) then SpaceEnd(s, i + 1) else i
  }

  /** The least `k` in `[i, n)` with `p(k)`: where a leftmost search finds its match. */
  function FirstFrom(i: nat, n: nat, p: nat -> bool): (r: Option<nat>)
    ensures r.Some? ==> i <= r.value < n && p(r.value)
    ensures r.Some? ==> forall k :: i <= k < r.value ==> !p(k)
    ensures r.None? ==> forall k :: i <= k < n ==> !p(k)
    decreases n - i
  {
    if i >= n then None else if p(i) then Some(i) else FirstFrom(i + 1, n, p)
  }

  /** A search finds the least position that matches. */
  lemma FirstFromIs(i: nat, n: nat, p: nat -> bool, m: nat)
    requires i <= m < n && p(m) && forall k :: i <= k < m ==> !p(k)
    ensures FirstFrom(i, n, p) == Some(m)
  {
  }

  /** The greatest `k` in `[lo, hi)` with `p(k)`: where a greedy quantifier settles. */
  function LastBelow(lo: nat, hi: nat, p: nat -> bool): (r: Option<nat>)
    ensures r.Some? ==> lo <= r.value < hi && p(r.value)
    ensures r.Some? ==> forall k :: r.value < k < hi ==> !p(k)
    ensures r.None? ==> forall k :: lo <= k < hi ==> !p(k)
    decreases hi
  {
    if hi <= lo then None else if p(hi - 1) then Some(hi - 1) else LastBelow(lo, hi - 1, p)
  }

  /** The first `c` at or after `i`, or `|s|`. */
  function IndexOfChar(s: string, i: nat, c: char): (j: nat)
    requires i <= |s|
    ensures i <= j <= |s|
    ensures forall k :: i <= k < j ==> s[k] != c
    ensures j < |s| ==> s[j] == c
    decreases |s| - i
  {
    if i < |s| && s[i] != c then IndexOfChar(s, i + 1, c) else i
  }

  /** `^` in multiline mode. */
  predicate IsLineStart(s: string, i: nat)
  {
    i <= |s| && (i == 0 || IsLineTerminator(s[i - 1]))
  }

  /** `.*$` without the multiline flag: no line terminator from `i` to the end. */
  predicate RestOnOneLine(s: string, i: nat)
  {
    forall k :: i <= k < |s| ==> !IsLineTerminator(s[k])
  }

  // ------------------------------------------------------------------- trim

  /** End of `s[lo..hi]` once its trailing `\s` is removed. */
  function TrimEndFrom(s: string, lo: nat, hi: nat): (e: nat)
    requires lo <= hi <= |s|
    ensures lo <= e <= hi
    ensures forall k :: e <= k < hi ==> IsSpace(s[k])
    ensures e > lo ==> !IsSpace(s[e - 1])
    decreases hi
  {
    if hi > lo && IsSpace(s[hi - 1]) then TrimEndFrom(s, lo, hi - 1) else hi
  }

  function TrimLo(s: string): nat
    ensures TrimLo(s) <= |s|
  {
    SpaceEnd(s, 0)
  }

  function TrimHi(s: string): nat
    ensures TrimLo(s) <= TrimHi(s) <= |s|
  {
    TrimEndFrom(s, TrimLo(s), |s|)
  }

  /** No leading and no trailing `\s`: what `trim` leaves. */
  predicate Trimmed(s: string)
  {
    s == [] || (!IsSpace(s[0]) && !IsSpace(s[|s| - 1]))
  }

  /** `String.prototype.trim`. */
  function Trim(s: string): (r: string)
    ensures r == s[TrimLo(s)..TrimHi(s)]
    ensures r == [] || (!IsSpace(r[0]) && !IsSpace(r[|r| - 1]))
    ensures r == [] <==> forall k :: 0 <= k < |s| ==> IsSpace(s[k])
  {
    s[TrimLo(s)..TrimHi(s)]
  }

  /** Trimming leaves a string with no leading or trailing `\s` unchanged. */
  lemma TrimNoop(s: string)
    requires Trimmed(s)
    ensures Trim(s) == s
  {
  }

  /** A piece of a text with no `c` in that range has no `c`. */
  lemma SliceAvoids(t: string, g: nat, e: nat, c: char)
    requires g <= e <= |t| && forall k :: g <= k < e ==> t[k] != c
    ensures forall k :: 0 <= k < |t[g..e]| ==> t[g..e][k] != c
  {
    assert forall k :: 0 <= k < e - g ==> t[g..e][k] == t[g + k];
  }

  /** A piece of a piece is a piece of the whole. */
  lemma SliceOfSlice(s: string, a: nat, b: nat, x: nat, y: nat)
    requires a <= b <= |s| && x <= y <= b - a
    ensures s[a..b][x..y] == s[a + x..a + y]
  {
    assert forall k :: 0 <= k < y - x ==> s[a..b][x..y][k] == s[a + x + k] == s[a + x..a + y][k];
  }

  /** Trimming a text with no `c` leaves none. */
  lemma TrimAvoids(s: string, c: char)
    requires forall k :: 0 <= k < |s| ==> s[k] != c
    ensures forall k :: 0 <= k < |Trim(s)| ==> Trim(s)[k] != c
  {
    SliceAvoids(s, TrimLo(s), TrimHi(s), c);
  }

  lemma TrimIdempotent(s: string)
    ensures Trim(Trim(s)) == Trim(s)
  {
    TrimNoop(Trim(s));
  }

  // --------------------------------------------------------------- collapse

  /** `replace(/\s+/g, ' ')`: every maximal run of `\s` becomes one space. */
  function Collapse(s: string): (r: string)
    ensures |s| > 0 ==> |r| > 0 && r[0] == (if IsSpace(s[0]) then ' ' else s[0])
    ensures |r| <= |s|
    ensures forall k :: 0 <= k < |r| ==> r[k] == ' ' || r[k] in s
    ensures forall k :: 0 <= k < |r| && IsSpace(r[k]) ==> r[k] == ' '
    ensures forall k :: 0 <= k < |r| - 1 ==> !(r[k] == ' ' && r[k + 1] == ' ')
    decreases |s|
  {
    if s == [] then []
    else if IsSpace(s[0]) then [' '] + Collapse(s[SpaceEnd(s, 0)..])
    else [s[0]] + Collapse(s[1..])
  }

  /** A string whose only `\s` is a lone `' '` is left as it is. */
  lemma {:induction false} CollapseNoop(s: string)
    requires forall k :: 0 <= k < |s| && IsSpace(s[k]) ==> s[k] == ' '
    requires forall k :: 0 <= k < |s| - 1 ==> !(s[k] == ' ' && s[k + 1] == ' ')
    ensures Collapse(s) == s
    decreases |s|
  {
    if s != [] {
      if IsSpace(s[0]) {
        assert SpaceEnd(s, 0) == 1 by {
          assert |s| > 1 ==> !IsSpace(s[1]);
        }
      }
      CollapseNoop(s[1..]);
    }
  }

  // ------------------------------------------------------------------ count

  function Count(s: string, c: char): nat
  {
    if s == [] then 0 else (if s[0] == c then 1 else 0) + Count(s[1..], c)
  }

  lemma {:induction false} CountAppend(a: string, b: string, c: char)
    ensures Count(a + b, c) == Count(a, c) + Count(b, c)
  {
    if a == [] {
      assert a + b == b;
    } else {
      assert (a + b)[1..] == a[1..] + b;
      CountAppend(a[1..], b, c);
    }
  }

  /** A slice holds no more of a character than the whole string. */
  lemma CountSlice(s: string, i: nat, j: nat, c: char)
    requires i <= j <= |s|
    ensures Count(s[i..j], c) <= Count(s, c)
  {
    assert s == s[..i] + s[i..j] + s[j..];
    CountAppend(s[..i] + s[i..j], s[j..], c);
    CountAppend(s[..i], s[i..j], c);
  }

  lemma CountTrim(s: string, c: char)
    ensures Count(Trim(s), c) <= Count(s, c)
  {
    CountSlice(s, TrimLo(s), TrimHi(s), c);
  }

  // ------------------------------------------------------------------ split

  /**
   * `String.prototype.split` with a non-empty literal separator (or a regular
   * expression that only matches it): `p` is where the current part began, `q`
   * the position tried next.
   */
  function SplitFrom(s: string, sep: string, p: nat, q: nat): (parts: seq<string>)
    requires |sep| > 0 && p <= q <= |s|
    ensures |parts| >= 1
    decreases |s| - q
  {
    if q >= |s| then [s[p..]]
    else if LitAt(s, q, sep) then [s[p..q]] + SplitFrom(s, sep, q + |sep|, q + |sep|)
    else SplitFrom(s, sep, p, q + 1)
  }

  function SplitOn(s: string, sep: string): (parts: seq<string>)
    requires |sep| > 0
    ensures |parts| >= 1
  {
    SplitFrom(s, sep, 0, 0)
  }

  /** The first part runs up to the first separator; there are two parts or more exactly when one occurs. */
  lemma {:induction false} SplitFromHead(s: string, sep: string, p: nat, q: nat)
    requires |sep| > 0 && p <= q <= |s|
    ensures var f := FirstFrom(q, |s|, (k: nat) => LitAt(s, k, sep));
            var parts := SplitFrom(s, sep, p, q);
            (f.None? ==> parts == [s[p..]]) &&
            (f.Some? ==> |parts| >= 2 && parts[0] == s[p..f.value])
    decreases |s| - q
  {
    if q < |s| && !LitAt(s, q, sep) {
      SplitFromHead(s, sep, p, q + 1);
    }
  }

  // ------------------------------------------------------------------- join

  /** `Array.prototype.join`. */
  function Join(parts: seq<string>, sep: string): string
  {
    if parts == [] then "" else if |parts| == 1 then parts[0] else parts[0] + sep + Join(parts[1..], sep)
  }

  // ------------------------------------------------------------------ order

  /** JavaScript's default string order, compared character by character. */
  predicate StrLe(a: string, b: string)
    decreases |a|
  {
    a == [] || (b != [] && (a[0] < b[0] || (a[0] == b[0] && StrLe(a[1..], b[1..]))))
  }

  lemma {:induction false} StrLeTotal(a: string, b: string)
    ensures StrLe(a, b) || StrLe(b, a)
    decreases |a|
  {
    if a != [] && b != [] && a[0] == b[0] {
      StrLeTotal(a[1..], b[1..]);
    }
  }

  lemma {:induction false} StrLeAntisymmetric(a: string, b: string)
    requires StrLe(a, b) && StrLe(b, a)
    ensures a == b
    decreases |a|
  {
    if a != [] && b != [] {
      StrLeAntisymmetric(a[1..], b[1..]);
      assert a == [a[0]] + a[1..] && b == [b[0]] + b[1..];
    }
  }

  lemma {:induction false} StrLeTransitive(a: string, b: string, c: string)
    requires StrLe(a, b) && StrLe(b, c)
    ensures StrLe(a, c)
    decreases |a|
  {
    if a != [] && b != [] && c != [] && a[0] == b[0] && b[0] == c[0] {
      StrLeTransitive(a[1..], b[1..], c[1..]);
    }
  }

  // ---------------------------------------------------------------- numbers

  function DigitChar(d: nat): char
    requires d < 10
  {
    ('0' as int + d) as char
  }

  /** The decimal text of a natural number, as a template literal prints it. */
  function NatToString(n: nat): (r: string)
    ensures |r| > 0 && forall k :: 0 <= k < |r| ==> IsDigit(r[k])
  {
    if n < 10 then [DigitChar(n)] else NatToString(n / 10) + [DigitChar(n % 10)]
  }
}
