/**
 * `extrairTituloDaEntrada` and `limparRevistaDoTitulo` (extractor.js): the title of
 * one numbered entry, found by a cascade of four methods tried in order.
 *
 * The entry is first flattened to one line. Method 1 splits it at `" . "` and takes
 * the first part after the authors that looks like a title; methods 2 to 4 are
 * regular expressions that look for `". TITLE. VENUE"` shapes. Each regular
 * expression is modelled by a predicate saying where it matches; the comments on
 * each predicate say how the greedy and lazy quantifiers settle.
 */
module Titles {
  import opened Wrappers
  import opened Text

  // ------------------------------------------------------------ the line

  /** `'…'` becomes `"..."`. */
  function ExpandEllipsis(s: string): (r: string)
    ensures forall k :: 0 <= k < |r| ==> r[k] != '\U{2026}'
    ensures forall k :: 0 <= k < |r| ==> r[k] == '.' || r[k] in s
  {
    if s == [] then []
    else (if s[0] == '\U{2026}' then "..." else [s[0]]) + ExpandEllipsis(s[1..])
  }

  /** `[–—]` (U+2013, U+2014) becomes `-`. */
  function FoldLongDashes(s: string): (r: string)
    ensures |r| == |s|
    ensures forall k :: 0 <= k < |s| ==> r[k] == (if s[k] == '\U{2013}' || s[k] == '\U{2014}' then '-' else s[k])
  {
    seq(|s|, k requires 0 <= k < |s| => if s[k] == '\U{2013}' || s[k] == '\U{2014}' then '-' else s[k])
  }

  /**
   * The line the title methods work on. `replace(/\r?\n/g, ' ')` followed by
   * `replace(/\s+/g, ' ')` is the same as the second replacement alone, since both
   * only touch runs of `\s`. The two quote replacements of the source map the ASCII
   * quotes to themselves and are left out.
   */
  function Line(entrada: string): (r: string)
    ensures forall k :: 0 <= k < |r| ==> r[k] != '\U{2026}' && r[k] != '\U{2013}' && r[k] != '\U{2014}'
  {
    FoldLongDashes(ExpandEllipsis(Trim(Collapse(entrada))))
  }

  // ---------------------------------------------------------- the venue tail

  /** `[A-Za-zÀ-ÿ\s&]`. */
  predicate IsVenueChar(c: char) { IsLetter(c) || ('\U{C0}' <= c <= '\U{FF}') || IsSpace(c) || c == '&' }

  /**
   * `/\.\s+[A-Z][A-Za-zÀ-ÿ\s&]+[\s]*[\(,][^.]*v\./` matches at `e`. The `\s+` takes
   * the whole run of spaces (a capital must follow); the class run is maximal and
   * must stop at `(` or `,` (neither is in the class, and `\s` is); `[^.]*v\.` can only
   * end at the first `.` after that, which must follow a `v`.
   */
  predicate VenueTailAt(s: string, e: nat)
  {
    e + 1 < |s| && s[e] == '.' &&
    var u := SpaceEnd(s, e + 1);
    u > e + 1 && u < |s| && IsUpper(s[u]) &&
    var q := RunEnd(s, u + 1, IsVenueChar);
    q > u + 1 && q < |s| && (s[q] == '(' || s[q] == ',') &&
    var k := IndexOfChar(s, q + 1, '.');
    k < |s| && k - 1 > q && s[k - 1] == 'v'
  }

  function VenueTails(s: string): (p: nat -> bool)
    ensures forall k: nat :: p(k) == VenueTailAt(s, k)
  {
    (k: nat) => VenueTailAt(s, k)
  }

  /** `/^[A-Z]\.\s*[A-Z]\./`: the candidate starts with two initials. */
  predicate Abbreviated(c: string)
  {
    |c| >= 2 && IsUpper(c[0]) && c[1] == '.' &&
    var j := SpaceEnd(c, 2);
    j + 1 < |c| && IsUpper(c[j]) && c[j + 1] == '.'
  }

  // ---------------------------------------------------------------- cleanup

  /** `[a-zA-ZÀ-ÿ\s&]` under the `i` flag: `ÿ` brings its capital `Ÿ` (U+0178) along. */
  predicate IsGluedChar(c: char) { IsVenueChar(c) || c == '\U{178}' }

  /** `[A-Z\s&]`. */
  predicate IsCapsChar(c: char) { IsUpper(c) || IsSpace(c) || c == '&' }

  /**
   * `/\.\s+[a-z][a-zA-ZÀ-ÿ\s&]+,\s*v\.\s*\d+.*$/i` matches at `p`: a venue name, a
   * comma, `v.` and a number, then nothing but the rest of the line.
   */
  predicate GluedVenueAt(t: string, p: nat)
  {
    p + 1 < |t| && t[p] == '.' &&
    var u := SpaceEnd(t, p + 1);
    u > p + 1 && u < |t| && IsLetter(t[u]) &&
    var q := RunEnd(t, u + 1, IsGluedChar);
    q > u + 1 && q < |t| && t[q] == ',' &&
    var w := SpaceEnd(t, q + 1);
    w + 1 < |t| && (t[w] == 'v' || t[w] == 'V') && t[w + 1] == '.' &&
    var x := SpaceEnd(t, w + 2);
    x < |t| && IsDigit(t[x]) && RestOnOneLine(t, x)
  }

  /** `/\.\s+[A-Z][A-Z\s&]+,\s*v\.\s*\d+.*$/`: the upper-case variant, without the `i` flag. */
  predicate CapsVenueAt(t: string, p: nat)
  {
    p + 1 < |t| && t[p] == '.' &&
    var u := SpaceEnd(t, p + 1);
    u > p + 1 && u < |t| && IsUpper(t[u]) &&
    var q := RunEnd(t, u + 1, IsCapsChar);
    q > u + 1 && q < |t| && t[q] == ',' &&
    var w := SpaceEnd(t, q + 1);
    w + 1 < |t| && t[w] == 'v' && t[w + 1] == '.' &&
    var x := SpaceEnd(t, w + 2);
    x < |t| && IsDigit(t[x]) && RestOnOneLine(t, x)
  }

  function GluedVenues(t: string): (p: nat -> bool)
    ensures forall k: nat :: p(k) == GluedVenueAt(t, k)
  {
    (k: nat) => GluedVenueAt(t, k)
  }

  function CapsVenues(t: string): (p: nat -> bool)
    ensures forall k: nat :: p(k) == CapsVenueAt(t, k)
  {
    (k: nat) => CapsVenueAt(t, k)
  }

  /**
   * `limparRevistaDoTitulo`: cut the title before a venue glued to its end. The
   * result is the title itself or the trimmed text before a venue.
   */
  function Cleanup(t: string): (r: string)
    ensures r == t || exists p :: 0 <= p < |t| && (GluedVenueAt(t, p) || CapsVenueAt(t, p)) && r == Trim(t[..p])
  {
    if t == [] then t
    else
      match FirstFrom(0, |t|, GluedVenues(t))
      case Some(p) =>
        assert GluedVenueAt(t, p);
        Trim(t[..p])
      case None =>
        match FirstFrom(0, |t|, CapsVenues(t))
        case Some(p) =>
          assert CapsVenueAt(t, p);
          Trim(t[..p])
        case None => t
  }

  /** Wherever the upper-case variant matches, the case-insensitive pattern matches too. */
  lemma CapsVenueIsGlued(t: string, p: nat)
    requires CapsVenueAt(t, p)
    ensures GluedVenueAt(t, p)
  {
    var u := SpaceEnd(t, p + 1);
    var q := RunEnd(t, u + 1, IsCapsChar);
    forall k | u + 1 <= k < q
      ensures IsGluedChar(t[k])
    {
      CapsCharGlued(t[k]);
    }
    CommaNotGlued();
    RunEndAt(t, u + 1, q, IsGluedChar);
  }

  lemma CapsCharGlued(c: char)
    requires IsCapsChar(c)
    ensures IsGluedChar(c)
  {
  }

  lemma CommaNotGlued()
    ensures !IsGluedChar(',')
  {
  }

  /** So the second pattern of `limparRevistaDoTitulo` (extractor.js:134-138) never fires. */
  lemma CapsBranchUnreachable(t: string)
    requires forall p :: 0 <= p < |t| ==> !GluedVenueAt(t, p)
    ensures forall p :: 0 <= p < |t| ==> !CapsVenueAt(t, p)
  {
    forall p | 0 <= p < |t| && CapsVenueAt(t, p)
      ensures GluedVenueAt(t, p)
    {
      CapsVenueIsGlued(t, p);
    }
  }

  /**
   * What `limparRevistaDoTitulo` does, with the dead branch gone: the trimmed text
   * before the leftmost glued venue, or the title unchanged when there is none.
   */
  lemma CleanupCuts(t: string)
    ensures (forall p :: 0 <= p < |t| ==> !GluedVenueAt(t, p)) ==> Cleanup(t) == t
    ensures forall p :: 0 <= p < |t| && GluedVenueAt(t, p) && (forall q :: 0 <= q < p ==> !GluedVenueAt(t, q)) ==>
              Cleanup(t) == Trim(t[..p])
  {
    if forall p :: 0 <= p < |t| ==> !GluedVenueAt(t, p) {
      CleanupNoVenue(t);
    }
    forall p | 0 <= p < |t| && GluedVenueAt(t, p) && (forall q :: 0 <= q < p ==> !GluedVenueAt(t, q))
      ensures Cleanup(t) == Trim(t[..p])
    {
      CleanupFirstVenue(t, p);
    }
  }

  lemma CleanupNoVenue(t: string)
    requires forall p :: 0 <= p < |t| ==> !GluedVenueAt(t, p)
    ensures Cleanup(t) == t
  {
    if t != [] {
      CapsBranchUnreachable(t);
      var f := FirstFrom(0, |t|, GluedVenues(t));
      var g := FirstFrom(0, |t|, CapsVenues(t));
      assert f.None? && g.None?;
    }
  }

  lemma CleanupFirstVenue(t: string, p: nat)
    requires p < |t| && GluedVenueAt(t, p) && forall q :: 0 <= q < p ==> !GluedVenueAt(t, q)
    ensures Cleanup(t) == Trim(t[..p])
  {
    FirstFromIs(0, |t|, GluedVenues(t), p);
  }

  // ---------------------------------------------------------------- method 1

  /**
   * One part of the `" . "` split as method 1 judges it: trimmed, cut at the
   * leftmost venue tail, accepted when it has 15 characters or more, does not start
   * with two initials and has fewer than two `;`.
   */
  function Candidate(part: string): (r: Option<string>)
  {
    var c := CutAtVenue(Trim(part));
    if |c| >= 15 && !Abbreviated(c) && Count(c, ';') < 2 then Some(Cleanup(c)) else None
  }

  /** `candidato.substring(0, matchRevista.index).trim()` when the venue tail matches. */
  function CutAtVenue(c: string): (r: string)
  {
    match FirstFrom(0, |c|, VenueTails(c))
    case None => c
    case Some(e) => Trim(c[..e])
  }

  /** The first accepted candidate among `parts[i..]`. */
  function FirstCandidate(parts: seq<string>, i: nat): (r: Option<string>)
    decreases |parts| - i
  {
    if i >= |parts| then None
    else if Candidate(parts[i]).Some? then Candidate(parts[i])
    else FirstCandidate(parts, i + 1)
  }

  function Method1(line: string): Option<string>
  {
    var parts := SplitOn(line, " . ");
    if |parts| >= 2 then FirstCandidate(parts, 1) else None
  }

  // ------------------------------------------------------------ methods 2, 3

  /**
   * The common head of methods 2 and 3, `/\.\s+([^.]{15,}?)\./`, at `p`: the group
   * cannot cross a `.`, so the lazy quantifier ends at the first `.` after `p` (`e`),
   * and the group needs 15 characters: `\s+` gives back spaces until it has them.
   */
  function GroupEnd(s: string, p: nat): (e: nat)
    requires p + 1 < |s|
    ensures p + 1 <= e <= |s|
  {
    IndexOfChar(s, p + 1, '.')
  }

  predicate TitleHeadAt(s: string, p: nat)
  {
    p + 1 < |s| && s[p] == '.' && IsSpace(s[p + 1]) &&
    var e := GroupEnd(s, p);
    e < |s| && e >= p + 17
  }

  /** Where the group of the head starts: as late as the 15-character minimum allows. */
  function GroupStart(s: string, p: nat): (g: nat)
    requires TitleHeadAt(s, p)
    ensures p + 2 <= g <= GroupEnd(s, p) - 15
  {
    var w := SpaceEnd(s, p + 1);
    var e := GroupEnd(s, p);
    if w < e - 15 then w else e - 15
  }

  /** `regexSemEspaco`: the head followed by a venue tail. */
  predicate SemEspacoAt(s: string, p: nat)
  {
    TitleHeadAt(s, p) && VenueTailAt(s, GroupEnd(s, p))
  }

  /**
   * The tail of `regexTitulo` after the group's `.`: `\s+` then `In:`, an upper-case
   * venue followed by `(` or `,`, or `v.`.
   */
  predicate CapsVenueNameAt(s: string, u: nat)
  {
    u < |s| && IsUpper(s[u]) &&
    var q := RunEnd(s, u + 1, IsCapsChar);
    q < |s| && (s[q] == '(' || s[q] == ',') &&
    var m := TrimEndFrom(s, u + 1, q);
    m > u + 1 && IsUpper(s[m - 1])
  }

  predicate UserTailAt(s: string, e: nat)
  {
    e + 1 < |s| && s[e] == '.' &&
    var u := SpaceEnd(s, e + 1);
    u > e + 1 && (LitAt(s, u, "In:") || CapsVenueNameAt(s, u) || LitAt(s, u, "v."))
  }

  predicate UserRegexAt(s: string, p: nat)
  {
    TitleHeadAt(s, p) && UserTailAt(s, GroupEnd(s, p))
  }

  function SemEspacos(s: string): (p: nat -> bool)
    ensures forall k: nat :: p(k) == SemEspacoAt(s, k)
  {
    (k: nat) => SemEspacoAt(s, k)
  }

  function UserRegexes(s: string): (p: nat -> bool)
    ensures forall k: nat :: p(k) == UserRegexAt(s, k)
  {
    (k: nat) => UserRegexAt(s, k)
  }

  function Method2(s: string): Option<string>
  {
    match FirstFrom(0, |s|, SemEspacos(s))
    case None => None
    case Some(p) =>
      var t := Trim(s[GroupStart(s, p)..GroupEnd(s, p)]);
      if Count(t, ';') < 2 then Some(t) else None
  }

  function Method3(s: string): Option<string>
  {
    match FirstFrom(0, |s|, UserRegexes(s))
    case None => None
    case Some(p) =>
      var t := Trim(s[GroupStart(s, p)..GroupEnd(s, p)]);
      if |t| >= 15 && Count(t, ';') < 2 then Some(t) else None
  }

  // ---------------------------------------------------------------- method 4

  /** `[A-ZÀÁÂÃÄÅÆÇÈÉÊËÌÍÎÏÐÑÒÓÔÕÖ]`: A-Z and U+00C0..U+00D6. */
  predicate IsTitleCapital(c: char) { IsUpper(c) || ('\U{C0}' <= c <= '\U{D6}') }

  /**
   * `regexCaps`, `/\.\s+([CAPITAL][^.]{14,}?)\.\s+[A-Z]/`, at `p`: the group starts
   * after the whole run of spaces and ends at the next `.`.
   */
  predicate CapsTitleAt(s: string, p: nat)
  {
    p + 1 < |s| && s[p] == '.' &&
    var g := SpaceEnd(s, p + 1);
    g > p + 1 && g < |s| && IsTitleCapital(s[g]) &&
    var e := IndexOfChar(s, g, '.');
    e < |s| && e >= g + 15 &&
    var u := SpaceEnd(s, e + 1);
    u > e + 1 && u < |s| && IsUpper(s[u])
  }

  function CapsTitles(s: string): (p: nat -> bool)
    ensures forall k: nat :: p(k) == CapsTitleAt(s, k)
  {
    (k: nat) => CapsTitleAt(s, k)
  }

  function Method4(s: string): Option<string>
  {
    match FirstFrom(0, |s|, CapsTitles(s))
    case None => None
    case Some(p) =>
      var g := SpaceEnd(s, p + 1);
      var t := Trim(s[g..IndexOfChar(s, g, '.')]);
      if Count(t, ';') < 2 then Some(t) else None
  }

  // ---------------------------------------------------------------- cascade

  /** `extrairTituloDaEntrada`: the first method that gives a title wins. */
  function TitleOf(entrada: string): (r: Option<string>)
  {
    if entrada == [] then None
    else
      var line := Line(entrada);
      var m1 := Method1(line);
      if m1.Some? then m1
      else
        var m2 := Method2(line);
        if m2.Some? then m2
        else
          var m3 := Method3(line);
          if m3.Some? then m3 else Method4(line)
  }

  /** A trimmed string that is trimmed again, or cut and trimmed, stays trimmed with no more `;`. */
  lemma TrimmedCut(t: string, p: nat)
    requires p <= |t|
    ensures Trim(Trim(t[..p])) == Trim(t[..p])
    ensures Count(Trim(t[..p]), ';') <= Count(t, ';')
  {
    TrimIdempotent(t[..p]);
    CountTrim(t[..p], ';');
    CountSlice(t, 0, p, ';');
  }

  lemma CleanupKeeps(t: string)
    requires Trim(t) == t
    ensures Trim(Cleanup(t)) == Cleanup(t)
    ensures Count(Cleanup(t), ';') <= Count(t, ';')
  {
    if Cleanup(t) != t {
      var p :| 0 <= p < |t| && (GluedVenueAt(t, p) || CapsVenueAt(t, p)) && Cleanup(t) == Trim(t[..p]);
      TrimmedCut(t, p);
    }
  }

  lemma CutAtVenueKeeps(c: string)
    requires Trim(c) == c
    ensures Trim(CutAtVenue(c)) == CutAtVenue(c)
    ensures Count(CutAtVenue(c), ';') <= Count(c, ';')
  {
    match FirstFrom(0, |c|, VenueTails(c))
    case None =>
    case Some(e) => TrimmedCut(c, e);
  }

  lemma CandidateShape(part: string)
    ensures Candidate(part).Some? ==> Trim(Candidate(part).value) == Candidate(part).value
    ensures Candidate(part).Some? ==> Count(Candidate(part).value, ';') < 2
  {
    TrimIdempotent(part);
    CutAtVenueKeeps(Trim(part));
    CleanupKeeps(CutAtVenue(Trim(part)));
  }

  lemma {:induction false} FirstCandidateShape(parts: seq<string>, i: nat)
    ensures var r := FirstCandidate(parts, i);
            r.Some? ==> Trim(r.value) == r.value && Count(r.value, ';') < 2
    decreases |parts| - i
  {
    if i < |parts| {
      CandidateShape(parts[i]);
      FirstCandidateShape(parts, i + 1);
    }
  }

  lemma Method2Shape(line: string)
    ensures Method2(line).Some? ==> Trim(Method2(line).value) == Method2(line).value
  {
    if Method2(line).Some? {
      var p := FirstFrom(0, |line|, SemEspacos(line)).value;
      TrimIdempotent(line[GroupStart(line, p)..GroupEnd(line, p)]);
    }
  }

  lemma Method3Shape(line: string)
    ensures Method3(line).Some? ==> Trim(Method3(line).value) == Method3(line).value
  {
    if Method3(line).Some? {
      var p := FirstFrom(0, |line|, UserRegexes(line)).value;
      TrimIdempotent(line[GroupStart(line, p)..GroupEnd(line, p)]);
    }
  }

  lemma Method4Shape(line: string)
    ensures Method4(line).Some? ==> Trim(Method4(line).value) == Method4(line).value
  {
    if Method4(line).Some? {
      var p := FirstFrom(0, |line|, CapsTitles(line)).value;
      var g := SpaceEnd(line, p + 1);
      TrimIdempotent(line[g..IndexOfChar(line, g, '.')]);
    }
  }

  /**
   * What the source promises of every title it returns: no title from an empty
   * entry, fewer than two `;`, no surrounding spaces; and a title accepted by
   * method 1 is returned whatever the later methods would have said.
   */
  lemma TitleShape(entrada: string)
    ensures entrada == [] ==> TitleOf(entrada).None?
    ensures TitleOf(entrada).Some? ==> Count(TitleOf(entrada).value, ';') < 2
    ensures TitleOf(entrada).Some? ==> Trimmed(TitleOf(entrada).value)
    ensures entrada != [] && Method1(Line(entrada)).Some? ==> TitleOf(entrada) == Method1(Line(entrada))
  {
    if entrada == [] {
    } else {
      var line := Line(entrada);
      if Method1(line).Some? {
        FirstCandidateShape(SplitOn(line, " . "), 1);
        CascadeFirst(entrada);
      } else if Method2(line).Some? {
        Method2Shape(line);
        CascadeSecond(entrada);
      } else if Method3(line).Some? {
        Method3Shape(line);
        CascadeThird(entrada);
      } else {
        Method4Shape(line);
        CascadeFourth(entrada);
      }
    }
  }

  lemma CascadeFirst(entrada: string)
    requires entrada != [] && Method1(Line(entrada)).Some?
    ensures TitleOf(entrada) == Method1(Line(entrada))
  {
  }

  lemma CascadeSecond(entrada: string)
    requires entrada != [] && Method1(Line(entrada)).None? && Method2(Line(entrada)).Some?
    ensures TitleOf(entrada) == Method2(Line(entrada))
  {
  }

  lemma CascadeThird(entrada: string)
    requires entrada != [] && Method1(Line(entrada)).None? && Method2(Line(entrada)).None? && Method3(Line(entrada)).Some?
    ensures TitleOf(entrada) == Method3(Line(entrada))
  {
  }

  lemma CascadeFourth(entrada: string)
    requires entrada != [] && Method1(Line(entrada)).None? && Method2(Line(entrada)).None? && Method3(Line(entrada)).None?
    ensures TitleOf(entrada) == Method4(Line(entrada))
  {
  }

  /**
   * Method 1 as the source runs it: walk the parts after the authors, reassigning
   * the candidate, and return on the first one accepted.
   */
  method FirstTitlePart(parts: seq<string>) returns (r: Option<string>)
    ensures r == FirstCandidate(parts, 1)
  {
    var i := 1;
    while i < |parts|
      invariant 1 <= i
      invariant FirstCandidate(parts, 1) == FirstCandidate(parts, i)
    {
      var candidate := Trim(parts[i]);
      var venue := FirstFrom(0, |candidate|, VenueTails(candidate));
      if venue.Some? {
        candidate := Trim(candidate[..venue.value]);
      }
      assert candidate == CutAtVenue(Trim(parts[i]));
      if |candidate| >= 15 && !Abbreviated(candidate) {
        if Count(candidate, ';') < 2 {
          candidate := Cleanup(candidate);
          return Some(candidate);
        }
      }
      i := i + 1;
    }
    return None;
  }

  /** `extrairTituloDaEntrada`: methods 2 to 4 run only when method 1 found nothing. */
  method ExtractTitle(entrada: string) returns (r: Option<string>)
    ensures r == TitleOf(entrada)
  {
    if entrada == [] {
      return None;
    }
    var line := Line(entrada);
    var parts := SplitOn(line, " . ");
    if |parts| >= 2 {
      r := FirstTitlePart(parts);
      if r.Some? {
        return;
      }
    }
    r := Method2(line);
    if r.Some? {
      return;
    }
    r := Method3(line);
    if r.Some? {
      return;
    }
    r := Method4(line);
  }
}
