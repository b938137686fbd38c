/**
 * `extrairAreasAtuacao` (extractor.js): each line of the areas-of-expertise
 * section is searched for a `Grande área:`, an `Área:` and a `Subárea:` value;
 * each non-empty value not yet listed is appended to its list.
 */
module Areas {
  import opened Wrappers
  import opened Text
  import opened Segments
  import opened Dedup

  const Heads: seq<string> := ["Áreas de atuação"]
  const Stops: seq<string> := ["Idiomas", "Prêmios", "Produções"]

  /** What `[^\/\n]+` refuses. */
  const ValueStops: set<char> := {'/', '\n'}
  /** What `[^\/\n.]+` refuses. */
  const SubStops: set<char> := {'/', '\n', '.'}

  /** `{ grandesAreas, areas, subAreas }`. */
  datatype AreaLists = AreaLists(major: seq<string>, areas: seq<string>, sub: seq<string>)

  // ---------------------------------------------------------------- labels

  /** `[áa]` under `/i`. */
  predicate AnyA(c: char) { Canon(c) == 'A' || Canon(c) == '\U{C1}' }

  /** `[Áá]` under `/i`: only the accented letter. */
  predicate AcuteA(c: char) { Canon(c) == '\U{C1}' }

  /** `[^Grande]` under `/i`: a character none of `G`, `r`, `a`, `n`, `d`, `e` equals, in either case. */
  predicate NotGrandeLetter(c: char) { Canon(c) !in {'G', 'R', 'A', 'N', 'D', 'E'} }

  /** The trimmed capture `\s*([^X]+)` finds at `a`, if the class can take a character. */
  function ValueAt(l: string, a: nat, excluded: set<char>): (r: Option<string>)
    requires a <= |l|
    ensures r.Some? ==> Trimmed(r.value) && forall x :: x in excluded ==> x !in r.value
  {
    match CaptureAfterSpaces(l, a, 0, excluded)
    case None => None
    case Some(g) =>
      CaptureAvoids(l, g.0, g.1, excluded);
      Some(Trim(l[g.0..g.1]))
  }

  /** A capture free of the excluded characters stays free of them once trimmed. */
  lemma CaptureAvoids(l: string, g0: nat, g1: nat, excluded: set<char>)
    requires g0 <= g1 <= |l| && forall k :: g0 <= k < g1 ==> l[k] !in excluded
    ensures forall x :: x in excluded ==> x !in Trim(l[g0..g1])
  {
    var s := l[g0..g1];
    forall x | x in excluded
      ensures x !in Trim(s)
    {
      forall k | 0 <= k < |s|
        ensures s[k] != x
      {
        assert s[k] == l[g0 + k];
      }
      TrimAvoids(s, x);
    }
  }

  /** `Grande [áa]rea:\s*([^\/\n]+)` tried at `p`. */
  function MajorAt(l: string, p: nat): (r: Option<string>)
    ensures r.Some? ==> Trimmed(r.value) && '/' !in r.value && '\n' !in r.value
  {
    if CiAt(l, p, "Grande ") && p + 7 < |l| && AnyA(l[p + 7]) && CiAt(l, p + 8, "rea:") then ValueAt(l, p + 12, ValueStops)
    else None
  }

  /** `Sub[áa]rea:\s*([^\/\n.]+)` tried at `p`. */
  function SubAt(l: string, p: nat): (r: Option<string>)
    ensures r.Some? ==> Trimmed(r.value) && '/' !in r.value && '\n' !in r.value && '.' !in r.value
  {
    if CiAt(l, p, "Sub") && p + 3 < |l| && AnyA(l[p + 3]) && CiAt(l, p + 4, "rea:") then ValueAt(l, p + 8, SubStops)
    else None
  }

  /**
   * `[^Grande]\s*[Áá]rea:\s*([^\/\n]+)` tried at `p`, as written. The `\s*` before
   * the label is a maximal run, since a letter must follow it.
   */
  function AreaAsWrittenAt(l: string, p: nat): (r: Option<string>)
    ensures r.Some? ==> Trimmed(r.value) && '/' !in r.value && '\n' !in r.value
  {
    if !(p < |l| && NotGrandeLetter(l[p])) then None
    else
      var q := SpaceEnd(l, p + 1);
      if q < |l| && AcuteA(l[q]) && CiAt(l, q + 1, "rea:") then ValueAt(l, q + 5, ValueStops) else None
  }

  /** An `Área:` label at `q` that is a label of its own, not the tail of `Grande área:` or of `Subárea:`. */
  predicate OwnAreaLabelAt(l: string, q: nat)
  {
    q < |l| && AcuteA(l[q]) && CiAt(l, q + 1, "rea:") &&
    !(q >= 7 && CiAt(l, q - 7, "Grande ")) && !(q >= 3 && CiAt(l, q - 3, "Sub"))
  }

  /** The `Área:` value the pattern is evidently meant to find, tried at the label `q`. */
  function AreaAt(l: string, q: nat): (r: Option<string>)
    ensures r.Some? ==> Trimmed(r.value) && '/' !in r.value && '\n' !in r.value
  {
    if OwnAreaLabelAt(l, q) then ValueAt(l, q + 5, ValueStops) else None
  }

  function Matches(m: nat -> Option<string>): (p: nat -> bool)
    ensures forall k: nat :: p(k) == m(k).Some?
  {
    (k: nat) => m(k).Some?
  }

  /** `linha.match(...)` with the pattern tried at each position: the leftmost match's value. */
  function Leftmost(l: string, m: nat -> Option<string>): (r: Option<string>)
    ensures r.Some? ==> exists p :: 0 <= p < |l| && m(p) == r
    ensures r.None? <==> forall p :: 0 <= p < |l| ==> m(p).None?
  {
    match FirstFrom(0, |l|, Matches(m))
    case None => None
    case Some(p) => m(p)
  }

  function MajorIn(l: string): (m: nat -> Option<string>)
    ensures forall p: nat :: m(p) == MajorAt(l, p)
  {
    (p: nat) => MajorAt(l, p)
  }

  function SubIn(l: string): (m: nat -> Option<string>)
    ensures forall p: nat :: m(p) == SubAt(l, p)
  {
    (p: nat) => SubAt(l, p)
  }

  function AreaAsWrittenIn(l: string): (m: nat -> Option<string>)
    ensures forall p: nat :: m(p) == AreaAsWrittenAt(l, p)
  {
    (p: nat) => AreaAsWrittenAt(l, p)
  }

  function AreaIn(l: string): (m: nat -> Option<string>)
    ensures forall p: nat :: m(p) == AreaAt(l, p)
  {
    (p: nat) => AreaAt(l, p)
  }

  /** `grandeArea[1].trim()`, when the line has one. */
  function Major(l: string): Option<string> { Leftmost(l, MajorIn(l)) }

  /** `subArea[1].trim()`, when the line has one. */
  function Sub(l: string): Option<string> { Leftmost(l, SubIn(l)) }

  /** `area[1].trim()` as the pattern is written. */
  function AreaAsWritten(l: string): Option<string> { Leftmost(l, AreaAsWrittenIn(l)) }

  /** The `Área:` value of the line, read from its own label. */
  function Area(l: string): Option<string> { Leftmost(l, AreaIn(l)) }

  // ------------------------------------------------------------ the lists

  /** The three lists after the lines `lines`, in order, the area read as the pattern is written. */
  function ListsOf(lines: seq<string>): AreaLists
  {
    AreaLists(Collect(Values(lines, Major)), Collect(Values(lines, AreaAsWritten)), Collect(Values(lines, Sub)))
  }

  /** The areas list as the pattern is evidently meant to build it: each area read from its own label. */
  function IntendedAreas(lines: seq<string>): seq<string>
  {
    Collect(Values(lines, Area))
  }

  /** `extrairAreasAtuacao`. */
  function AreasOf(t: string): AreaLists
  {
    match SectionText(t, Heads, Stops)
    case None => AreaLists([], [], [])
    case Some(c) => ListsOf(Lines(c))
  }

  // ------------------------------------------------------------- properties

  /**
   * Each list holds every non-empty value its pattern finds on some line, each
   * once, and nothing else; so does the intended areas list.
   */
  lemma ListsExactly(lines: seq<string>)
    ensures var r := ListsOf(lines);
            Distinct(r.major) && Distinct(r.areas) && Distinct(r.sub) &&
            (forall x :: x in r.major <==> Offered(Values(lines, Major), x)) &&
            (forall x :: x in r.areas <==> Offered(Values(lines, AreaAsWritten), x)) &&
            (forall x :: x in r.sub <==> Offered(Values(lines, Sub), x))
    ensures Distinct(IntendedAreas(lines)) && forall x :: x in IntendedAreas(lines) <==> Offered(Values(lines, Area), x)
  {
    CollectExactly(Values(lines, Major));
    CollectExactly(Values(lines, AreaAsWritten));
    CollectExactly(Values(lines, Sub));
    CollectExactly(Values(lines, Area));
  }

  /** A value found on a line is listed. */
  lemma LineValueListed(lines: seq<string>, k: nat)
    requires k < |lines|
    ensures Major(lines[k]).Some? && Major(lines[k]).value != [] ==> Major(lines[k]).value in ListsOf(lines).major
    ensures AreaAsWritten(lines[k]).Some? && AreaAsWritten(lines[k]).value != [] ==> AreaAsWritten(lines[k]).value in ListsOf(lines).areas
    ensures Sub(lines[k]).Some? && Sub(lines[k]).value != [] ==> Sub(lines[k]).value in ListsOf(lines).sub
    ensures Area(lines[k]).Some? && Area(lines[k]).value != [] ==> Area(lines[k]).value in IntendedAreas(lines)
  {
    ListsExactly(lines);
    var ms, avs, ss, ivs := Values(lines, Major), Values(lines, AreaAsWritten), Values(lines, Sub), Values(lines, Area);
    assert ms[k] == Major(lines[k]) && avs[k] == AreaAsWritten(lines[k]) && ss[k] == Sub(lines[k]) && ivs[k] == Area(lines[k]);
  }

  /** A sub-area holds no full stop: the class stops it at the first one. */
  lemma SubAreasHaveNoStop(lines: seq<string>)
    ensures forall x :: x in ListsOf(lines).sub ==> '.' !in x && Trimmed(x)
  {
    ListsExactly(lines);
    forall x | x in ListsOf(lines).sub
      ensures '.' !in x && Trimmed(x)
    {
      var vs := Values(lines, Sub);
      var k :| 0 <= k < |vs| && vs[k] == Some(x);
      assert Sub(lines[k]) == Some(x);
      var p :| 0 <= p < |lines[k]| && SubAt(lines[k], p) == Some(x);
    }
  }

  /** Without the section heading every list is empty. */
  lemma NoSectionNoAreas(t: string)
    requires forall p :: 0 <= p <= |t| ==> !CiAtAny(t, p, Heads)
    ensures AreasOf(t) == AreaLists([], [], [])
  {
  }

  // --------------------------------------------------------------- finding

  /** The usual Lattes line: the major area, then the area. */
  const SampleLine: string := "Grande área: X / Área: Y"

  /** The leftmost match is the one at `p` when no earlier position matches. */
  lemma LeftmostAt(l: string, m: nat -> Option<string>, p: nat)
    requires p < |l| && m(p).Some? && forall q :: 0 <= q < p ==> m(q).None?
    ensures Leftmost(l, m) == m(p)
  {
  }

  /** A one-letter value, with or without one trailing space, trims to its letter. */
  lemma TrimSample(s: string, n: nat)
    requires 1 <= |s| <= 2 && n == 1 && !IsSpace(s[0]) && (|s| == 2 ==> s[1] == ' ')
    ensures Trim(s) == s[..n]
  {
    assert TrimLo(s) == 0;
    assert TrimEndFrom(s, 0, 1) == 1;
    assert TrimHi(s) == 1;
  }

  /** The value after the major area's label: `X`, up to the slash, trimmed. */
  lemma SampleMajorValue()
    ensures ValueAt(SampleLine, 12, ValueStops) == Some("X")
  {
    var l := SampleLine;
    assert l[12] == ' ' && l[13] == 'X' && l[14] == ' ' && l[15] == '/';
    assert SpaceEnd(l, 13) == 13;
    assert SpaceEnd(l, 12) == 13;
    assert TakesAt(l, ValueStops)(13);
    assert LastBelow(12, 14, TakesAt(l, ValueStops)) == Some(13);
    RunEndAt(l, 13, 15, Outside(ValueStops));
    assert CaptureAfterSpaces(l, 12, 0, ValueStops) == Some((13, 15));
    assert l[13..15] == "X ";
    TrimSample("X ", 1);
    assert "X "[..1] == "X";
    assert Trim(l[13..15]) == "X";
  }

  /** The value after the area's own label: `Y`, to the end of the line. */
  lemma SampleAreaValue()
    ensures ValueAt(SampleLine, 22, ValueStops) == Some("Y")
  {
    var l := SampleLine;
    assert |l| == 24 && l[22] == ' ' && l[23] == 'Y';
    assert SpaceEnd(l, 24) == 24;
    assert SpaceEnd(l, 23) == 23;
    assert SpaceEnd(l, 22) == 23;
    assert TakesAt(l, ValueStops)(23);
    assert LastBelow(22, 24, TakesAt(l, ValueStops)) == Some(23);
    RunEndAt(l, 23, 24, Outside(ValueStops));
    assert CaptureAfterSpaces(l, 22, 0, ValueStops) == Some((23, 24));
    assert l[23..24] == "Y";
    TrimSample("Y", 1);
    assert "Y"[..1] == "Y";
    assert Trim(l[23..24]) == "Y";
  }

  /**
   * As written, `[^Grande]` is a class of single characters, not "not preceded by
   * `Grande`": on a line that starts with `Grande área:`, the space before `área:`
   * passes it, so the area reported is the major area's value.
   */
  lemma AreaAsWrittenReadsMajor(l: string)
    requires |l| >= 12 && l[..12] == "Grande área:" && ValueAt(l, 12, ValueStops).Some?
    ensures AreaAsWritten(l) == ValueAt(l, 12, ValueStops)
    ensures Major(l) == ValueAt(l, 12, ValueStops)
  {
    AsWrittenMatchesAfterGrande(l);
    LeftmostAt(l, AreaAsWrittenIn(l), 6);
    MajorAtStart(l);
    LeftmostAt(l, MajorIn(l), 0);
  }

  lemma AsWrittenMatchesAfterGrande(l: string)
    requires |l| >= 12 && l[..12] == "Grande área:"
    ensures AreaAsWrittenAt(l, 6) == ValueAt(l, 12, ValueStops)
    ensures forall q :: 0 <= q < 6 ==> AreaAsWrittenAt(l, q).None?
  {
    AsWrittenAtSpace(l);
    GrandeLettersRefused(l);
    forall q | 0 <= q < 6
      ensures AreaAsWrittenAt(l, q).None?
    {
      RefusedNoMatch(l, q);
    }
  }

  lemma AsWrittenAtSpace(l: string)
    requires |l| >= 12 && l[..12] == "Grande área:"
    ensures AreaAsWrittenAt(l, 6) == ValueAt(l, 12, ValueStops)
  {
    assert l[6] == ' ' && l[7] == '\U{E1}';
    assert l[8..12] == "rea:";
    assert SpaceEnd(l, 7) == 7;
  }

  lemma GrandeLettersRefused(l: string)
    requires |l| >= 12 && l[..12] == "Grande área:"
    ensures forall q :: 0 <= q < 6 ==> !NotGrandeLetter(l[q])
  {
    forall q | 0 <= q < 6
      ensures !NotGrandeLetter(l[q])
    {
      assert l[q] == "Grande área:"[q];
    }
  }

  lemma RefusedNoMatch(l: string, q: nat)
    requires q < |l| && !NotGrandeLetter(l[q])
    ensures AreaAsWrittenAt(l, q).None?
  {
  }

  lemma MajorAtStart(l: string)
    requires |l| >= 12 && l[..12] == "Grande área:"
    ensures MajorAt(l, 0) == ValueAt(l, 12, ValueStops)
  {
    assert l[..7] == "Grande " && l[7] == '\U{E1}' && l[8..12] == "rea:";
  }

  /** The sample line: as written, its area is `X`, the major area's value. */
  lemma AreaAsWrittenTakesMajor()
    ensures AreaAsWritten(SampleLine) == Some("X")
    ensures Major(SampleLine) == Some("X")
  {
    SampleMajorValue();
    assert SampleLine[..12] == "Grande área:";
    AreaAsWrittenReadsMajor(SampleLine);
  }

  /** Read from its own label, the same line gives the area's value. */
  lemma AreaTakesOwnLabel()
    ensures Area(SampleLine) == Some("Y")
  {
    SampleOwnLabel();
    SampleNoOwnLabelBefore();
    LeftmostAt(SampleLine, AreaIn(SampleLine), 17);
  }

  lemma SampleOwnLabel()
    ensures AreaAt(SampleLine, 17) == Some("Y")
  {
    SampleAreaValue();
    assert SampleLine[14..22] == " / Área:";
    LabelAfterSlash(SampleLine, 17);
  }

  /** An `Área:` label after ` / ` is a label of its own. */
  lemma LabelAfterSlash(l: string, q: nat)
    requires 3 <= q && q + 5 <= |l| && l[q - 3..q + 5] == " / Área:"
    ensures AreaAt(l, q) == ValueAt(l, q + 5, ValueStops)
  {
    assert l[q - 3] == ' ' && l[q] == '\U{C1}';
    assert l[q + 1..q + 5] == "rea:";
    assert CiAt(l, q + 1, "rea:");
    assert !CiAt(l, q - 3, "Sub") by {
      assert Canon(l[q - 3 + 0]) != Canon("Sub"[0]);
    }
    if q >= 7 {
      assert !CiAt(l, q - 7, "Grande ") by {
        assert Canon(l[q - 7 + 4]) != Canon("Grande "[4]);
      }
    }
    assert OwnAreaLabelAt(l, q);
  }

  lemma SampleNoOwnLabelBefore()
    ensures forall q :: 0 <= q < 17 ==> AreaAt(SampleLine, q).None?
  {
    var l := SampleLine;
    assert l[..17] == "Grande área: X / ";
    forall q | 0 <= q < 17
      ensures !OwnAreaLabelAt(l, q)
    {
      if q == 7 {
        assert l[..7] == "Grande ";
      } else {
        assert l[q] == "Grande área: X / "[q];
      }
    }
  }

  /** An area is never read from the label of a major area or of a sub-area. */
  lemma AreaFromOwnLabel(l: string)
    requires Area(l).Some?
    ensures exists q :: 0 <= q < |l| && OwnAreaLabelAt(l, q) && ValueAt(l, q + 5, ValueStops) == Area(l)
  {
    var q :| 0 <= q < |l| && AreaAt(l, q) == Area(l);
  }

  /** On the sample line the areas list receives the major area's value, where `Y` is meant. */
  lemma SampleLists()
    ensures ListsOf([SampleLine]).areas == ["X"]
    ensures ListsOf([SampleLine]).major == ["X"]
    ensures IntendedAreas([SampleLine]) == ["Y"]
  {
    AreaAsWrittenTakesMajor();
    AreaTakesOwnLabel();
    ValuesSnoc([], SampleLine, AreaAsWritten);
    ValuesSnoc([], SampleLine, Major);
    ValuesSnoc([], SampleLine, Area);
    CollectSnoc([], Some("X"));
    CollectSnoc([], Some("Y"));
  }

  /** A line that starts with its `Área:` label. */
  const LeadingLine: string := "Área: Y"

  /** As written, `[^Grande]` needs a character before the label, so a leading label is missed. */
  lemma LeadingLabelMissed()
    ensures AreaAsWritten(LeadingLine) == None
  {
    var l := LeadingLine;
    assert |l| == 7 && l[0] == '\U{C1}' && l[1] == 'r' && l[2] == 'e' && l[3] == 'a' && l[4] == ':' && l[5] == ' ' && l[6] == 'Y';
    assert SpaceEnd(l, 1) == 1;
    assert SpaceEnd(l, 6) == 6;
    assert SpaceEnd(l, 5) == 6;
    assert SpaceEnd(l, 7) == 7;
    forall p | 0 <= p < |l|
      ensures AreaAsWrittenAt(l, p).None?
    {
    }
  }

  /** Read from its own label, the leading label gives its value. */
  lemma LeadingLabelRead()
    ensures Area(LeadingLine) == Some("Y")
  {
    var l := LeadingLine;
    assert |l| == 7 && l[0] == '\U{C1}' && l[1..5] == "rea:" && l[5] == ' ' && l[6] == 'Y';
    assert CiAt(l, 1, "rea:");
    assert OwnAreaLabelAt(l, 0);
    assert SpaceEnd(l, 7) == 7;
    assert SpaceEnd(l, 6) == 6;
    assert SpaceEnd(l, 5) == 6;
    assert TakesAt(l, ValueStops)(6);
    assert LastBelow(5, 7, TakesAt(l, ValueStops)) == Some(6);
    RunEndAt(l, 6, 7, Outside(ValueStops));
    assert CaptureAfterSpaces(l, 5, 0, ValueStops) == Some((6, 7));
    assert l[6..7] == "Y";
    TrimSample("Y", 1);
    assert "Y"[..1] == "Y";
    assert AreaAt(l, 0) == Some("Y");
    LeftmostAt(l, AreaIn(l), 0);
  }

  // ------------------------------------------------------------ the method

  /** The `forEach` over the lines, pushing each new non-empty value into its list. */
  method CollectAreas(lines: seq<string>) returns (r: AreaLists)
    ensures r == ListsOf(lines)
  {
    var major: seq<string> := [];
    var areas: seq<string> := [];
    var sub: seq<string> := [];
    var i := 0;
    while i < |lines|
      invariant i <= |lines|
      invariant major == Collect(Values(lines[..i], Major))
      invariant areas == Collect(Values(lines[..i], AreaAsWritten))
      invariant sub == Collect(Values(lines[..i], Sub))
    {
      var line := lines[i];
      CollectLine(lines, i, Major);
      CollectLine(lines, i, AreaAsWritten);
      CollectLine(lines, i, Sub);
      major := PushValue(major, Major(line));
      areas := PushValue(areas, AreaAsWritten(line));
      sub := PushValue(sub, Sub(line));
      i := i + 1;
    }
    Dedup.TakeAll(lines);
    r := AreaLists(major, areas, sub);
  }

  /** `extrairAreasAtuacao` as the source runs it. */
  method ExtractAreas(t: string) returns (r: AreaLists)
    ensures r == AreasOf(t)
  {
    var section := SectionText(t, Heads, Stops);
    if section.None? {
      return AreaLists([], [], []);
    }
    r := CollectAreas(Lines(section.value));
  }
}
