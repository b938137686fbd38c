/**
 * `extrairInstituicaoAtual` (extractor.js): in the professional-activity section,
 * every `YYYY - Atual` period is looked up backwards, line by line over the 500
 * characters before it, for the institution it belongs to; the first period that
 * yields one gives the current institution.
 */
module Institution {
  import opened Wrappers
  import opened Text
  import opened Segments
  import opened Dedup

  const NotInformed: string := "Não informado"
  const Heads: seq<string> := ["Atuação Profissional"]
  const Stops: seq<string> := ["Projetos de pesquisa", "Projetos de extensão", "Áreas de atuação", "Idiomas"]

  /** How far back, in characters, a period looks for its institution. */
  const LookBehind: nat := 500

  // ---------------------------------------------------------------- periods

  /** `/(\d{4})\s*-\s*Atual/i` tried at `p`: where the match ends. */
  function CurrentAt(c: string, p: nat): (r: Option<nat>)
    ensures r.Some? ==> p + 10 <= r.value <= |c|
  {
    if !(p + 4 <= |c| && IsDigit(c[p]) && IsDigit(c[p + 1]) && IsDigit(c[p + 2]) && IsDigit(c[p + 3])) then None
    else
      var a := SpaceEnd(c, p + 4);
      if !(a < |c| && c[a] == '-') then None
      else
        var b := SpaceEnd(c, a + 1);
        if CiAt(c, b, "Atual") then Some(b + 5) else None
  }

  function CurrentIn(c: string): (p: nat -> bool)
    ensures forall k: nat :: p(k) == CurrentAt(c, k).Some?
  {
    (k: nat) => CurrentAt(c, k).Some?
  }

  /** The next period at or after `i`: its index and where its match ends. */
  function NextCurrent(c: string, i: nat): (r: Option<(nat, nat)>)
    ensures r.Some? ==> i <= r.value.0 < r.value.1 <= |c|
  {
    match FirstFrom(i, |c|, CurrentIn(c))
    case None => None
    case Some(q) => Some((q, CurrentAt(c, q).value))
  }

  // ------------------------------------------------------------------ lines

  /** `,\s*[A-Z]+,` (case-insensitive) at `k`: where the second comma ends. */
  function StateAt(l: string, k: nat): (r: Option<nat>)
    ensures r.Some? ==> k + 3 <= r.value <= |l| && l[k] == ','
  {
    if !(k < |l| && l[k] == ',') then None
    else
      var a := SpaceEnd(l, k + 1);
      var b := RunEnd(l, a, IsLetter);
      if b > a && b < |l| && l[b] == ',' then Some(b + 1) else None
  }

  /** `,\s*[A-Z]+,\s*Brasil` (case-insensitive) at `k`: where `Brasil` ends. */
  function StateBrasilAt(l: string, k: nat): (r: Option<nat>)
    ensures r.Some? ==> k + 9 <= r.value <= |l| && l[k] == ','
  {
    match StateAt(l, k)
    case None => None
    case Some(x) =>
      var c := SpaceEnd(l, x);
      if CiAt(l, c, "Brasil") then Some(c + 6) else None
  }

  function StateBrasilIn(l: string): (p: nat -> bool)
    ensures forall k: nat :: p(k) == StateBrasilAt(l, k).Some?
  {
    (k: nat) => StateBrasilAt(l, k).Some?
  }

  /** `/,\s*[A-Z]+,\s*Brasil\.?$/i` at `k`: the state and country close the line, with at most a full stop after them. */
  predicate StateBrasilTailAt(l: string, k: nat)
  {
    StateBrasilAt(l, k).Some? &&
    var x := StateBrasilAt(l, k).value;
    x == |l| || (x + 1 == |l| && l[x] == '.')
  }

  function StateBrasilTailIn(l: string): (p: nat -> bool)
    ensures forall k: nat :: p(k) == StateBrasilTailAt(l, k)
  {
    (k: nat) => StateBrasilTailAt(l, k)
  }

  /** `/,\s*[A-Z]+,.*$/i` at `k`: a state, then only the rest of the line. */
  predicate StateTailAt(l: string, k: nat)
  {
    StateAt(l, k).Some? && RestOnOneLine(l, StateAt(l, k).value)
  }

  function StateTailIn(l: string): (p: nat -> bool)
    ensures forall k: nat :: p(k) == StateTailAt(l, k)
  {
    (k: nat) => StateTailAt(l, k)
  }

  /** `.replace(regex, '')` with one of the two tail patterns: the line before the leftmost match. */
  function CutAt(l: string, p: nat -> bool): (r: string)
    ensures r <= l
  {
    match FirstFrom(0, |l| + 1, p)
    case None => l
    case Some(k) => l[..k]
  }

  /** The lines `.trim()` drops from the search: too short, a contract detail, or another period. */
  predicate Skipped(l: string)
  {
    |l| < 5 ||
    CiAt(l, 0, "Vínculo") || CiAt(l, 0, "Enquadramento") || CiAt(l, 0, "Regime") || CiAt(l, 0, "Carga horária") ||
    (IsDigit(l[0]) && IsDigit(l[1]) && IsDigit(l[2]) && IsDigit(l[3]) &&
     SpaceEnd(l, 4) < |l| && l[SpaceEnd(l, 4)] == '-')
  }

  /** What a kept institution name looks like: more than five characters, trimmed. */
  predicate Plausible(n: string)
  {
    |n| > 5 && Trimmed(n)
  }

  /** A line with a state and `Brasil` in it: the text before the state, if it is long enough. */
  function BeforeStateBrasil(l: string): (r: Option<string>)
    ensures r.Some? ==> Plausible(r.value)
  {
    if FirstFrom(0, |l|, StateBrasilIn(l)).None? then None
    else
      var n := Trim(CutAt(l, StateBrasilTailIn(l)));
      if |n| > 5 then Some(n) else None
  }

  /** A line that starts with a capital: the text before a state, if long enough and not a number. */
  function BeforeState(l: string): (r: Option<string>)
    requires l != []
    ensures r.Some? ==> Plausible(r.value) && !IsDigit(r.value[0])
  {
    if !IsLatinCapital(l[0]) then None
    else
      var n := Trim(CutAt(l, StateTailIn(l)));
      if |n| > 5 && !IsDigit(n[0]) then Some(n) else None
  }

  /** The body of the inner `for`: the institution a line names, if it names one. */
  function LineInstitution(raw: string): (r: Option<string>)
    ensures r.Some? ==> Plausible(r.value)
  {
    var l := Trim(raw);
    if Skipped(l) then None
    else if BeforeStateBrasil(l).Some? then BeforeStateBrasil(l)
    else BeforeState(l)
  }

  /**
   * A skipped line names nothing; a line that names an institution names the
   * trimmed text before some point of the trimmed line.
   */
  lemma LineInstitutionShape(raw: string)
    ensures Skipped(Trim(raw)) ==> LineInstitution(raw).None?
    ensures LineInstitution(raw).Some? ==>
              exists k :: 0 <= k <= |Trim(raw)| && LineInstitution(raw).value == Trim(Trim(raw)[..k])
  {
    var l := Trim(raw);
    if !Skipped(l) {
      if BeforeStateBrasil(l).Some? {
        var cut := CutAt(l, StateBrasilTailIn(l));
        assert cut == l[..|cut|];
      } else if BeforeState(l).Some? {
        var cut := CutAt(l, StateTailIn(l));
        assert cut == l[..|cut|];
      }
    }
  }

  const SampleLine := "Escola Y, RS, Brasil"

  /** A line ending in a state and `Brasil` names the text before the state. */
  lemma SampleLineNames()
    ensures LineInstitution(SampleLine) == Some("Escola Y")
  {
    SampleTrimmed();
    SampleNotSkipped();
    SampleBeforeState();
  }

  lemma SampleBeforeState()
    ensures BeforeStateBrasil(SampleLine) == Some("Escola Y")
  {
    var l := SampleLine;
    SampleState();
    FirstFromIs(0, |l|, StateBrasilIn(l), 8);
    SampleCut();
    assert Trim("Escola Y") == "Escola Y" by {
      assert TrimLo("Escola Y") == 0;
      assert TrimHi("Escola Y") == 8;
    }
  }

  lemma SampleCut()
    ensures CutAt(SampleLine, StateBrasilTailIn(SampleLine)) == "Escola Y"
  {
    var l := SampleLine;
    SampleState();
    FirstFromIs(0, |l| + 1, StateBrasilTailIn(l), 8);
    assert l[..8] == "Escola Y";
  }

  lemma SampleTrimmed()
    ensures Trim(SampleLine) == SampleLine
  {
    var l := SampleLine;
    assert TrimLo(l) == 0;
    assert TrimHi(l) == |l|;
  }

  lemma SampleNotSkipped()
    ensures !Skipped(SampleLine)
  {
    var l := SampleLine;
    assert Canon(l[0]) != Canon("Vínculo"[0]);
    assert Canon(l[1]) != Canon("Enquadramento"[1]);
    assert Canon(l[0]) != Canon("Regime"[0]);
    assert Canon(l[0]) != Canon("Carga horária"[0]);
    assert !IsDigit(l[0]);
  }

  /** The state and `Brasil` start at the first comma, and close the line. */
  lemma SampleState()
    ensures StateBrasilAt(SampleLine, 8) == Some(|SampleLine|)
    ensures forall k :: 0 <= k < 8 ==> StateBrasilAt(SampleLine, k).None?
  {
    SampleStateAt();
    SampleBrasil();
    SampleNoEarlierState();
  }

  lemma SampleNoEarlierState()
    ensures forall k :: 0 <= k < 8 ==> StateBrasilAt(SampleLine, k).None?
  {
    forall k | 0 <= k < 8
      ensures StateBrasilAt(SampleLine, k).None?
    {
      assert SampleLine[k] != ',';
    }
  }

  lemma SampleBrasil()
    ensures SpaceEnd(SampleLine, 13) == 14 && CiAt(SampleLine, 14, "Brasil")
  {
    assert SampleLine[14..20] == "Brasil";
  }

  lemma SampleStateAt()
    ensures StateAt(SampleLine, 8) == Some(13)
  {
    var l := SampleLine;
    assert SpaceEnd(l, 9) == 10;
    RunEndAt(l, 10, 12, IsLetter);
  }

  /** What each line names, in order. */
  function LineResults(lines: seq<string>): (rs: seq<Option<string>>)
    ensures |rs| == |lines| && forall k :: 0 <= k < |lines| ==> rs[k] == LineInstitution(lines[k])
  {
    seq(|lines|, k requires 0 <= k < |lines| => LineInstitution(lines[k]))
  }

  /** The first value present. */
  function FirstSome(cs: seq<Option<string>>): (r: Option<string>)
    ensures r.Some? ==> exists k :: 0 <= k < |cs| && cs[k] == r && forall j :: 0 <= j < k ==> cs[j].None?
    ensures r.None? <==> forall k :: 0 <= k < |cs| ==> cs[k].None?
  {
    if cs == [] then None
    else if cs[0].Some? then cs[0]
    else
      var r := FirstSome(cs[1..]);
      assert forall k :: 1 <= k < |cs| ==> cs[1..][k - 1] == cs[k];
      r
  }

  /** The first line, in the given order, that names an institution. */
  function FirstFound(lines: seq<string>): (r: Option<string>)
    ensures r.Some? ==> Plausible(r.value)
  {
    var rs := LineResults(lines);
    var r := FirstSome(rs);
    assert r.Some? ==> exists k :: 0 <= k < |rs| && rs[k] == r;
    r
  }

  function Reversed(s: seq<string>): (r: seq<string>)
    ensures |r| == |s| && forall k :: 0 <= k < |s| ==> r[k] == s[|s| - 1 - k]
  {
    seq(|s|, k requires 0 <= k < |s| => s[|s| - 1 - k])
  }

  /** The lines of the 500 characters before `pos`, the nearest first. */
  function LinesBefore(c: string, pos: nat): seq<string>
    requires pos <= |c|
  {
    Reversed(Lines(c[if pos >= LookBehind then pos - LookBehind else 0..pos]))
  }

  /** The institution named before the period at `pos`, if any. */
  function PeriodInstitution(c: string, pos: nat): (r: Option<string>)
    requires pos <= |c|
    ensures r.Some? ==> Plausible(r.value)
  {
    FirstFound(LinesBefore(c, pos))
  }

  /** The `(index, end)` of each period the `g` scan finds from `lastIndex = i` on. */
  function PeriodScan(c: string, i: nat): (ms: seq<(nat, nat)>)
    requires i <= |c|
    ensures forall a :: 0 <= a < |ms| ==> i <= ms[a].0 < ms[a].1 <= |c|
    decreases |c| - i
  {
    match NextCurrent(c, i)
    case None => []
    case Some(m) => [m] + PeriodScan(c, m.1)
  }

  /** What each period yields. */
  function PeriodResults(c: string, ms: seq<(nat, nat)>): (rs: seq<Option<string>>)
    requires forall a :: 0 <= a < |ms| ==> ms[a].0 <= |c|
    ensures |rs| == |ms| && forall a :: 0 <= a < |ms| ==> rs[a] == PeriodInstitution(c, ms[a].0)
  {
    seq(|ms|, a requires 0 <= a < |ms| => PeriodInstitution(c, ms[a].0))
  }

  lemma PeriodResultsSnoc(c: string, ms: seq<(nat, nat)>, m: (nat, nat))
    requires forall a :: 0 <= a < |ms| ==> ms[a].0 <= |c|
    requires m.0 <= |c|
    ensures PeriodResults(c, ms + [m]) == PeriodResults(c, ms) + [PeriodInstitution(c, m.0)]
  {
    var l := PeriodResults(c, ms + [m]);
    var r := PeriodResults(c, ms) + [PeriodInstitution(c, m.0)];
    forall a | 0 <= a < |l|
      ensures l[a] == r[a]
    {
      if a < |ms| {
        assert (ms + [m])[a] == ms[a];
      }
    }
  }

  /** `instituicoes`: the institutions found for the periods of the section, in order. */
  function Found(c: string): seq<string>
  {
    Somes(PeriodResults(c, PeriodScan(c, 0)))
  }

  /** Every institution found is plausible, and comes from one of the periods. */
  lemma FoundFromPeriods(c: string)
    ensures forall k :: 0 <= k < |Found(c)| ==> Plausible(Found(c)[k])
    ensures forall k :: 0 <= k < |Found(c)| ==> PeriodYields(c, Found(c)[k])
  {
    var ms := PeriodScan(c, 0);
    var rs := PeriodResults(c, ms);
    SomesFrom(rs);
    forall k | 0 <= k < |Found(c)|
      ensures Plausible(Found(c)[k]) && PeriodYields(c, Found(c)[k])
    {
      var a :| 0 <= a < |rs| && rs[a] == Some(Found(c)[k]);
      assert PeriodInstitution(c, ms[a].0) == Some(Found(c)[k]);
    }
  }

  /** `n` is what one of the periods of `c` yields. */
  predicate PeriodYields(c: string, n: string)
  {
    exists a :: 0 <= a < |PeriodScan(c, 0)| && PeriodInstitution(c, PeriodScan(c, 0)[a].0) == Some(n)
  }

  /** `extrairInstituicaoAtual`. */
  function InstitutionOf(t: string): (r: string)
    ensures r == NotInformed || (|r| > 5 && Trimmed(r))
    ensures SectionText(t, Heads, Stops).None? ==> r == NotInformed
  {
    match SectionText(t, Heads, Stops)
    case None => NotInformed
    case Some(c) =>
      var found := Found(c);
      FoundFromPeriods(c);
      if |found| > 0 then found[0] else NotInformed
  }

  // ------------------------------------------------------------- properties

  /** The scan finds the leftmost period, and none where it reports none. */
  lemma NextCurrentLeftmost(c: string, i: nat)
    ensures var r := NextCurrent(c, i);
            (r.Some? ==> CurrentAt(c, r.value.0) == Some(r.value.1) && forall q :: i <= q < r.value.0 ==> CurrentAt(c, q).None?) &&
            (r.None? <==> forall q :: i <= q < |c| ==> CurrentAt(c, q).None?)
  {
  }

  /** A section without a `YYYY - Atual` period names no institution. */
  lemma NoPeriodNoInstitution(c: string)
    requires forall q :: 0 <= q < |c| ==> CurrentAt(c, q).None?
    ensures Found(c) == []
  {
    NextCurrentLeftmost(c, 0);
    assert PeriodScan(c, 0) == [];
    assert PeriodResults(c, []) == [];
  }

  /** The first period that yields an institution gives the current institution. */
  lemma FirstPeriodWins(c: string, a: nat)
    requires a < |PeriodScan(c, 0)| && PeriodInstitution(c, PeriodScan(c, 0)[a].0).Some?
    requires forall b :: 0 <= b < a ==> PeriodInstitution(c, PeriodScan(c, 0)[b].0).None?
    ensures |Found(c)| > 0 && Found(c)[0] == PeriodInstitution(c, PeriodScan(c, 0)[a].0).value
  {
    var rs := PeriodResults(c, PeriodScan(c, 0));
    SomesFirst(rs, a);
  }

  /** One more period of the scan. */
  lemma PeriodScanStep(c: string, i: nat)
    requires i <= |c| && NextCurrent(c, i).Some?
    ensures PeriodScan(c, i) == [NextCurrent(c, i).value] + PeriodScan(c, NextCurrent(c, i).value.1)
  {
  }

  /** One more period adds its institution, if it has one. */
  lemma FoundStep(c: string, ms: seq<(nat, nat)>, m: (nat, nat))
    requires forall a :: 0 <= a < |ms| ==> ms[a].0 <= |c|
    requires m.0 <= |c|
    ensures forall a :: 0 <= a < |ms + [m]| ==> (ms + [m])[a].0 <= |c|
    ensures Somes(PeriodResults(c, ms + [m])) ==
              Somes(PeriodResults(c, ms)) + (if PeriodInstitution(c, m.0).Some? then [PeriodInstitution(c, m.0).value] else [])
  {
    PeriodResultsSnoc(c, ms, m);
    SomesSnoc(PeriodResults(c, ms), PeriodInstitution(c, m.0));
  }

  // ------------------------------------------------------------ the method

  /** The inner `for` over the reversed lines, with its `break`. */
  method SearchLines(lines: seq<string>) returns (found: Option<string>)
    ensures found == FirstFound(lines)
  {
    ghost var rs := LineResults(lines);
    var i := 0;
    while i < |lines|
      invariant i <= |lines|
      invariant FirstSome(rs) == FirstSome(rs[i..])
    {
      var n := LineInstitution(lines[i]);
      if n.Some? {
        assert rs[i..][0] == n;
        return n;
      }
      assert rs[i..][1..] == rs[i + 1..];
      i := i + 1;
    }
    return None;
  }

  /** The body of the `exec` loop for the period at `pos`: the 500 characters before it, line by line, nearest first. */
  method VisitPeriod(c: string, pos: nat) returns (found: Option<string>)
    requires pos <= |c|
    ensures found == PeriodInstitution(c, pos)
  {
    var textBefore := c[if pos >= LookBehind then pos - LookBehind else 0..pos];
    var lines := Reversed(Lines(textBefore));
    found := SearchLines(lines);
  }

  /** What the `exec` loop keeps: `ms` are the periods before `lastIndex`, and `institutions` what they yielded. */
  ghost predicate ScanSoFar(c: string, ms: seq<(nat, nat)>, last: nat, institutions: seq<string>)
  {
    last <= |c| &&
    (forall a :: 0 <= a < |ms| ==> ms[a].0 <= |c|) &&
    ms + PeriodScan(c, last) == PeriodScan(c, 0) &&
    institutions == Somes(PeriodResults(c, ms))
  }

  /** One turn of the `exec` loop keeps it. */
  lemma ScanSoFarStep(c: string, ms: seq<(nat, nat)>, last: nat, institutions: seq<string>, found: Option<string>)
    requires ScanSoFar(c, ms, last, institutions) && NextCurrent(c, last).Some?
    requires found == PeriodInstitution(c, NextCurrent(c, last).value.0)
    ensures var m := NextCurrent(c, last).value;
            ScanSoFar(c, ms + [m], m.1, institutions + (if found.Some? then [found.value] else []))
  {
    var m := NextCurrent(c, last).value;
    FoundStep(c, ms, m);
    PeriodScanStep(c, last);
    ConsAssoc(ms, m, PeriodScan(c, m.1));
  }

  /** When no period is left, the loop has collected them all. */
  lemma ScanSoFarDone(c: string, ms: seq<(nat, nat)>, last: nat, institutions: seq<string>)
    requires ScanSoFar(c, ms, last, institutions) && NextCurrent(c, last).None?
    ensures institutions == Found(c)
  {
    assert PeriodScan(c, last) == [];
    AppendNil(ms);
  }

  /** The `exec` loop over the periods of the section, collecting `instituicoes`. */
  method ScanPeriods(c: string) returns (institutions: seq<string>)
    ensures institutions == Found(c)
  {
    institutions := [];
    ghost var ms: seq<(nat, nat)> := [];
    var last := 0;
    while true
      invariant ScanSoFar(c, ms, last, institutions)
      decreases |c| - last
    {
      var m := NextCurrent(c, last);
      if m.None? {
        ScanSoFarDone(c, ms, last, institutions);
        break;
      }
      var found := VisitPeriod(c, m.value.0);
      ScanSoFarStep(c, ms, last, institutions, found);
      if found.Some? {
        institutions := institutions + [found.value];
      }
      ms := ms + [m.value];
      last := m.value.1;
    }
  }

  /** `extrairInstituicaoAtual` as the source runs it: every period, then the first institution found. */
  method ExtractInstitution(t: string) returns (r: string)
    ensures r == InstitutionOf(t)
  {
    var section := SectionText(t, Heads, Stops);
    if section.None? {
      return NotInformed;
    }
    var institutions := ScanPeriods(section.value);
    r := if |institutions| > 0 then institutions[0] else NotInformed;
  }
}
