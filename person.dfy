/**
 * `extrairNome` and `extrairNacionalidade` (extractor.js): the researcher's name
 * and nationality, read from the identification block of the curriculum.
 */
module Person {
  import opened Wrappers
  import opened Text
  import opened Segments

  const NameNotFound: string := "Nome não encontrado"
  const NotInformed: string := "Não informado"

  // ------------------------------------------------------------------- name

  /**
   * `/Identificação\s+Nome\s+([^\n]+)/i` tried at `p`: the bounds of the capture.
   * The spaces before `Nome` are a maximal run, since `N` is not a space.
   */
  function IdentificationAt(t: string, p: nat): (r: Option<(nat, nat)>)
    ensures r.Some? ==> p < r.value.0 < r.value.1 <= |t|
    ensures r.Some? ==> forall k :: r.value.0 <= k < r.value.1 ==> t[k] != '\n'
  {
    var lit := "Identificação";
    if !CiAt(t, p, lit) then None
    else
      var a := p + |lit|;
      var b := SpaceEnd(t, a);
      if b == a || !CiAt(t, b, "Nome") then None
      else CaptureAfterSpaces(t, b + 4, 1, {'\n'})
  }

  function IdentificationIn(t: string): (p: nat -> bool)
    ensures forall k: nat :: p(k) == IdentificationAt(t, k).Some?
  {
    (k: nat) => IdentificationAt(t, k).Some?
  }

  /** Where `.replace(/Dados cadastrais.*$/i, '')` cuts: the registration label with only its own line after it. */
  predicate RegistrationAt(s: string, k: nat)
  {
    CiAt(s, k, "Dados cadastrais") && RestOnOneLine(s, k + |"Dados cadastrais"|)
  }

  function RegistrationIn(s: string): (p: nat -> bool)
    ensures forall k: nat :: p(k) == RegistrationAt(s, k)
  {
    (k: nat) => RegistrationAt(s, k)
  }

  /** `.replace(/Dados cadastrais.*$/i, '')`: the text before the leftmost such label. */
  function DropRegistration(s: string): (r: string)
    ensures r <= s
    ensures FirstFrom(0, |s| + 1, RegistrationIn(s)).None? ==> r == s
  {
    match FirstFrom(0, |s| + 1, RegistrationIn(s))
    case None => s
    case Some(k) => s[..k]
  }

  /** The captured line, trimmed, cut at the registration label and trimmed again. */
  function CleanName(line: string): (r: string)
    ensures Trimmed(r)
  {
    Trim(DropRegistration(Trim(line)))
  }

  /** The cleaned name is a piece of the line. */
  lemma CleanNameSlice(line: string)
    ensures exists i, j :: 0 <= i <= j <= |line| && CleanName(line) == line[i..j]
  {
    var a := Trim(line);
    var d := DropRegistration(a);
    assert d <= a;
    var lo, hi := TrimLo(d), TrimHi(d);
    SliceOfSlice(a, 0, |d|, lo, hi);
    assert a[0..|d|] == d;
    SliceOfSlice(line, TrimLo(line), TrimHi(line), lo, hi);
    assert CleanName(line) == line[TrimLo(line) + lo..TrimLo(line) + hi];
  }

  lemma CleanNameOneLine(line: string)
    requires forall k :: 0 <= k < |line| ==> line[k] != '\n'
    ensures forall k :: 0 <= k < |CleanName(line)| ==> CleanName(line)[k] != '\n'
  {
    TrimAvoids(line, '\n');
    var a := Trim(line);
    var d := DropRegistration(a);
    SliceAvoids(a, 0, |d|, '\n');
    assert a[0..|d|] == d;
    TrimAvoids(d, '\n');
  }

  /** `[a-zà-ú]`: U+00E0 to U+00FA besides `a` to `z`. */
  predicate IsNameLower(c: char) { IsLower(c) || ('\U{E0}' <= c <= '\U{FA}') }

  lemma NameLowerNotSpace(c: char)
    requires IsNameLower(c)
    ensures !IsSpace(c)
  {
  }

  /** `[A-ZÀ-ß][a-zà-ú]+` at `i`: where the word ends. */
  function WordAt(t: string, i: nat): (r: Option<nat>)
    ensures r.Some? ==> i + 2 <= r.value <= |t| && IsLatinCapital(t[i]) && IsNameLower(t[r.value - 1])
    ensures r.Some? ==> forall k :: i < k < r.value ==> IsNameLower(t[k])
  {
    if i < |t| && IsLatinCapital(t[i]) then
      var w := RunEnd(t, i + 1, IsNameLower);
      if w > i + 1 then Some(w) else None
    else None
  }

  /** `(?:\s+[A-ZÀ-ß][a-zà-ú]+)*` from `i`, greedily: where the last word ends. */
  function ChainEnd(t: string, i: nat): (r: nat)
    requires i <= |t|
    ensures i <= r <= |t|
    ensures r > i ==> IsNameLower(t[r - 1]) && IsSpace(t[i])
    decreases |t| - i
  {
    var s := SpaceEnd(t, i);
    if s == i then i
    else
      match WordAt(t, s)
      case None => i
      case Some(w) => ChainEnd(t, w)
  }

  /** `/^([A-ZÀ-ß][a-zà-ú]+(?:\s+[A-ZÀ-ß][a-zà-ú]+)+)/m` tried at `p`: where the name ends. */
  function CapitalisedAt(t: string, p: nat): (r: Option<nat>)
    ensures r.Some? ==> p < r.value <= |t| && IsLatinCapital(t[p]) && IsNameLower(t[r.value - 1])
    ensures r.Some? ==> exists k :: p < k < r.value && IsSpace(t[k])
  {
    if !IsLineStart(t, p) then None
    else
      match WordAt(t, p)
      case None => None
      case Some(w) =>
        var e := ChainEnd(t, w);
        if e > w then Some(e) else None
  }

  function CapitalisedIn(t: string): (p: nat -> bool)
    ensures forall k: nat :: p(k) == CapitalisedAt(t, k).Some?
  {
    (k: nat) => CapitalisedAt(t, k).Some?
  }

  /** The name read after the `Identificação ... Nome` label, when the label occurs: one line of text. */
  function LabelledName(t: string): (r: Option<string>)
    ensures r.None? <==> forall p :: 0 <= p < |t| ==> IdentificationAt(t, p).None?
    ensures r.Some? ==> Trimmed(r.value) && forall k :: 0 <= k < |r.value| ==> r.value[k] != '\n'
  {
    match FirstFrom(0, |t|, IdentificationIn(t))
    case None => None
    case Some(p) =>
      var (g, e) := IdentificationAt(t, p).value;
      var line := t[g..e];
      SliceAvoids(t, g, e, '\n');
      CleanNameOneLine(line);
      Some(CleanName(line))
  }

  /** A capitalised name is taken as it stands: a capital first, a space further on. */
  lemma CapitalisedShape(t: string, p: nat, e: nat)
    requires CapitalisedAt(t, p) == Some(e)
    ensures Trim(t[p..e]) == t[p..e]
    ensures |t[p..e]| > 0 && IsLatinCapital(t[p..e][0])
    ensures exists k :: 0 < k < |t[p..e]| && IsSpace(t[p..e][k])
  {
    var n := t[p..e];
    assert n[0] == t[p] && n[|n| - 1] == t[e - 1];
    LatinCapitalNotSpace(t[p]);
    NameLowerNotSpace(t[e - 1]);
    TrimNoop(n);
    var k :| p < k < e && IsSpace(t[k]);
    assert n[k - p] == t[k];
  }

  /** The first line that starts with two capitalised words or more, when there is one. */
  function CapitalisedName(t: string): (r: Option<string>)
    ensures r.None? <==> forall p :: 0 <= p < |t| ==> CapitalisedAt(t, p).None?
    ensures r.Some? ==> exists p :: 0 <= p < |t| && IsLineStart(t, p) && CapitalisedAt(t, p).Some? && r.value == t[p..CapitalisedAt(t, p).value]
    ensures r.Some? ==> IsLatinCapital(r.value[0]) && exists k :: 0 < k < |r.value| && IsSpace(r.value[k])
    ensures r.Some? ==> Trimmed(r.value)
  {
    match FirstFrom(0, |t|, CapitalisedIn(t))
    case None => None
    case Some(p) =>
      var e := CapitalisedAt(t, p).value;
      CapitalisedShape(t, p, e);
      Some(Trim(t[p..e]))
  }

  /** `extrairNome`: the labelled name, else the first capitalised line, else the placeholder. */
  function NameOf(t: string): (r: string)
    ensures Trimmed(r)
    ensures LabelledName(t).Some? ==> r == LabelledName(t).value
    ensures LabelledName(t).None? && CapitalisedName(t).Some? ==> r == CapitalisedName(t).value
    ensures LabelledName(t).None? && CapitalisedName(t).None? ==> r == NameNotFound
  {
    match LabelledName(t)
    case Some(n) => n
    case None =>
      match CapitalisedName(t)
      case Some(n) => n
      case None => NameNotFound
  }

  /** A line with no registration label and no surrounding spaces is taken whole. */
  lemma CleanNameKeeps(line: string)
    requires Trimmed(line)
    requires forall k :: 0 <= k <= |line| ==> !RegistrationAt(line, k)
    ensures CleanName(line) == line
  {
    TrimNoop(line);
  }

  // ------------------------------------------------------------ nationality

  /** `Pa[íi]s de Nacionalidade`, case-insensitively, at `p`. */
  predicate NationalityLabelAt(t: string, p: nat)
  {
    CiAt(t, p, "País de Nacionalidade") || CiAt(t, p, "Pais de Nacionalidade")
  }

  function NewlineAt(t: string): (p: nat -> bool)
    ensures forall k: nat :: p(k) == (k < |t| && t[k] == '\n')
  {
    (k: nat) => k < |t| && t[k] == '\n'
  }

  /**
   * `/Pa[íi]s de Nacionalidade\s*\n\s*([^\n]+)/i` tried at `p`: the bounds of the
   * capture. All of `\s*\n\s*` lies in the run of spaces after the label; the
   * capture starts at the last character of that run, or just after it, that is
   * not a newline, and some newline must come before it.
   */
  function NationalityAt(t: string, p: nat): (r: Option<(nat, nat)>)
    ensures r.Some? ==> NationalityLabelAt(t, p)
    ensures r.Some? ==> p < r.value.0 < r.value.1 <= |t|
    ensures r.Some? ==> forall k :: r.value.0 <= k < r.value.1 ==> t[k] != '\n'
    ensures r.Some? ==> exists n :: p + 21 <= n < r.value.0 && t[n] == '\n'
  {
    if !NationalityLabelAt(t, p) then None
    else
      var h := p + 21;
      match LastBelow(h + 1, SpaceEnd(t, h) + 1, TakesAt(t, {'\n'}))
      case None => None
      case Some(g) =>
        match LastBelow(h, g, NewlineAt(t))
        case None => None
        case Some(_) => Some((g, RunEnd(t, g, Outside({'\n'}))))
  }

  function NationalityIn(t: string): (p: nat -> bool)
    ensures forall k: nat :: p(k) == NationalityAt(t, k).Some?
  {
    (k: nat) => NationalityAt(t, k).Some?
  }

  /** The captured line of the leftmost match, when there is one. */
  function NationalityLine(t: string): (r: Option<string>)
    ensures r.None? <==> forall p :: 0 <= p < |t| ==> NationalityAt(t, p).None?
    ensures r.Some? ==> forall k :: 0 <= k < |r.value| ==> r.value[k] != '\n'
  {
    match FirstFrom(0, |t|, NationalityIn(t))
    case None => None
    case Some(p) =>
      var (g, e) := NationalityAt(t, p).value;
      SliceAvoids(t, g, e, '\n');
      Some(t[g..e])
  }

  /** `extrairNacionalidade`: the trimmed capture, or the placeholder. */
  function NationalityOf(t: string): (r: string)
    ensures Trimmed(r)
    ensures (forall p :: 0 <= p < |t| ==> !NationalityLabelAt(t, p)) ==> r == NotInformed
    ensures NationalityLine(t).Some? ==> forall k :: 0 <= k < |r| ==> r[k] != '\n'
  {
    match NationalityLine(t)
    case None => NotInformed
    case Some(line) =>
      TrimAvoids(line, '\n');
      Trim(line)
  }

  /** The usual layout: the label, a line break, and the nationality on the next line. */
  lemma NationalityOnNextLine(t: string, p: nat)
    requires NationalityLabelAt(t, p) && forall q :: 0 <= q < p ==> !NationalityLabelAt(t, q)
    requires p + 22 < |t| && t[p + 21] == '\n' && !IsSpace(t[p + 22])
    ensures NationalityOf(t) == Trim(t[p + 22..IndexOfChar(t, p + 22, '\n')])
  {
    NationalityAtNextLine(t, p);
    var found := NationalityIn(t);
    forall q | 0 <= q < p
      ensures !found(q)
    {
      assert NationalityAt(t, q).None?;
    }
    FirstFromIs(0, |t|, found, p);
  }

  /** The match at such a label captures the next line. */
  lemma NationalityAtNextLine(t: string, p: nat)
    requires NationalityLabelAt(t, p)
    requires p + 22 < |t| && t[p + 21] == '\n' && !IsSpace(t[p + 22])
    ensures NationalityAt(t, p) == Some((p + 22, IndexOfChar(t, p + 22, '\n')))
  {
    var h := p + 21;
    assert SpaceEnd(t, h + 1) == h + 1;
    assert SpaceEnd(t, h) == h + 1;
    assert LastBelow(h + 1, h + 2, TakesAt(t, {'\n'})) == Some(h + 1);
    assert LastBelow(h, h + 1, NewlineAt(t)) == Some(h);
    assert RunEnd(t, h + 1, Outside({'\n'})) == IndexOfChar(t, h + 1, '\n');
  }
}
