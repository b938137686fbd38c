/**
 * `extrairFormacaoAcademica` (extractor.js): in the academic-background section,
 * six patterns run one after the other, each as a global `exec` scan, and every
 * match becomes a degree `{ tipo, area, emAndamento }`.
 */
module Degrees {
  import opened Wrappers
  import opened Text
  import opened Segments
  import opened Dedup

  const Heads: seq<string> := ["Formação acadêmica/titulação"]
  const Stops: seq<string> := ["Formação Complementar", "Atuação Profissional"]

  datatype Kind = Doctorate | Masters | Specialisation | Undergraduate | Postdoc | Habilitation

  /** The patterns, in the order they run. */
  const Kinds: seq<Kind> := [Doctorate, Masters, Specialisation, Undergraduate, Postdoc, Habilitation]

  /** `tipo`, which is also the keyword the pattern starts with (`[Dd]` under `/i` is one more case-insensitive letter). */
  function Label(k: Kind): (r: string)
    ensures |r| >= 8
  {
    match k
    case Doctorate => "Doutorado"
    case Masters => "Mestrado"
    case Specialisation => "Especialização"
    case Undergraduate => "Graduação"
    case Postdoc => "Pós-Doutorado"
    case Habilitation => "Livre-Docência"
  }

  /** The pattern goes on with `\s+em\s+([^\n.]+)`. */
  predicate HasArea(k: Kind) { k != Postdoc && k != Habilitation }

  /** The pattern has the optional group `(?:\s+em\s+andamento)?`. */
  predicate MayBeOngoing(k: Kind) { k == Doctorate || k == Masters || k == Undergraduate }

  datatype Degree = Degree(kind: Kind, area: string, inProgress: bool)

  /** What the area capture `[^\n.]+` refuses. */
  const AreaStops: set<char> := {'\n', '.'}

  // ---------------------------------------------------------------- matches

  /** `\s+em\s+([^\n.]+)` tried at `i`: the capture's bounds. */
  function EmArea(t: string, i: nat): (r: Option<(nat, nat)>)
    requires i <= |t|
    ensures r.Some? ==> i + 4 <= r.value.0 < r.value.1 <= |t|
    ensures r.Some? ==> forall k :: r.value.0 <= k < r.value.1 ==> t[k] !in AreaStops
  {
    var a := SpaceEnd(t, i);
    if a > i && CiAt(t, a, "em") then CaptureAfterSpaces(t, a + 2, 1, AreaStops) else None
  }

  /** `\s+em\s+andamento` tried at `i`: where it ends. The `\s+` runs are maximal, since a letter follows each. */
  function OngoingAt(t: string, i: nat): (r: Option<nat>)
    requires i <= |t|
    ensures r.Some? ==> i + 13 <= r.value <= |t| && CiAt(t, r.value - 9, "andamento")
  {
    var a := SpaceEnd(t, i);
    if !(a > i && CiAt(t, a, "em")) then None
    else
      var b := SpaceEnd(t, a + 2);
      if b > a + 2 && CiAt(t, b, "andamento") then Some(b + 9) else None
  }

  /** What follows the keyword at `k`: the optional group is tried first and dropped when the rest fails after it. */
  function AreaAfter(t: string, k: nat, ongoing: bool): (r: Option<(nat, nat)>)
    requires k <= |t|
    ensures r.Some? ==> k + 4 <= r.value.0 < r.value.1 <= |t|
    ensures r.Some? ==> forall j :: r.value.0 <= j < r.value.1 ==> t[j] !in AreaStops
  {
    if ongoing && OngoingAt(t, k).Some? && EmArea(t, OngoingAt(t, k).value).Some? then EmArea(t, OngoingAt(t, k).value)
    else EmArea(t, k)
  }

  /** The pattern of `kind` tried at `p`: where the match ends, and the bounds of its capture when it has one. */
  function MatchAt(t: string, p: nat, kind: Kind): (r: Option<(nat, Option<(nat, nat)>)>)
    ensures r.Some? ==> CiAt(t, p, Label(kind)) && p + |Label(kind)| <= r.value.0 <= |t|
    ensures r.Some? ==> (r.value.1.Some? <==> HasArea(kind))
    ensures r.Some? && r.value.1.Some? ==> p < r.value.1.value.0 < r.value.1.value.1 == r.value.0
    ensures r.Some? && r.value.1.Some? ==> forall j :: r.value.1.value.0 <= j < r.value.1.value.1 ==> t[j] !in AreaStops
    ensures r.Some? && !HasArea(kind) ==> r.value.0 == p + |Label(kind)|
  {
    if !CiAt(t, p, Label(kind)) then None
    else if !HasArea(kind) then Some((p + |Label(kind)|, None))
    else
      match AreaAfter(t, p + |Label(kind)|, MayBeOngoing(kind))
      case None => None
      case Some(a) => Some((a.1, Some(a)))
  }

  /** `{ tipo, area, emAndamento }` for the match at `p`: `emAndamento` looks for `andamento` in the whole match, lower-cased. */
  function RecordAt(t: string, p: nat, kind: Kind): Degree
    requires MatchAt(t, p, kind).Some?
  {
    var (e, capture) := MatchAt(t, p, kind).value;
    var area := match capture case Some(g) => Trim(t[g.0..g.1]) case None => "";
    Degree(kind, area, Contains(LowerAll(t[p..e]), "andamento"))
  }

  /** The next match at or after `i`. */
  function NextMatch(t: string, i: nat, kind: Kind): (r: Option<nat>)
    ensures r.Some? ==> i <= r.value < |t| && MatchAt(t, r.value, kind).Some?
    decreases |t| - i
  {
    if i >= |t| then None
    else if MatchAt(t, i, kind).Some? then Some(i)
    else NextMatch(t, i + 1, kind)
  }

  /** The next match is the first: none comes before it, and none at all when there is no next. */
  lemma {:induction false} NextMatchFirst(t: string, i: nat, kind: Kind)
    ensures forall q :: i <= q < FoundOrEnd(t, NextMatch(t, i, kind)) ==> MatchAt(t, q, kind).None?
    decreases |t| - i
  {
    if i >= |t| {
    } else if MatchAt(t, i, kind).Some? {
    } else {
      NextMatchFirst(t, i + 1, kind);
      NoMatchStep(t, i, kind);
    }
  }

  lemma NoMatchStep(t: string, i: nat, kind: Kind)
    requires i < |t| && MatchAt(t, i, kind).None?
    requires forall q :: i + 1 <= q < FoundOrEnd(t, NextMatch(t, i + 1, kind)) ==> MatchAt(t, q, kind).None?
    ensures forall q :: i <= q < FoundOrEnd(t, NextMatch(t, i, kind)) ==> MatchAt(t, q, kind).None?
  {
    assert NextMatch(t, i, kind) == NextMatch(t, i + 1, kind);
  }

  /** Where a search stopped: at what it found, or at the end of the text. */
  function FoundOrEnd(t: string, r: Option<nat>): nat
  {
    match r case Some(m) => m case None => |t|
  }

  /** The degrees the `g` scan of `kind` finds from `lastIndex = i` on. */
  function DegreeScan(t: string, i: nat, kind: Kind): seq<Degree>
    requires i <= |t|
    decreases |t| - i
  {
    match NextMatch(t, i, kind)
    case None => []
    case Some(p) => [RecordAt(t, p, kind)] + DegreeScan(t, MatchAt(t, p, kind).value.0, kind)
  }

  /** The degrees of the patterns `ks`, pattern after pattern. */
  function DegreesOf(c: string, ks: seq<Kind>): seq<Degree>
  {
    if ks == [] then [] else DegreesOf(c, ks[..|ks| - 1]) + DegreeScan(c, 0, ks[|ks| - 1])
  }

  /** `extrairFormacaoAcademica`. */
  function FormationOf(t: string): seq<Degree>
  {
    match SectionText(t, Heads, Stops)
    case None => []
    case Some(c) => DegreesOf(c, Kinds)
  }

  // ------------------------------------------------------------- properties

  /** `d` is the record of a match of `kind` at or after `i`. */
  predicate MatchedFrom(t: string, i: nat, kind: Kind, d: Degree)
  {
    exists p :: i <= p < |t| && MatchAt(t, p, kind).Some? && RecordAt(t, p, kind) == d
  }

  /** Every degree the scan reports is of the pattern's kind and is the record of one of its matches. */
  lemma {:induction false} DegreeScanSound(t: string, i: nat, kind: Kind)
    requires i <= |t|
    ensures ScanMatched(t, i, kind, DegreeScan(t, i, kind))
    decreases |t| - i
  {
    if NextMatch(t, i, kind).Some? {
      var p := NextMatch(t, i, kind).value;
      DegreeScanSound(t, MatchAt(t, p, kind).value.0, kind);
      DegreeScanSoundStep(t, i, kind);
    }
  }

  /** Each of `ds` is of kind `kind` and the record of a match at or after `i`. */
  predicate ScanMatched(t: string, i: nat, kind: Kind, ds: seq<Degree>)
  {
    forall a :: 0 <= a < |ds| ==> ds[a].kind == kind && MatchedFrom(t, i, kind, ds[a])
  }

  lemma DegreeScanSoundStep(t: string, i: nat, kind: Kind)
    requires i <= |t| && NextMatch(t, i, kind).Some?
    requires var p := NextMatch(t, i, kind).value;
             var e := MatchAt(t, p, kind).value.0;
             ScanMatched(t, e, kind, DegreeScan(t, e, kind))
    ensures ScanMatched(t, i, kind, DegreeScan(t, i, kind))
  {
    var p := NextMatch(t, i, kind).value;
    var e := MatchAt(t, p, kind).value.0;
    var d, rest := RecordAt(t, p, kind), DegreeScan(t, e, kind);
    DegreeScanStep(t, i, kind);
    assert MatchedFrom(t, i, kind, d);
    ScanMatchedEarlier(t, i, e, kind, rest);
    ScanMatchedCons(t, i, kind, d, rest);
  }

  /** A match at or after `e` is one at or after any `i <= e`. */
  lemma ScanMatchedEarlier(t: string, i: nat, e: nat, kind: Kind, ds: seq<Degree>)
    requires i <= e && ScanMatched(t, e, kind, ds)
    ensures ScanMatched(t, i, kind, ds)
  {
    forall a | 0 <= a < |ds|
      ensures MatchedFrom(t, i, kind, ds[a])
    {
      assert MatchedFrom(t, e, kind, ds[a]);
      var q :| e <= q < |t| && MatchAt(t, q, kind).Some? && RecordAt(t, q, kind) == ds[a];
    }
  }

  lemma ScanMatchedCons(t: string, i: nat, kind: Kind, d: Degree, ds: seq<Degree>)
    requires d.kind == kind && MatchedFrom(t, i, kind, d) && ScanMatched(t, i, kind, ds)
    ensures ScanMatched(t, i, kind, [d] + ds)
  {
    ConsIndex(d, ds);
  }

  /** The scan reports nothing exactly when the pattern matches nowhere. */
  lemma DegreeScanEmpty(t: string, i: nat, kind: Kind)
    requires i <= |t|
    ensures DegreeScan(t, i, kind) == [] <==> forall q :: i <= q < |t| ==> MatchAt(t, q, kind).None?
  {
    NextMatchFirst(t, i, kind);
  }

  /** One more match of the scan. */
  lemma DegreeScanStep(t: string, i: nat, kind: Kind)
    requires i <= |t| && NextMatch(t, i, kind).Some?
    ensures var p := NextMatch(t, i, kind).value;
            DegreeScan(t, i, kind) == [RecordAt(t, p, kind)] + DegreeScan(t, MatchAt(t, p, kind).value.0, kind)
  {
  }

  /** `toLowerCase` turns any character that `/i` equates with a lower-case ASCII letter into that letter. */
  lemma LowerOfCanon(c: char, x: char)
    requires IsLower(x) && Canon(c) == Canon(x)
    ensures Lower(c) == x
  {
  }

  /** Only `a` and `A` lower-case to `a`. */
  lemma LowerIsA(c: char)
    ensures Lower(c) == 'a' ==> Canon(c) == 'A'
  {
  }

  /** A case-insensitive `andamento` inside `t[p..e]` survives `toLowerCase`. */
  lemma LowerKeepsOngoing(t: string, p: nat, e: nat, b: nat)
    requires p <= b && b + 9 <= e <= |t| && CiAt(t, b, "andamento")
    ensures Contains(LowerAll(t[p..e]), "andamento")
  {
    var w := LowerAll(t[p..e]);
    forall j | 0 <= j < 9
      ensures w[b - p + j] == "andamento"[j]
    {
      LowerOfCanon(t[b + j], "andamento"[j]);
    }
    assert w[b - p..b - p + 9] == "andamento";
    assert LitAt(w, b - p, "andamento");
  }

  /** When the optional group and the rest both match, the match is the one through the group. */
  lemma MatchThroughGroup(t: string, p: nat, kind: Kind)
    requires MayBeOngoing(kind) && CiAt(t, p, Label(kind))
    requires var k := p + |Label(kind)|; OngoingAt(t, k).Some? && EmArea(t, OngoingAt(t, k).value).Some?
    ensures var g := OngoingAt(t, p + |Label(kind)|).value;
            MatchAt(t, p, kind) == Some((EmArea(t, g).value.1, EmArea(t, g)))
  {
  }

  /** A match of the optional group marks the degree as in progress. */
  lemma OngoingMarked(t: string, p: nat, kind: Kind)
    requires MayBeOngoing(kind) && CiAt(t, p, Label(kind))
    requires var k := p + |Label(kind)|; OngoingAt(t, k).Some? && EmArea(t, OngoingAt(t, k).value).Some?
    ensures MatchAt(t, p, kind).Some? && RecordAt(t, p, kind).inProgress
  {
    var g := OngoingAt(t, p + |Label(kind)|).value;
    MatchThroughGroup(t, p, kind);
    LowerKeepsOngoing(t, p, EmArea(t, g).value.1, g - 9);
  }

  /** The lower-cased keyword of a pattern without a capture holds no `andamento`. */
  lemma KeywordNotOngoing(t: string, p: nat, kind: Kind)
    requires !HasArea(kind) && CiAt(t, p, Label(kind))
    ensures !Contains(LowerAll(t[p..p + |Label(kind)|]), "andamento")
  {
    if kind == Postdoc {
      NoLeadingA("Pós-Doutorado");
      NoOngoingIn(t, p, Label(kind));
    } else {
      NoLeadingA("Livre-Docência");
      NoOngoingIn(t, p, Label(kind));
    }
  }

  /** No `a` of the word could start an `andamento` inside it. */
  predicate NoAStart(w: string)
  {
    forall j :: 0 <= j && j + 9 <= |w| ==> Canon(w[j]) != 'A'
  }

  lemma NoLeadingA(w: string)
    requires w == "Pós-Doutorado" || w == "Livre-Docência"
    ensures NoAStart(w)
  {
  }

  /** Text that matches such a word case-insensitively holds no `andamento` once lower-cased. */
  lemma NoOngoingIn(t: string, p: nat, w: string)
    requires CiAt(t, p, w) && NoAStart(w)
    ensures !Contains(LowerAll(t[p..p + |w|]), "andamento")
  {
    var l := LowerAll(t[p..p + |w|]);
    forall j | 0 <= j <= |l|
      ensures !LitAt(l, j, "andamento")
    {
      if j + 9 <= |l| {
        assert Canon(t[p + j]) == Canon(w[j]);
        LowerIsA(t[p + j]);
        assert l[j] != 'a';
      }
    }
  }

  /** The two patterns without a capture give an empty area, and are never in progress. */
  lemma NoAreaNotOngoing(t: string, p: nat, kind: Kind)
    requires !HasArea(kind) && MatchAt(t, p, kind).Some?
    ensures RecordAt(t, p, kind).area == [] && !RecordAt(t, p, kind).inProgress
  {
    KeywordNotOngoing(t, p, kind);
  }

  /** The area a capture gives: trimmed, with neither a line break nor a full stop. */
  lemma AreaShape(t: string, g: (nat, nat))
    requires g.0 <= g.1 <= |t| && forall k :: g.0 <= k < g.1 ==> t[k] !in AreaStops
    ensures var a := Trim(t[g.0..g.1]); Trimmed(a) && '\n' !in a && '.' !in a
  {
    var s := t[g.0..g.1];
    var a := Trim(s);
    assert forall k :: 0 <= k < |a| ==> a[k] == t[g.0 + TrimLo(s) + k];
  }

  /** An area found by a pattern with a capture has that shape. */
  lemma RecordArea(t: string, p: nat, kind: Kind)
    requires HasArea(kind) && MatchAt(t, p, kind).Some?
    ensures var d := RecordAt(t, p, kind); Trimmed(d.area) && '\n' !in d.area && '.' !in d.area
  {
    AreaShape(t, MatchAt(t, p, kind).value.1.value);
  }

  /**
   * `Doutorado` also matches inside `Pós-Doutorado`: a post-doctorate followed by
   * ` em <area>` is reported a second time, as a doctorate in that area.
   */
  lemma PostdocAlsoDoctorate(t: string, p: nat)
    requires CiAt(t, p, "Pós-Doutorado") && EmArea(t, p + 13).Some?
    ensures MatchAt(t, p, Postdoc).Some? && MatchAt(t, p + 4, Doctorate).Some?
    ensures MatchAt(t, p + 4, Doctorate).value.1 == AreaAfter(t, p + 13, true)
  {
    KeywordLengths();
    DoctorateInsidePostdoc(t, p);
    AreaAfterSome(t, p + 13, true);
    MatchWithArea(t, p + 4, Doctorate);
  }

  /**
   * When no doctorate match comes before it, the doctorate inside a
   * post-doctorate with an area is the first record of the `Doutorado` scan, and
   * so is listed among the degrees, with the post-doctorate's area.
   */
  lemma PostdocListedAsDoctorate(c: string, p: nat)
    requires CiAt(c, p, "Pós-Doutorado") && EmArea(c, p + 13).Some?
    requires NextMatch(c, 0, Doctorate) == Some(p + 4)
    ensures var d := RecordAt(c, p + 4, Doctorate);
            d in DegreesOf(c, Kinds) && d.kind == Doctorate &&
            d.area == Trim(c[AreaAfter(c, p + 13, true).value.0..AreaAfter(c, p + 13, true).value.1])
  {
    PostdocAlsoDoctorate(c, p);
    RecordAreaIs(c, p + 4, Doctorate);
    FirstRecordListed(c, p + 4, Doctorate);
  }

  /** The record of a pattern's first match in the section is listed among the degrees. */
  lemma FirstRecordListed(c: string, m: nat, kind: Kind)
    requires NextMatch(c, 0, kind) == Some(m)
    ensures RecordAt(c, m, kind) in DegreesOf(c, Kinds)
  {
    FirstRecordScanned(c, m, kind);
    ScannedListed(c, kind, RecordAt(c, m, kind));
  }

  lemma FirstRecordScanned(c: string, m: nat, kind: Kind)
    requires NextMatch(c, 0, kind) == Some(m)
    ensures RecordAt(c, m, kind) in DegreeScan(c, 0, kind)
  {
    DegreeScanStep(c, 0, kind);
    assert RecordAt(c, m, kind) == DegreeScan(c, 0, kind)[0];
  }

  /** What any pattern's scan finds is listed among the degrees. */
  lemma ScannedListed(c: string, kind: Kind, d: Degree)
    requires d in DegreeScan(c, 0, kind)
    ensures d in DegreesOf(c, Kinds)
  {
    KindsDistinct();
    DegreesOfKind(c, Kinds, kind);
    OfKindIn(DegreesOf(c, Kinds), kind, d);
  }

  lemma KindsDistinct()
    ensures forall a, b :: 0 <= a < b < |Kinds| ==> Kinds[a] != Kinds[b]
    ensures forall k: Kind :: k in Kinds
  {
    forall k: Kind
      ensures k in Kinds
    {
      match k
      case Doctorate => assert Kinds[0] == k;
      case Masters => assert Kinds[1] == k;
      case Specialisation => assert Kinds[2] == k;
      case Undergraduate => assert Kinds[3] == k;
      case Postdoc => assert Kinds[4] == k;
      case Habilitation => assert Kinds[5] == k;
    }
  }

  /** A record with a capture carries the trimmed capture as its area. */
  lemma RecordAreaIs(t: string, p: nat, kind: Kind)
    requires MatchAt(t, p, kind).Some? && MatchAt(t, p, kind).value.1.Some?
    ensures var g := MatchAt(t, p, kind).value.1.value;
            RecordAt(t, p, kind).area == Trim(t[g.0..g.1]) && RecordAt(t, p, kind).kind == kind
  {
  }

  /** What the list of one pattern holds is in the whole list. */
  lemma {:induction false} OfKindIn(ds: seq<Degree>, k: Kind, d: Degree)
    requires d in OfKind(ds, k)
    ensures d in ds
  {
    if ds != [] {
      var init := ds[..|ds| - 1];
      if d in OfKind(init, k) {
        OfKindIn(init, k, d);
        assert ds == init + [ds[|ds| - 1]];
      }
    }
  }

  lemma KeywordLengths()
    ensures Label(Postdoc) == "Pós-Doutorado" && |Label(Postdoc)| == 13
    ensures Label(Doctorate) == "Doutorado" && |Label(Doctorate)| == 9
  {
  }

  /** With a capture, the match is what follows the keyword. */
  lemma MatchWithArea(t: string, p: nat, kind: Kind)
    requires HasArea(kind) && CiAt(t, p, Label(kind))
    ensures MatchAt(t, p, kind) ==
      match AreaAfter(t, p + |Label(kind)|, MayBeOngoing(kind)) case None => None case Some(a) => Some((a.1, Some(a)))
  {
  }

  /** When ` em <area>` follows, the rest of the pattern matches, with or without the optional group. */
  lemma AreaAfterSome(t: string, k: nat, ongoing: bool)
    requires k <= |t| && EmArea(t, k).Some?
    ensures AreaAfter(t, k, ongoing).Some?
  {
  }

  lemma DoctorateInsidePostdoc(t: string, p: nat)
    requires CiAt(t, p, "Pós-Doutorado")
    ensures CiAt(t, p + 4, "Doutorado")
  {
    forall k | 0 <= k < 9
      ensures Canon(t[p + 4 + k]) == Canon("Doutorado"[k])
    {
      assert Canon(t[p + (4 + k)]) == Canon("Pós-Doutorado"[4 + k]);
    }
  }

  /** The degrees of one pattern, picked out of the list. */
  function OfKind(ds: seq<Degree>, k: Kind): (r: seq<Degree>)
    ensures |r| <= |ds|
    ensures forall a :: 0 <= a < |r| ==> r[a].kind == k
  {
    if ds == [] then [] else OfKind(ds[..|ds| - 1], k) + (if ds[|ds| - 1].kind == k then [ds[|ds| - 1]] else [])
  }

  lemma {:induction false} OfKindAppend(a: seq<Degree>, b: seq<Degree>, k: Kind)
    ensures OfKind(a + b, k) == OfKind(a, k) + OfKind(b, k)
    decreases |b|
  {
    if b == [] {
      assert a + b == a;
    } else {
      var init := b[..|b| - 1];
      OfKindAppend(a, init, k);
      assert a + b == (a + init) + [b[|b| - 1]];
      assert (a + b)[..|a + b| - 1] == a + init;
    }
  }

  lemma {:induction false} OfKindAll(ds: seq<Degree>, k: Kind)
    requires forall a :: 0 <= a < |ds| ==> ds[a].kind == k
    ensures OfKind(ds, k) == ds
  {
    if ds != [] {
      OfKindAll(ds[..|ds| - 1], k);
    }
  }

  lemma {:induction false} OfKindNone(ds: seq<Degree>, k: Kind)
    requires forall a :: 0 <= a < |ds| ==> ds[a].kind != k
    ensures OfKind(ds, k) == []
  {
    if ds != [] {
      OfKindNone(ds[..|ds| - 1], k);
    }
  }

  /** The degrees of one pattern in the list are exactly what its scan finds, whatever the other patterns find. */
  lemma {:induction false} DegreesOfKind(c: string, ks: seq<Kind>, k: Kind)
    requires forall a, b :: 0 <= a < b < |ks| ==> ks[a] != ks[b]
    ensures OfKind(DegreesOf(c, ks), k) == if k in ks then DegreeScan(c, 0, k) else []
  {
    if ks != [] {
      var init := ks[..|ks| - 1];
      DegreesOfKind(c, init, k);
      DegreesOfKindStep(c, ks, k);
    }
  }

  lemma DegreesOfKindStep(c: string, ks: seq<Kind>, k: Kind)
    requires ks != [] && forall a, b :: 0 <= a < b < |ks| ==> ks[a] != ks[b]
    requires var init := ks[..|ks| - 1];
             OfKind(DegreesOf(c, init), k) == if k in init then DegreeScan(c, 0, k) else []
    ensures OfKind(DegreesOf(c, ks), k) == if k in ks then DegreeScan(c, 0, k) else []
  {
    var init, last := ks[..|ks| - 1], ks[|ks| - 1];
    OfKindAppend(DegreesOf(c, init), DegreeScan(c, 0, last), k);
    DegreeScanSound(c, 0, last);
    InFrontOrLast(ks, k);
    if k == last {
      OfKindAll(DegreeScan(c, 0, last), k);
      assert k !in init;
    } else {
      OfKindNone(DegreeScan(c, 0, last), k);
    }
  }

  /** Every degree of the list is a match of its own pattern in the section. */
  lemma {:induction false} DegreesOfSound(c: string, ks: seq<Kind>)
    ensures forall a :: 0 <= a < |DegreesOf(c, ks)| ==>
              DegreesOf(c, ks)[a].kind in ks && MatchedFrom(c, 0, DegreesOf(c, ks)[a].kind, DegreesOf(c, ks)[a])
  {
    if ks != [] {
      var init, last := ks[..|ks| - 1], ks[|ks| - 1];
      DegreesOfSound(c, init);
      DegreeScanSound(c, 0, last);
      var l: seq<Degree>, r: seq<Degree> := DegreesOf(c, init), DegreeScan(c, 0, last);
      AppendIndex(l, r);
      assert forall x :: x in init ==> x in ks;
    }
  }

  /** Without the section heading there are no degrees. */
  lemma NoSectionNoDegrees(t: string)
    requires forall p :: 0 <= p <= |t| ==> !CiAtAny(t, p, Heads)
    ensures FormationOf(t) == []
  {
  }

  // ------------------------------------------------------------ the method

  /** The `while ((match = regex.exec(conteudo)) !== null)` loop of one pattern. */
  method ScanKind(c: string, kind: Kind) returns (found: seq<Degree>)
    ensures found == DegreeScan(c, 0, kind)
  {
    found := [];
    var last := 0;
    while true
      invariant last <= |c|
      invariant found + DegreeScan(c, last, kind) == DegreeScan(c, 0, kind)
      decreases |c| - last
    {
      var p := NextMatch(c, last, kind);
      if p.None? {
        AppendNil(found);
        return;
      }
      var e := MatchAt(c, p.value, kind).value.0;
      var d := RecordAt(c, p.value, kind);
      DegreeScanStep(c, last, kind);
      ConsAssoc(found, d, DegreeScan(c, e, kind));
      found := found + [d];
      last := e;
    }
  }

  /** `padroes.forEach`, each pattern pushing its matches. */
  method ScanKinds(c: string, ks: seq<Kind>) returns (degrees: seq<Degree>)
    ensures degrees == DegreesOf(c, ks)
  {
    degrees := [];
    var j := 0;
    while j < |ks|
      invariant j <= |ks|
      invariant degrees == DegreesOf(c, ks[..j])
    {
      var found := ScanKind(c, ks[j]);
      assert ks[..j + 1][..j] == ks[..j];
      degrees := degrees + found;
      j := j + 1;
    }
    Dedup.TakeAll(ks);
  }

  /** `extrairFormacaoAcademica` as the source runs it. */
  method ExtractFormation(t: string) returns (degrees: seq<Degree>)
    ensures degrees == FormationOf(t)
  {
    var section := SectionText(t, Heads, Stops);
    if section.None? {
      return [];
    }
    degrees := ScanKinds(section.value, Kinds);
  }
}
