/**
 * `coletarTrechosDeArtigos` and `dividirEmEntradas` (extractor.js): the blocks of
 * "Artigos completos publicados em periódicos" sections, and the numbered entries
 * inside one block.
 */
module Sections {
  import opened Wrappers
  import opened Text
  import Dedup

  // ------------------------------------------------------------- the markers

  const Marker: string := "Artigos completos publicados em periódicos"

  /**
   * What a `while (m = re.exec(texto))` loop collects from `lastIndex = i` on, for a
   * pattern that matches exactly `width` characters where `p` holds: each search
   * resumes right after the previous match.
   */
  function FixedScan(i: nat, n: nat, p: nat -> bool, width: nat): (ms: seq<nat>)
    requires width > 0
    decreases n - i
  {
    match FirstFrom(i, n, p)
    case None => []
    case Some(k) => [k] + FixedScan(k + width, n, p, width)
  }

  /** Every reported position is a match; positions grow by at least the width; none means no match. */
  lemma {:induction false} FixedScanSound(i: nat, n: nat, p: nat -> bool, width: nat)
    requires width > 0
    ensures forall a :: 0 <= a < |FixedScan(i, n, p, width)| ==> i <= FixedScan(i, n, p, width)[a] < n && p(FixedScan(i, n, p, width)[a])
    ensures forall a :: 0 <= a < |FixedScan(i, n, p, width)| - 1 ==> FixedScan(i, n, p, width)[a] + width <= FixedScan(i, n, p, width)[a + 1]
    ensures FixedScan(i, n, p, width) == [] <==> forall k :: i <= k < n ==> !p(k)
    decreases n - i
  {
    var f := FirstFrom(i, n, p);
    if f.Some? {
      var k := f.value;
      FixedScanSound(k + width, n, p, width);
      assert FixedScan(i, n, p, width) == [k] + FixedScan(k + width, n, p, width);
    } else {
      assert FixedScan(i, n, p, width) == [];
    }
  }

  /** The `exec` loop: collects exactly `FixedScan`. */
  method FindAll(n: nat, p: nat -> bool, width: nat) returns (positions: seq<nat>)
    requires width > 0
    ensures positions == FixedScan(0, n, p, width)
  {
    positions := [];
    var last := 0;
    while true
      invariant positions + FixedScan(last, n, p, width) == FixedScan(0, n, p, width)
      decreases n - last
    {
      var m := FirstFrom(last, n, p);
      if m.None? {
        assert FixedScan(last, n, p, width) == [];
        assert positions + [] == positions;
        return;
      }
      ghost var rest := FixedScan(m.value + width, n, p, width);
      assert FixedScan(last, n, p, width) == [m.value] + rest;
      assert (positions + [m.value]) + rest == positions + ([m.value] + rest);
      positions := positions + [m.value];
      last := m.value + width;
    }
  }

  function LiteralIn(s: string, lit: string): (p: nat -> bool)
    ensures forall k: nat :: p(k) == CiAt(s, k, lit)
  {
    (k: nat) => CiAt(s, k, lit)
  }

  /** The positions of the marker, as the `gi` search finds them. */
  function MarkerPositions(s: string): (ms: seq<nat>)
  {
    FixedScan(0, |s|, LiteralIn(s, Marker), |Marker|)
  }

  lemma MarkerPositionsSound(s: string)
    ensures forall a :: 0 <= a < |MarkerPositions(s)| ==> CiAt(s, MarkerPositions(s)[a], Marker)
    ensures forall a :: 0 <= a < |MarkerPositions(s)| - 1 ==> MarkerPositions(s)[a] + |Marker| <= MarkerPositions(s)[a + 1]
    ensures MarkerPositions(s) == [] <==> forall k :: 0 <= k < |s| ==> !CiAt(s, k, Marker)
  {
    FixedScanSound(0, |s|, LiteralIn(s, Marker), |Marker|);
  }

  // -------------------------------------------------------------- one section

  /** The closing headings of `fimSecao`. */
  const Stops: seq<string> := [
    "Resumos publicados", "Resumos expandidos", "Apresentações de Trabalho",
    "Livros publicados", "Capítulos de livros", "Textos em jornais",
    "Demais tipos de produção", "Produção técnica", "Trabalhos em eventos",
    "Outras produções", "Organização de eventos", "Inovação", "Eventos", "Orientações"]

  /** `regexFim`, `/^\s*(heading|...)/im`, matches at `q`. */
  predicate StopAt(b: string, q: nat, stops: seq<string>)
  {
    q < |b| && IsLineStart(b, q) && CiAtAny(b, SpaceEnd(b, q), stops)
  }

  /** The first closing heading at or after `q`: the leftmost match of `regexFim`. */
  function FirstStop(b: string, q: nat, stops: seq<string>): (r: Option<nat>)
    ensures r.Some? ==> q <= r.value < |b| && StopAt(b, r.value, stops)
    ensures r.Some? ==> forall j :: q <= j < r.value ==> !StopAt(b, j, stops)
    ensures r.None? ==> forall j :: q <= j < |b| ==> !StopAt(b, j, stops)
    decreases |b| - q
  {
    if q >= |b| then None
    else if StopAt(b, q, stops) then Some(q)
    else FirstStop(b, q + 1, stops)
  }

  /** The last line break in `[lo, hi)` after which `sec` still has a character. */
  function LastBreak(sec: string, lo: nat, hi: nat): (r: Option<nat>)
    ensures r.Some? ==> lo <= r.value < hi && r.value + 1 < |sec| && sec[r.value] == '\n'
    decreases hi
  {
    if hi <= lo then None
    else if hi - 1 + 1 < |sec| && sec[hi - 1] == '\n' then Some(hi - 1)
    else LastBreak(sec, lo, hi - 1)
  }

  /**
   * Where `/Ordem\s+Cronológica\s*\r?\n([\s\S]+)/i`, tried at `o`, starts its group.
   * The `\s*` before the line break gives back spaces until a `\n` follows (an `\r`
   * before it is taken by `\r?`), so the group starts after the last `\n` of the
   * run of spaces that still leaves it a character.
   */
  function OrdemContent(sec: string, o: nat): (r: Option<nat>)
    ensures r.Some? ==> r.value < |sec|
  {
    if !CiAt(sec, o, "Ordem") then None
    else
      var u := SpaceEnd(sec, o + 5);
      if u == o + 5 || !CiAt(sec, u, "Cronológica") then None
      else
        var c := u + 11;
        match LastBreak(sec, c, SpaceEnd(sec, c))
        case None => None
        case Some(j) => Some(j + 1)
  }

  /** Where the leftmost match of the `Ordem Cronológica` pattern at or after `o` begins. */
  function OrdemLabel(sec: string, o: nat): (r: Option<nat>)
    ensures r.Some? ==> o <= r.value < |sec| && OrdemContent(sec, r.value).Some?
    ensures r.Some? ==> forall j :: o <= j < r.value ==> OrdemContent(sec, j).None?
    ensures r.None? ==> forall j :: o <= j < |sec| ==> OrdemContent(sec, j).None?
  {
    FirstFrom(o, |sec|, OrdemIn(sec))
  }

  function OrdemIn(sec: string): (p: nat -> bool)
    ensures forall k: nat :: p(k) == OrdemContent(sec, k).Some?
  {
    (k: nat) => OrdemContent(sec, k).Some?
  }

  /** Where the leftmost match of the `Ordem Cronológica` pattern at or after `o` starts its group. */
  function FirstOrdem(sec: string, o: nat): (r: Option<nat>)
    ensures r.Some? ==> r.value < |sec|
  {
    match OrdemLabel(sec, o)
    case None => None
    case Some(j) => OrdemContent(sec, j)
  }

  /** `bloco.slice(0, fimMatch.index)`: the block up to the first closing heading. */
  function CutAtStop(b: string, stops: seq<string>): (r: string)
    ensures |r| <= |b| && r == b[..|r|]
    ensures forall j :: 0 <= j < |r| ==> !StopAt(b, j, stops)
    ensures |r| == |b| || StopAt(b, |r|, stops)
  {
    match FirstStop(b, 0, stops)
    case None => b
    case Some(q) => b[..q]
  }

  /** What one marker-to-marker section contributes: the trimmed block, if it is not empty. */
  function Block(sec: string, stops: seq<string>): (r: Option<string>)
    ensures r.Some? ==> r.value != [] && Trimmed(r.value)
  {
    match FirstOrdem(sec, 0)
    case None => None
    case Some(c) =>
      var b := CutAtStop(sec[c..], stops);
      TrimIdempotent(b);
      if Trim(b) != [] then Some(Trim(b)) else None
  }

  /** A section without an `Ordem Cronológica` label followed by a line break contributes nothing. */
  lemma NoOrdemNoBlock(sec: string, stops: seq<string>)
    requires forall j :: 0 <= j < |sec| ==> OrdemContent(sec, j).None?
    ensures Block(sec, stops).None?
  {
  }

  /** The group of the leftmost `Ordem Cronológica` match is the one at the leftmost label. */
  lemma FirstOrdemAt(sec: string, o: nat)
    requires o < |sec| && OrdemContent(sec, o).Some?
    requires forall j :: 0 <= j < o ==> OrdemContent(sec, j).None?
    ensures FirstOrdem(sec, 0) == OrdemContent(sec, o)
  {
  }

  /** The cut ends at the first closing heading `e`, or at the end when there is none. */
  lemma CutAtStopAt(b: string, stops: seq<string>, e: nat)
    requires e <= |b| && forall j :: 0 <= j < e ==> !StopAt(b, j, stops)
    requires e == |b| || StopAt(b, e, stops)
    ensures CutAtStop(b, stops) == b[..e]
  {
  }

  /**
   * With its leftmost label at `o` and the first closing heading of the rest at `e`
   * (or none, `e` at the end), a section contributes the trimmed text from the
   * label's line break up to `e`, when that is not empty, and nothing otherwise.
   */
  lemma BlockBetween(sec: string, stops: seq<string>, o: nat, e: nat)
    requires o < |sec| && OrdemContent(sec, o).Some?
    requires forall j :: 0 <= j < o ==> OrdemContent(sec, j).None?
    requires e <= |sec| - OrdemContent(sec, o).value
    requires forall j :: 0 <= j < e ==> !StopAt(sec[OrdemContent(sec, o).value..], j, stops)
    requires e == |sec| - OrdemContent(sec, o).value || StopAt(sec[OrdemContent(sec, o).value..], e, stops)
    ensures var w := Trim(sec[OrdemContent(sec, o).value..][..e]);
            Block(sec, stops) == if w != [] then Some(w) else None
  {
    FirstOrdemAt(sec, o);
    CutAtStopAt(sec[OrdemContent(sec, o).value..], stops, e);
  }

  // ----------------------------------------------------------- all sections

  /** Where the `i`-th section ends: at the next marker, or at the end of the text. */
  function SectionEnd(s: string, positions: seq<nat>, i: nat): nat
    requires i < |positions|
  {
    if i + 1 < |positions| then positions[i + 1] else |s|
  }

  predicate Ordered(s: string, positions: seq<nat>)
  {
    (forall a :: 0 <= a < |positions| ==> positions[a] <= |s|) &&
    (forall a :: 0 <= a < |positions| - 1 ==> positions[a] <= positions[a + 1])
  }

  /** The blocks of the first `n` sections. */
  function BlocksUpTo(s: string, positions: seq<nat>, n: nat, stops: seq<string>): (r: seq<string>)
    requires Ordered(s, positions) && n <= |positions|
    ensures forall k :: 0 <= k < |r| ==> r[k] != [] && Trimmed(r[k])
    ensures |r| <= n
  {
    if n == 0 then []
    else
      var sec := s[positions[n - 1]..SectionEnd(s, positions, n - 1)];
      var done := BlocksUpTo(s, positions, n - 1, stops);
      match Block(sec, stops)
      case None => done
      case Some(b) => done + [b]
  }

  /**
   * What each marker section contributes: the section of marker `i` runs to the next
   * marker, the last one to the end of the text.
   */
  function SectionBlocks(s: string, positions: seq<nat>, stops: seq<string>): (r: seq<Option<string>>)
    requires Ordered(s, positions)
    ensures |r| == |positions|
  {
    seq(|positions|, i requires 0 <= i < |positions| => Block(s[positions[i]..SectionEnd(s, positions, i)], stops))
  }

  /** The blocks of the first `n` sections are their contributions, in marker order. */
  lemma {:induction false} BlocksOfSections(s: string, positions: seq<nat>, n: nat, stops: seq<string>)
    requires Ordered(s, positions) && n <= |positions|
    ensures BlocksUpTo(s, positions, n, stops) == Dedup.Somes(SectionBlocks(s, positions, stops)[..n])
  {
    if n > 0 {
      var bs := SectionBlocks(s, positions, stops);
      BlocksOfSections(s, positions, n - 1, stops);
      Dedup.TakeSnoc(bs, n - 1);
      Dedup.SomesSnoc(bs[..n - 1], bs[n - 1]);
    }
  }

  lemma ScanOrdered(s: string)
    ensures Ordered(s, MarkerPositions(s))
  {
    MarkerPositionsSound(s);
  }

  /**
   * `coletarTrechosDeArtigos`: one trimmed, non-empty block per marker section that
   * has an "Ordem Cronológica" heading; none at all when the text has no marker.
   */
  function SectionsOf(s: string): (r: seq<string>)
    ensures forall k :: 0 <= k < |r| ==> r[k] != [] && Trimmed(r[k])
    ensures (forall k :: 0 <= k < |s| ==> !CiAt(s, k, Marker)) ==> r == []
    ensures |r| <= |MarkerPositions(s)|
  {
    ScanOrdered(s);
    MarkerPositionsSound(s);
    BlocksUpTo(s, MarkerPositions(s), |MarkerPositions(s)|, Stops)
  }

  /** The blocks are the contributions of the sections between the markers found, in order. */
  lemma SectionsAreBlocks(s: string)
    ensures Ordered(s, MarkerPositions(s))
    ensures SectionsOf(s) == Dedup.Somes(SectionBlocks(s, MarkerPositions(s), Stops))
  {
    ScanOrdered(s);
    BlocksOfSections(s, MarkerPositions(s), |MarkerPositions(s)|, Stops);
    Dedup.TakeAll(SectionBlocks(s, MarkerPositions(s), Stops));
  }

  /** One more section adds its block, when it has one. */
  lemma BlocksUpToNext(s: string, positions: seq<nat>, i: nat, stops: seq<string>)
    requires Ordered(s, positions) && i < |positions|
    ensures var b := Block(s[positions[i]..SectionEnd(s, positions, i)], stops);
            BlocksUpTo(s, positions, i + 1, stops) ==
              if b.Some? then BlocksUpTo(s, positions, i, stops) + [b.value] else BlocksUpTo(s, positions, i, stops)
  {
  }

  /** `coletarTrechosDeArtigos` as the source runs it: collect the markers, then one block per section. */
  method CollectSections(s: string) returns (blocks: seq<string>)
    ensures blocks == SectionsOf(s)
  {
    var positions := FindAll(|s|, LiteralIn(s, Marker), |Marker|);
    ScanOrdered(s);
    blocks := CollectBlocks(s, positions, Stops);
  }

  /** The loop over the markers found: no markers, no blocks. */
  method CollectBlocks(s: string, positions: seq<nat>, stops: seq<string>) returns (blocks: seq<string>)
    requires Ordered(s, positions)
    ensures blocks == BlocksUpTo(s, positions, |positions|, stops)
  {
    if |positions| == 0 {
      return [];
    }
    blocks := [];
    var i := 0;
    while i < |positions|
      invariant i <= |positions|
      invariant blocks == BlocksUpTo(s, positions, i, stops)
    {
      blocks := AddBlock(s, positions, i, blocks, stops);
      i := i + 1;
    }
  }

  /** One turn of the loop: the section from marker `i` to the next, and its block if any. */
  method AddBlock(s: string, positions: seq<nat>, i: nat, blocks: seq<string>, stops: seq<string>) returns (r: seq<string>)
    requires Ordered(s, positions) && i < |positions|
    requires blocks == BlocksUpTo(s, positions, i, stops)
    ensures r == BlocksUpTo(s, positions, i + 1, stops)
  {
    var sec := s[positions[i]..SectionEnd(s, positions, i)];
    var block := Block(sec, stops);
    BlocksUpToNext(s, positions, i, stops);
    r := blocks;
    if block.Some? {
      r := r + [block.value];
    }
  }

  // ---------------------------------------------------------------- entries

  /** `.replace(/\r/g, '')`. */
  function RemoveCarriageReturns(s: string): (r: string)
    ensures |r| <= |s|
    ensures forall k :: 0 <= k < |r| ==> r[k] != '\r'
  {
    if s == [] then []
    else (if s[0] == '\r' then [] else [s[0]]) + RemoveCarriageReturns(s[1..])
  }

  /** `$` in multiline mode. */
  function LineEnds(s: string): (p: nat -> bool)
    ensures forall k: nat :: p(k) == (k == |s| || (k < |s| && IsLineTerminator(s[k])))
  {
    (k: nat) => k == |s| || (k < |s| && IsLineTerminator(s[k]))
  }

  /**
   * Where `/^\s*\d+\.\s*$/m` (with `leading`) or `/^\d+\.\s*$/m` (without), tried at
   * line start `q`, ends. The digits and the leading spaces are maximal runs; the
   * trailing `\s*` gives back spaces until it stands before a line end, so it may
   * also swallow blank lines that follow.
   */
  function NumberLineEnd(s: string, q: nat, leading: bool): (r: Option<nat>)
    ensures r.Some? ==> q < r.value <= |s|
  {
    if !(q < |s| && IsLineStart(s, q)) then None
    else
      var a := if leading then SpaceEnd(s, q) else q;
      if !(a < |s| && IsDigit(s[a])) then None
      else
        var d := DigitsEnd(s, a);
        if !(d < |s| && s[d] == '.') then None
        else LastLineEnd(s, d + 1, SpaceEnd(s, d + 1) + 1)
  }

  function DigitsEnd(s: string, i: nat): (j: nat)
    requires i <= |s|
    ensures i <= j <= |s|
    ensures forall k :: i <= k < j ==> IsDigit(s[k])
    ensures j < |s| ==> !IsDigit(s[j])
    decreases |s| - i
  {
    if i < |s| && IsDigit(s[i]) then DigitsEnd(s, i + 1) else i
  }

  /** `$` in multiline mode holds at `k`. */
  predicate LineEndAt(s: string, k: nat)
  {
    k == |s| || (k < |s| && IsLineTerminator(s[k]))
  }

  /** The greatest `k` in `[lo, hi)` where `$` holds: where the greedy `\s*` before it settles. */
  function LastLineEnd(s: string, lo: nat, hi: nat): (r: Option<nat>)
    ensures r.Some? ==> lo <= r.value < hi && LineEndAt(s, r.value)
    ensures r.Some? ==> forall k :: r.value < k < hi ==> !LineEndAt(s, k)
    ensures r.None? ==> forall k :: lo <= k < hi ==> !LineEndAt(s, k)
    decreases hi
  {
    if hi <= lo then None
    else if LineEndAt(s, hi - 1) then Some(hi - 1)
    else LastLineEnd(s, lo, hi - 1)
  }

  /** The next numbering line at or after `i`: its index and where its match ends. */
  function NextNumberLine(s: string, i: nat, leading: bool): (r: Option<(nat, nat)>)
    ensures r.Some? ==> i <= r.value.0 < r.value.1 <= |s|
    decreases |s| - i
  {
    if i >= |s| then None
    else match NumberLineEnd(s, i, leading)
      case Some(e) => Some((i, e))
      case None => NextNumberLine(s, i + 1, leading)
  }

  /**
   * The next numbering line is one, and the first: none comes before it, and
   * none at all when there is no next.
   */
  lemma NextNumberLineFirst(s: string, i: nat, leading: bool)
    ensures NextNumberLine(s, i, leading).Some? ==>
              NumberLineEnd(s, NextNumberLine(s, i, leading).value.0, leading) == Some(NextNumberLine(s, i, leading).value.1)
    ensures NextNumberLine(s, i, leading).Some? ==>
              forall q :: i <= q < NextNumberLine(s, i, leading).value.0 ==> NumberLineEnd(s, q, leading).None?
    ensures NextNumberLine(s, i, leading).None? ==> forall q :: i <= q < |s| ==> NumberLineEnd(s, q, leading).None?
  {
    NextNumberLineIsOne(s, i, leading);
    NextNumberLineNoneBefore(s, i, leading);
  }

  lemma {:induction false} NextNumberLineIsOne(s: string, i: nat, leading: bool)
    ensures NextNumberLine(s, i, leading).Some? ==>
              NumberLineEnd(s, NextNumberLine(s, i, leading).value.0, leading) == Some(NextNumberLine(s, i, leading).value.1)
    decreases |s| - i
  {
    if i < |s| && NumberLineEnd(s, i, leading).None? {
      NextNumberLineIsOne(s, i + 1, leading);
    }
  }

  /** No numbering line between `i` and the next one found, or up to the end when none is. */
  lemma {:induction false} NextNumberLineNoneBefore(s: string, i: nat, leading: bool)
    ensures forall q :: i <= q < (match NextNumberLine(s, i, leading) case Some(m) => m.0 case None => |s|) ==>
              NumberLineEnd(s, q, leading).None?
    decreases |s| - i
  {
    if i < |s| && NumberLineEnd(s, i, leading).None? {
      var r := NextNumberLine(s, i + 1, leading);
      assert NextNumberLine(s, i, leading) == r;
      NextNumberLineNoneBefore(s, i + 1, leading);
    }
  }

  /** The `(index, end)` of each numbering line the `g` scan finds from `lastIndex = i` on. */
  function NumberScan(s: string, i: nat, leading: bool): seq<(nat, nat)>
    requires i <= |s|
    decreases |s| - i
  {
    match NextNumberLine(s, i, leading)
    case None => []
    case Some(m) => [m] + NumberScan(s, m.1, leading)
  }

  /** The marks lie inside the text from `i` on, each after the previous one. */
  lemma {:induction false} NumberScanOrdered(s: string, i: nat, leading: bool)
    requires i <= |s|
    ensures forall a :: 0 <= a < |NumberScan(s, i, leading)| ==> i <= NumberScan(s, i, leading)[a].0
    ensures WellMarked(s, NumberScan(s, i, leading))
    decreases |s| - i
  {
    var m := NextNumberLine(s, i, leading);
    if m.Some? {
      NumberScanOrdered(s, m.value.1, leading);
      var rest := NumberScan(s, m.value.1, leading);
      var ms := [m.value] + rest;
      assert NumberScan(s, i, leading) == ms;
      forall a | 0 <= a < |ms|
        ensures i <= ms[a].0 < ms[a].1 <= |s|
      {
        if a > 0 {
          assert ms[a] == rest[a - 1];
        }
      }
      forall a | 0 <= a < |ms| - 1
        ensures ms[a].1 <= ms[a + 1].0
      {
        assert ms[a + 1] == rest[a];
        if a > 0 {
          assert ms[a] == rest[a - 1];
        }
      }
    }
  }

  /** Every reported mark is a numbering line. */
  lemma {:induction false} NumberScanSound(s: string, i: nat, leading: bool)
    requires i <= |s|
    ensures forall a :: 0 <= a < |NumberScan(s, i, leading)| ==>
              NumberLineEnd(s, NumberScan(s, i, leading)[a].0, leading) == Some(NumberScan(s, i, leading)[a].1)
    decreases |s| - i
  {
    var m := NextNumberLine(s, i, leading);
    if m.Some? {
      NextNumberLineFirst(s, i, leading);
      NumberScanSound(s, m.value.1, leading);
      var rest := NumberScan(s, m.value.1, leading);
      var ms := [m.value] + rest;
      assert NumberScan(s, i, leading) == ms;
      assert forall a :: 0 < a < |ms| ==> ms[a] == rest[a - 1];
    }
  }

  /** The scan reports nothing exactly when there is no numbering line. */
  lemma NumberScanEmpty(s: string, i: nat, leading: bool)
    requires i <= |s|
    ensures NumberScan(s, i, leading) == [] <==> forall q :: i <= q < |s| ==> NumberLineEnd(s, q, leading).None?
  {
    NextNumberLineFirst(s, i, leading);
  }

  /** The exec loop that fills `indices` in `dividirEmEntradas`. */
  method FindNumberLines(s: string, leading: bool) returns (marks: seq<(nat, nat)>)
    ensures marks == NumberScan(s, 0, leading)
  {
    marks := [];
    var last := 0;
    while true
      invariant last <= |s|
      invariant marks + NumberScan(s, last, leading) == NumberScan(s, 0, leading)
      decreases |s| - last
    {
      var m := NextNumberLine(s, last, leading);
      if m.None? {
        assert NumberScan(s, last, leading) == [];
        assert marks + [] == marks;
        return;
      }
      ghost var rest := NumberScan(s, m.value.1, leading);
      assert NumberScan(s, last, leading) == [m.value] + rest;
      assert (marks + [m.value]) + rest == marks + ([m.value] + rest);
      marks := marks + [m.value];
      last := m.value.1;
    }
  }

  /** Where the text of entry `i` ends: at the next numbering line, or at the end of the block. */
  function ContentEnd(t: string, marks: seq<(nat, nat)>, i: nat): nat
    requires i < |marks|
  {
    if i + 1 < |marks| then marks[i + 1].0 else |t|
  }

  predicate WellMarked(t: string, marks: seq<(nat, nat)>)
  {
    (forall a :: 0 <= a < |marks| ==> marks[a].0 < marks[a].1 <= |t|) &&
    (forall a :: 0 <= a < |marks| - 1 ==> marks[a].1 <= marks[a + 1].0)
  }

  /** The trimmed, non-empty texts after the first `n` numbering lines. */
  function ChunksUpTo(t: string, marks: seq<(nat, nat)>, n: nat): (r: seq<string>)
    requires WellMarked(t, marks) && n <= |marks|
    ensures forall k :: 0 <= k < |r| ==> r[k] != [] && Trimmed(r[k])
    ensures |r| <= n
  {
    if n == 0 then []
    else
      var chunk := Trim(t[marks[n - 1].1..ContentEnd(t, marks, n - 1)]);
      TrimIdempotent(t[marks[n - 1].1..ContentEnd(t, marks, n - 1)]);
      var done := ChunksUpTo(t, marks, n - 1);
      if chunk != [] then done + [chunk] else done
  }

  /**
   * The entry after numbering line `i`: the text from the end of that line to the
   * start of the next one (to the end of the block for the last), trimmed, when it
   * is not empty.
   */
  function ChunkAt(t: string, marks: seq<(nat, nat)>, i: nat): Option<string>
    requires WellMarked(t, marks) && i < |marks|
  {
    var c := Trim(t[marks[i].1..ContentEnd(t, marks, i)]);
    if c != [] then Some(c) else None
  }

  /** The entry after each numbering line, in order. */
  function MarkChunks(t: string, marks: seq<(nat, nat)>): (r: seq<Option<string>>)
    requires WellMarked(t, marks)
    ensures |r| == |marks|
  {
    seq(|marks|, i requires 0 <= i < |marks| => ChunkAt(t, marks, i))
  }

  /** The texts after the first `n` numbering lines are their entries, in order, the empty ones left out. */
  lemma {:induction false} ChunksBetweenMarks(t: string, marks: seq<(nat, nat)>, n: nat)
    requires WellMarked(t, marks) && n <= |marks|
    ensures ChunksUpTo(t, marks, n) == Dedup.Somes(MarkChunks(t, marks)[..n])
  {
    if n > 0 {
      var cs := MarkChunks(t, marks);
      ChunksBetweenMarks(t, marks, n - 1);
      Dedup.TakeSnoc(cs, n - 1);
      Dedup.SomesSnoc(cs[..n - 1], cs[n - 1]);
    }
  }

  /** `dividirEmEntradas`: the entries of one block. */
  function EntriesOf(block: string): (r: seq<string>)
    ensures forall k :: 0 <= k < |r| ==> r[k] != [] && Trimmed(r[k])
  {
    var t := RemoveCarriageReturns(block);
    var marks := NumberScan(t, 0, true);
    NumberScanOrdered(t, 0, true);
    ChunksUpTo(t, marks, |marks|)
  }

  /** No numbering line, no entries. */
  lemma NoNumberNoEntries(block: string)
    requires forall q :: 0 <= q < |RemoveCarriageReturns(block)| ==> NumberLineEnd(RemoveCarriageReturns(block), q, true).None?
    ensures EntriesOf(block) == []
  {
    var t := RemoveCarriageReturns(block);
    NumberScanEmpty(t, 0, true);
  }

  /**
   * The entries of a block are, in order, the non-empty trimmed texts between
   * consecutive numbering lines of its text without `\r`, the last running to the end.
   */
  lemma EntriesBetweenNumberLines(block: string)
    ensures var t := RemoveCarriageReturns(block);
            var marks := NumberScan(t, 0, true);
            && WellMarked(t, marks)
            && (forall a :: 0 <= a < |marks| ==> NumberLineEnd(t, marks[a].0, true) == Some(marks[a].1))
            && EntriesOf(block) == Dedup.Somes(MarkChunks(t, marks))
  {
    var t := RemoveCarriageReturns(block);
    var marks := NumberScan(t, 0, true);
    NumberScanOrdered(t, 0, true);
    NumberScanSound(t, 0, true);
    ChunksBetweenMarks(t, marks, |marks|);
    Dedup.TakeAll(MarkChunks(t, marks));
  }

  /** `dividirEmEntradas` as the source runs it: collect the numbering lines, then slice between them. */
  method SplitEntries(block: string) returns (entries: seq<string>)
    ensures entries == EntriesOf(block)
  {
    var t := RemoveCarriageReturns(block);
    var marks := FindNumberLines(t, true);
    NumberScanOrdered(t, 0, true);
    entries := CollectChunks(t, marks);
  }

  /** The slicing loop over the numbering lines found: none, no entries. */
  method CollectChunks(t: string, marks: seq<(nat, nat)>) returns (entries: seq<string>)
    requires WellMarked(t, marks)
    ensures entries == ChunksUpTo(t, marks, |marks|)
  {
    if |marks| == 0 {
      return [];
    }
    entries := [];
    var i := 0;
    while i < |marks|
      invariant i <= |marks|
      invariant entries == ChunksUpTo(t, marks, i)
    {
      entries := AddChunk(t, marks, i, entries);
      i := i + 1;
    }
  }

  /** One turn of the loop: the text from the end of numbering line `i` to the next one, trimmed, if not empty. */
  method AddChunk(t: string, marks: seq<(nat, nat)>, i: nat, entries: seq<string>) returns (r: seq<string>)
    requires WellMarked(t, marks) && i < |marks|
    requires entries == ChunksUpTo(t, marks, i)
    ensures r == ChunksUpTo(t, marks, i + 1)
  {
    var startContent := marks[i].1;
    var endContent := if i + 1 < |marks| then marks[i + 1].0 else |t|;
    var chunk := Trim(t[startContent..endContent]);
    r := entries;
    if |chunk| > 0 {
      r := r + [chunk];
    }
  }

  // ------------------------------------------------------ all the entries

  /** The entries of `blocks`, block after block: what the nested `forEach` loops visit. */
  function EntriesOfBlocks(blocks: seq<string>): seq<string>
  {
    if blocks == [] then [] else EntriesOfBlocks(blocks[..|blocks| - 1]) + EntriesOf(blocks[|blocks| - 1])
  }

  lemma EntriesOfBlocksSnoc(blocks: seq<string>, i: nat)
    requires i < |blocks|
    ensures EntriesOfBlocks(blocks[..i + 1]) == EntriesOfBlocks(blocks[..i]) + EntriesOf(blocks[i])
  {
    assert blocks[..i + 1][..i] == blocks[..i];
  }

  /** The entries of every article block of a CV, in order. */
  function AllEntries(text: string): seq<string>
  {
    EntriesOfBlocks(SectionsOf(text))
  }
}
