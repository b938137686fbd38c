/**
 * The summaries of ui.js over the analysed profiles: the number of different
 * articles, the committee total, the sorted list of different articles, the
 * number of different known institutions, and the text of the CSV export.
 * Articles are told apart by the key ui.js folds inline (`FoldKey.UiKey`).
 */
module Summary {
  import opened Wrappers
  import opened Text
  import opened Dedup
  import opened FoldKey
  import opened Curriculum
  import Tally
  import Charts
  import Institution

  // ---------------------------------------------------------------- articles

  /** Every title of every profile, in order. */
  function AllTitles(ps: seq<Profile>): seq<string>
  {
    if ps == [] then [] else AllTitles(ps[..|ps| - 1]) + ps[|ps| - 1].titles
  }

  /** `contarArtigosUnicos`: the size of the set of keys. */
  function UniqueArticleCount(ps: seq<Profile>): nat
  {
    |KeySet(AllTitles(ps), UiKey)|
  }

  lemma AllTitlesNext(ps: seq<Profile>, i: nat)
    requires i < |ps|
    ensures AllTitles(ps[..i + 1]) == AllTitles(ps[..i]) + ps[i].titles
  {
    assert ps[..i + 1][..i] == ps[..i];
  }

  /** The nested `forEach` adding each key to the set. */
  method CountUniqueArticles(ps: seq<Profile>) returns (n: nat)
    ensures n == UniqueArticleCount(ps)
  {
    var seen: set<string> := {};
    var i := 0;
    while i < |ps|
      invariant i <= |ps|
      invariant seen == KeySet(AllTitles(ps[..i]), UiKey)
    {
      var ts := ps[i].titles;
      ghost var before := AllTitles(ps[..i]);
      var j := 0;
      Dedup.AppendNone(before, ts);
      while j < |ts|
        invariant j <= |ts|
        invariant seen == KeySet(before + ts[..j], UiKey)
      {
        TakeOneMore(before, ts, j);
        KeySetSnoc(before + ts[..j], ts[j], UiKey);
        seen := seen + {UiKey(ts[j])};
        j := j + 1;
      }
      Dedup.TakeAll(ts);
      AllTitlesNext(ps, i);
      i := i + 1;
    }
    Dedup.TakeAll(ps);
    n := |seen|;
  }

  /** Strings in the order of `Array.prototype.sort` without a comparator. */
  predicate Sorted(xs: seq<string>)
  {
    forall i, j :: 0 <= i < j < |xs| ==> StrLe(xs[i], xs[j])
  }

  function InsertSorted(x: string, xs: seq<string>): seq<string>
  {
    if xs == [] then [x]
    else if StrLe(x, xs[0]) then [x] + xs
    else [xs[0]] + InsertSorted(x, xs[1..])
  }

  /** Inserting adds `x` once and keeps every other string. */
  lemma {:induction false} InsertSortedPermutes(x: string, xs: seq<string>)
    ensures multiset(InsertSorted(x, xs)) == multiset(xs) + multiset{x}
  {
    if xs != [] && !StrLe(x, xs[0]) {
      assert xs == [xs[0]] + xs[1..];
      InsertSortedPermutes(x, xs[1..]);
    }
  }

  /** Inserting into a sorted list keeps it sorted. */
  lemma {:induction false} InsertSortedSorted(x: string, xs: seq<string>)
    requires Sorted(xs)
    ensures Sorted(InsertSorted(x, xs))
  {
    if xs != [] {
      if StrLe(x, xs[0]) {
        forall j | 0 < j < |xs|
          ensures StrLe(x, xs[j])
        {
          StrLeTransitive(x, xs[0], xs[j]);
        }
      } else {
        StrLeTotal(x, xs[0]);
        var rest := InsertSorted(x, xs[1..]);
        InsertSortedSorted(x, xs[1..]);
        InsertSortedPermutes(x, xs[1..]);
        forall j | 0 <= j < |rest|
          ensures StrLe(xs[0], rest[j])
        {
          assert rest[j] in multiset(rest);
          if rest[j] != x {
            assert rest[j] in multiset(xs[1..]);
            var m :| 0 <= m < |xs[1..]| && xs[1..][m] == rest[j];
            assert xs[m + 1] == rest[j];
          }
        }
      }
    }
  }

  /** `.sort()` on strings. */
  function SortStrings(xs: seq<string>): seq<string>
  {
    if xs == [] then [] else InsertSorted(xs[|xs| - 1], SortStrings(xs[..|xs| - 1]))
  }

  /** The sort orders the strings and keeps each of them, as often as it occurs. */
  lemma {:induction false} SortStringsSound(xs: seq<string>)
    ensures Sorted(SortStrings(xs))
    ensures multiset(SortStrings(xs)) == multiset(xs)
  {
    if xs != [] {
      SortStringsSound(xs[..|xs| - 1]);
      InsertSortedPermutes(xs[|xs| - 1], SortStrings(xs[..|xs| - 1]));
      InsertSortedSorted(xs[|xs| - 1], SortStrings(xs[..|xs| - 1]));
      assert xs == xs[..|xs| - 1] + [xs[|xs| - 1]];
    }
  }

  /** `Array.from(titulosMap.values()).sort()`. */
  function UniqueArticleList(ps: seq<Profile>): seq<string>
  {
    SortStrings(FirstPerKey(AllTitles(ps), UiKey))
  }

  /**
   * The article list is sorted, holds exactly the titles kept for their keys,
   * and has as many titles as `contarArtigosUnicos` counts.
   */
  lemma UniqueArticleListSound(ps: seq<Profile>)
    ensures Sorted(UniqueArticleList(ps))
    ensures forall t :: t in UniqueArticleList(ps) <==> t in FirstPerKey(AllTitles(ps), UiKey)
    ensures |UniqueArticleList(ps)| == UniqueArticleCount(ps)
  {
    var kept := FirstPerKey(AllTitles(ps), UiKey);
    SortStringsSound(kept);
    assert |SortStrings(kept)| == |multiset(SortStrings(kept))| == |multiset(kept)| == |kept|;
    forall t
      ensures t in UniqueArticleList(ps) <==> t in kept
    {
      assert t in multiset(SortStrings(kept)) <==> t in multiset(kept);
    }
    FirstPerKeyCount(AllTitles(ps), UiKey);
  }

  /** The title listed for a key is the first title seen with that key. */
  lemma UniqueArticleListFirst(ps: seq<Profile>, k: nat)
    requires k < |AllTitles(ps)|
    requires forall j :: 0 <= j < k ==> UiKey(AllTitles(ps)[j]) != UiKey(AllTitles(ps)[k])
    ensures AllTitles(ps)[k] in UniqueArticleList(ps)
  {
    FirstPerKeyFirst(AllTitles(ps), UiKey, k);
    UniqueArticleListSound(ps);
  }

  /** The nested `forEach` filling `titulosMap`, then the sort. */
  method ListUniqueArticles(ps: seq<Profile>) returns (list: seq<string>)
    ensures list == UniqueArticleList(ps)
  {
    var values: seq<string> := [];
    var keys: set<string> := {};
    var i := 0;
    while i < |ps|
      invariant i <= |ps|
      invariant values == FirstPerKey(AllTitles(ps[..i]), UiKey) && keys == KeySet(values, UiKey)
    {
      AllTitlesNext(ps, i);
      values, keys := KeepFirstTitles(values, keys, AllTitles(ps[..i]), ps[i].titles);
      i := i + 1;
    }
    Dedup.TakeAll(ps);
    list := SortStrings(values);
  }

  /** The inner `forEach` over one profile's titles: a title is kept when its key is new. */
  method KeepFirstTitles(values0: seq<string>, keys0: set<string>, ghost before: seq<string>, ts: seq<string>)
    returns (values: seq<string>, keys: set<string>)
    requires values0 == FirstPerKey(before, UiKey) && keys0 == KeySet(values0, UiKey)
    ensures values == FirstPerKey(before + ts, UiKey) && keys == KeySet(values, UiKey)
  {
    values, keys := values0, keys0;
    var j := 0;
    ghost var visited := before;
    Dedup.AppendNone(before, ts);
    while j < |ts|
      invariant j <= |ts| && visited == before + ts[..j]
      invariant values == FirstPerKey(visited, UiKey) && keys == KeySet(values, UiKey)
    {
      TakeOneMore(before, ts, j);
      FirstPerKeySnoc(visited, ts[j], UiKey);
      var key := UiKey(ts[j]);
      if key !in keys {
        KeySetSnoc(values, ts[j], UiKey);
        keys := keys + {key};
        values := values + [ts[j]];
      }
      visited := visited + [ts[j]];
      j := j + 1;
    }
    Dedup.TakeAll(ts);
  }

  // -------------------------------------------------------------- committees

  /** `r.bancas ? r.bancas.total : 0`. */
  function CommitteeTotal(p: Profile): nat
  {
    match p.committees
    case Some(c) => c.total
    case None => 0
  }

  /** `contarTotalBancas`: the `reduce` from `0`. */
  function TotalCommittees(ps: seq<Profile>): nat
  {
    if ps == [] then 0 else TotalCommittees(ps[..|ps| - 1]) + CommitteeTotal(ps[|ps| - 1])
  }

  /** The total over two groups of profiles is the sum of their totals. */
  lemma {:induction false} TotalCommitteesAppend(a: seq<Profile>, b: seq<Profile>)
    ensures TotalCommittees(a + b) == TotalCommittees(a) + TotalCommittees(b)
    decreases |b|
  {
    if b == [] {
      assert a + b == a;
    } else {
      assert (a + b)[..|a + b| - 1] == a + b[..|b| - 1];
      TotalCommitteesAppend(a, b[..|b| - 1]);
    }
  }

  /** The count of one kind of committee a profile has, `0` when it has no counts. */
  function KindCount(p: Profile, k: Committees.Kind): nat
  {
    match p.committees
    case None => 0
    case Some(c) => Committees.Field(c, k)
  }

  /** One kind of committee summed over the profiles. */
  function KindTotal(ps: seq<Profile>, k: Committees.Kind): nat
  {
    if ps == [] then 0 else KindTotal(ps[..|ps| - 1], k) + KindCount(ps[|ps| - 1], k)
  }

  /** A profile whose total is the sum of its four kinds, or that has no counts. */
  predicate CountsAddUp(p: Profile)
  {
    p.committees.Some? ==>
      p.committees.value.total == p.committees.value.undergraduate + p.committees.value.masters +
                                  p.committees.value.doctorate + p.committees.value.qualifying
  }

  /** Every profile `analisarCurriculo` builds has counts that add up. */
  lemma ProfileCountsAddUp(t: string, lo: int, hi: int)
    ensures CountsAddUp(ProfileOf(t, lo, hi))
  {
    ProfileShape(t, lo, hi);
  }

  /**
   * Over profiles whose counts add up, `contarTotalBancas` is the number of
   * committees of the four kinds, each kind summed over all the profiles.
   */
  lemma {:induction false} TotalCommitteesKinds(ps: seq<Profile>)
    requires forall i :: 0 <= i < |ps| ==> CountsAddUp(ps[i])
    ensures TotalCommittees(ps) == KindTotal(ps, Committees.Undergraduate) + KindTotal(ps, Committees.Masters) +
                                   KindTotal(ps, Committees.Doctorate) + KindTotal(ps, Committees.Qualifying)
  {
    if ps != [] {
      var init := ps[..|ps| - 1];
      assert forall i :: 0 <= i < |init| ==> init[i] == ps[i];
      TotalCommitteesKinds(init);
      assert CountsAddUp(ps[|ps| - 1]);
    }
  }

  // ------------------------------------------------------------ institutions

  /** `new Set(resultados.map(r => r.instituicaoAtual).filter(i => i !== 'Não informado'))`. */
  function UniqueInstitutions(ps: seq<Profile>): (s: set<string>)
    ensures Institution.NotInformed !in s
  {
    set i | 0 <= i < |ps| && ps[i].institution != Institution.NotInformed :: ps[i].institution
  }

  lemma {:induction false} ProfilesAtPositive(ps: seq<Profile>, k: string)
    ensures Charts.ProfilesAt(ps, k) > 0 <==> exists i :: 0 <= i < |ps| && ps[i].institution == k
  {
    if ps != [] {
      var init := ps[..|ps| - 1];
      ProfilesAtPositive(init, k);
      if exists i :: 0 <= i < |ps| && ps[i].institution == k {
        var i :| 0 <= i < |ps| && ps[i].institution == k;
        if i < |init| {
          assert init[i] == ps[i];
        }
      }
      if exists i :: 0 <= i < |init| && init[i].institution == k {
        var i :| 0 <= i < |init| && init[i].institution == k;
        assert ps[i] == init[i];
      }
    }
  }

  /** The number shown is the number of bars of the institution chart. */
  lemma UniqueInstitutionsCharted(ps: seq<Profile>)
    ensures |UniqueInstitutions(ps)| == |Charts.InstitutionTally(ps)|
    ensures |UniqueInstitutions(ps)| <= Charts.KnownInstitutions(ps) <= |ps|
  {
    var t := Charts.InstitutionTally(ps);
    Tally.TallyUnique(Charts.InstitutionItems(ps));
    Tally.UniqueKeysCount(t);
    forall k
      ensures k in Tally.EntryKeys(t) <==> k in UniqueInstitutions(ps)
    {
      Tally.EntryKeysFind(t, k);
      Tally.TallyCounts(Charts.InstitutionItems(ps), k);
      Charts.InstitutionCounts(ps, k);
      ProfilesAtPositive(ps, k);
      if k in UniqueInstitutions(ps) {
        var i :| 0 <= i < |ps| && ps[i].institution != Institution.NotInformed && ps[i].institution == k;
      }
    }
    assert Tally.EntryKeys(t) == UniqueInstitutions(ps);
    Charts.InstitutionCounts(ps, "");
    Tally.TallySum(Charts.InstitutionItems(ps));
    SumBound(t);
    KnownBound(ps);
  }

  /** Every entry of a tally counts at least one item. */
  lemma {:induction false} SumBound<P>(t: Tally.Table<P>)
    requires forall i :: 0 <= i < |t| ==> t[i].count > 0
    ensures |t| <= Tally.Sum(t)
  {
    if t != [] {
      SumBound(t[..|t| - 1]);
    }
  }

  lemma {:induction false} KnownBound(ps: seq<Profile>)
    ensures Charts.KnownInstitutions(ps) <= |ps|
  {
    if ps != [] {
      KnownBound(ps[..|ps| - 1]);
    }
  }

  // -------------------------------------------------------------- CSV export

  const Bom: string := "\U{FEFF}"
  const Header: string := "Pesquisador,Artigos no Período,Bancas,Instituição Atual,Nacionalidade,Idiomas\n"

  /** One profile's line: the text fields quoted, the languages joined with `"; "`. */
  function CsvRow(p: Profile): string
  {
    "\"" + p.name + "\"," + NatToString(p.articles) + "," + NatToString(CommitteeTotal(p)) +
    ",\"" + p.institution + "\",\"" + p.nationality + "\",\"" + Join(p.languages, "; ") + "\"\n"
  }

  /** The `csv` string of `exportCSV`. */
  function Csv(ps: seq<Profile>): string
  {
    if ps == [] then Bom + Header else Csv(ps[..|ps| - 1]) + CsvRow(ps[|ps| - 1])
  }

  /** `s` holds no line break. */
  predicate OneLine(s: string)
  {
    forall k :: 0 <= k < |s| ==> s[k] != '\n'
  }

  /** No text field of the profile holds a line break. */
  predicate FlatFields(p: Profile)
  {
    OneLine(p.name) && OneLine(p.institution) && OneLine(p.nationality) &&
    forall l :: l in p.languages ==> OneLine(l)
  }

  lemma {:induction false} CountNone(s: string, c: char)
    requires forall k :: 0 <= k < |s| ==> s[k] != c
    ensures Count(s, c) == 0
  {
    if s != [] {
      CountNone(s[1..], c);
    }
  }

  lemma {:induction false} JoinOneLine(parts: seq<string>, sep: string)
    requires OneLine(sep) && forall l :: l in parts ==> OneLine(l)
    ensures OneLine(Join(parts, sep))
  {
    if |parts| > 1 {
      JoinOneLine(parts[1..], sep);
      assert parts[0] in parts;
    }
  }

  lemma DigitsOneLine(n: nat)
    ensures OneLine(NatToString(n))
  {
  }

  /** A row of flat fields is one line, ended by its line break. */
  lemma RowIsOneLine(p: Profile)
    requires FlatFields(p)
    ensures Count(CsvRow(p), '\n') == 1
    ensures CsvRow(p)[|CsvRow(p)| - 1] == '\n'
  {
    JoinOneLine(p.languages, "; ");
    DigitsOneLine(p.articles);
    DigitsOneLine(CommitteeTotal(p));
    var body := CsvRow(p)[..|CsvRow(p)| - 1];
    assert CsvRow(p) == body + "\n";
    assert OneLine(body);
    CountNone(body, '\n');
    CountAppend(body, "\n", '\n');
  }

  /**
   * The export starts with the byte-order mark and the header, and holds one
   * line more per profile than the header, as long as no field breaks a line.
   */
  lemma {:induction false} CsvShape(ps: seq<Profile>)
    requires forall i :: 0 <= i < |ps| ==> FlatFields(ps[i])
    ensures Bom + Header <= Csv(ps)
    ensures Count(Csv(ps), '\n') == Count(Bom + Header, '\n') + |ps|
  {
    if ps != [] {
      var init := ps[..|ps| - 1];
      CsvShape(init);
      RowIsOneLine(ps[|ps| - 1]);
      CountAppend(Csv(init), CsvRow(ps[|ps| - 1]), '\n');
    }
  }

  /** The string building of `exportCSV`: the header, then one line per profile. */
  method ExportCsv(ps: seq<Profile>) returns (csv: string)
    ensures csv == Csv(ps)
  {
    csv := Bom;
    csv := csv + Header;
    var i := 0;
    while i < |ps|
      invariant i <= |ps|
      invariant csv == Csv(ps[..i])
    {
      assert ps[..i + 1][..i] == ps[..i];
      var p := ps[i];
      var languages := Join(p.languages, "; ");
      var committees := CommitteeTotal(p);
      var row := "\"" + p.name + "\"," + NatToString(p.articles) + "," + NatToString(committees) +
        ",\"" + p.institution + "\",\"" + p.nationality + "\",\"" + languages + "\"\n";
      csv := csv + row;
      i := i + 1;
    }
    Dedup.TakeAll(ps);
  }
}
