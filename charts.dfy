/**
 * The tallies behind the four charts of charts.js: profiles per current
 * institution, profiles per nationality, degrees per kind, and profiles per
 * language ranked by count. The drawing itself is not modelled.
 */
module Charts {
  import opened Wrappers
  import opened Text
  import opened Tally
  import opened Dedup
  import opened Curriculum
  import Degrees
  import Institution

  const NotInformed: string := Institution.NotInformed

  // ------------------------------------------------------------ institutions

  /** `criarGraficoInstituicoes`: the known institutions, one item per profile. */
  function InstitutionItems(ps: seq<Profile>): seq<(string, ())>
  {
    if ps == [] then []
    else
      var last := ps[|ps| - 1];
      InstitutionItems(ps[..|ps| - 1]) + if last.institution != NotInformed then [(last.institution, ())] else []
  }

  function InstitutionTally(ps: seq<Profile>): Table<()>
  {
    TallyOf(InstitutionItems(ps))
  }

  /** How many profiles name `k` as their current institution. */
  function ProfilesAt(ps: seq<Profile>, k: string): nat
  {
    if ps == [] then 0 else ProfilesAt(ps[..|ps| - 1], k) + if ps[|ps| - 1].institution == k then 1 else 0
  }

  /** How many profiles have a known current institution. */
  function KnownInstitutions(ps: seq<Profile>): nat
  {
    if ps == [] then 0 else KnownInstitutions(ps[..|ps| - 1]) + if ps[|ps| - 1].institution != NotInformed then 1 else 0
  }

  lemma {:induction false} InstitutionItemsCount(ps: seq<Profile>, k: string)
    ensures Occurrences(InstitutionItems(ps), k) == if k == NotInformed then 0 else ProfilesAt(ps, k)
    ensures |InstitutionItems(ps)| == KnownInstitutions(ps)
  {
    if ps != [] {
      var last := ps[|ps| - 1];
      InstitutionItemsCount(ps[..|ps| - 1], k);
      OccurrencesAppend(InstitutionItems(ps[..|ps| - 1]), if last.institution != NotInformed then [(last.institution, ())] else [], k);
      assert Occurrences([(last.institution, ())], k) == if last.institution == k then 1 else 0 by {
        assert [(last.institution, ())][..0] == [];
      }
    }
  }

  /**
   * Each institution counts the profiles that name it, `Não informado` is never
   * counted, and the counts add up to the profiles with a known institution.
   */
  lemma InstitutionCounts(ps: seq<Profile>, k: string)
    ensures CountOf(InstitutionTally(ps), k) == if k == NotInformed then 0 else ProfilesAt(ps, k)
    ensures Sum(InstitutionTally(ps)) == KnownInstitutions(ps)
  {
    TallyCounts(InstitutionItems(ps), k);
    InstitutionItemsCount(ps, k);
    TallySum(InstitutionItems(ps));
  }

  lemma InstitutionItemsNext(ps: seq<Profile>, i: nat)
    requires i < |ps|
    ensures InstitutionItems(ps[..i + 1]) ==
      InstitutionItems(ps[..i]) + if ps[i].institution != NotInformed then [(ps[i].institution, ())] else []
  {
    assert ps[..i + 1][..i] == ps[..i];
    assert ps[..i + 1][i] == ps[i];
  }

  /** The `forEach` that counts each known institution. */
  method TallyInstitutions(ps: seq<Profile>) returns (t: Table<()>)
    ensures t == InstitutionTally(ps)
  {
    t := [];
    var i := 0;
    while i < |ps|
      invariant i <= |ps|
      invariant t == TallyOf(InstitutionItems(ps[..i]))
    {
      InstitutionItemsNext(ps, i);
      if ps[i].institution != NotInformed {
        TallySnoc(InstitutionItems(ps[..i]), (ps[i].institution, ()));
        t := Bump(t, ps[i].institution, ());
      } else {
        assert InstitutionItems(ps[..i]) + [] == InstitutionItems(ps[..i]);
      }
      i := i + 1;
    }
    Dedup.TakeAll(ps);
  }

  // ----------------------------------------------------------- nationalities

  /** `r.nacionalidade || 'Não informado'`: an empty nationality is falsy. */
  function NationalityLabel(n: string): (r: string)
    ensures r != []
  {
    if n == [] then NotInformed else n
  }

  /** `criarGraficoNacionalidade`: one item per profile. */
  function NationalityItems(ps: seq<Profile>): (items: seq<(string, ())>)
    ensures |items| == |ps|
    ensures forall k :: 0 <= k < |ps| ==> items[k] == (NationalityLabel(ps[k].nationality), ())
  {
    seq(|ps|, k requires 0 <= k < |ps| => (NationalityLabel(ps[k].nationality), ()))
  }

  function NationalityTally(ps: seq<Profile>): Table<()>
  {
    TallyOf(NationalityItems(ps))
  }

  /** How many profiles are counted under `k`: those whose label is `k`. */
  function ProfilesOfNationality(ps: seq<Profile>, k: string): nat
  {
    if ps == [] then 0
    else ProfilesOfNationality(ps[..|ps| - 1], k) + if NationalityLabel(ps[|ps| - 1].nationality) == k then 1 else 0
  }

  lemma {:induction false} NationalityItemsCount(ps: seq<Profile>, k: string)
    ensures Occurrences(NationalityItems(ps), k) == ProfilesOfNationality(ps, k)
  {
    if ps != [] {
      var init := ps[..|ps| - 1];
      NationalityItemsCount(init, k);
      assert NationalityItems(ps)[..|ps| - 1] == NationalityItems(init);
    }
  }

  /**
   * Each nationality counts the profiles labelled with it, `Não informado`
   * taking those with no nationality; every profile is counted once.
   */
  lemma NationalityCounts(ps: seq<Profile>, k: string)
    ensures CountOf(NationalityTally(ps), k) == ProfilesOfNationality(ps, k)
    ensures Sum(NationalityTally(ps)) == |ps|
    ensures Unique(NationalityTally(ps))
    ensures forall j :: 0 <= j < |NationalityTally(ps)| ==> NationalityTally(ps)[j].key != []
  {
    TallyCounts(NationalityItems(ps), k);
    NationalityItemsCount(ps, k);
    TallySum(NationalityItems(ps));
    TallyUnique(NationalityItems(ps));
    forall j | 0 <= j < |NationalityTally(ps)|
      ensures NationalityTally(ps)[j].key != []
    {
      var key := NationalityTally(ps)[j].key;
      TallyUnique(NationalityItems(ps));
      assert Find(NationalityTally(ps), key).Some?;
      TallyCounts(NationalityItems(ps), key);
      NonEmptyOccurs(NationalityItems(ps), key);
    }
  }

  /** A key that occurs among the nationality items is some profile's label. */
  lemma {:induction false} NonEmptyOccurs(items: seq<(string, ())>, key: string)
    requires forall k :: 0 <= k < |items| ==> items[k].0 != []
    requires Occurrences(items, key) > 0
    ensures key != []
  {
    if items[|items| - 1].0 != key {
      NonEmptyOccurs(items[..|items| - 1], key);
    }
  }

  lemma NationalityStep(ps: seq<Profile>, i: nat)
    requires i < |ps|
    ensures TallyOf(NationalityItems(ps)[..i + 1]) ==
            Bump(TallyOf(NationalityItems(ps)[..i]), NationalityLabel(ps[i].nationality), ())
  {
    var items := NationalityItems(ps);
    assert items[..i + 1] == items[..i] + [items[i]];
    TallySnoc(items[..i], items[i]);
  }

  /** The `forEach` over the profiles. */
  method TallyNationalities(ps: seq<Profile>) returns (t: Table<()>)
    ensures t == NationalityTally(ps)
  {
    t := [];
    var i := 0;
    while i < |ps|
      invariant i <= |ps|
      invariant t == TallyOf(NationalityItems(ps)[..i])
    {
      var shown := if ps[i].nationality != [] then ps[i].nationality else NotInformed;
      NationalityStep(ps, i);
      t := Bump(t, shown, ());
      i := i + 1;
    }
    assert NationalityItems(ps)[..i] == NationalityItems(ps);
  }

  // ---------------------------------------------------------------- degrees

  /** The keys of the `formacoes` object, in the order they are written. */
  const Tracked: seq<string> := ["Pós-Doutorado", "Doutorado", "Mestrado", "Especialização", "Graduação"]

  /** Every kind but `Livre-Docência` has a key. */
  lemma TrackedKinds(k: Degrees.Kind)
    ensures Degrees.Label(k) in Tracked <==> k != Degrees.Habilitation
  {
    if k == Degrees.Habilitation {
      var l := Degrees.Label(k);
      assert l[0] == 'L';
      assert forall x :: x in Tracked ==> x[0] != 'L';
    }
  }

  lemma TrackedDistinct()
    ensures Distinct(Tracked)
  {
    assert forall i, j :: 0 <= i < j < |Tracked| ==> Tracked[i][0] != Tracked[j][0];
  }

  /** The `tipo` of each of `ds`. */
  function KindLabels(ds: seq<Degrees.Degree>): (r: seq<string>)
    ensures |r| == |ds| && forall k :: 0 <= k < |ds| ==> r[k] == Degrees.Label(ds[k].kind)
  {
    seq(|ds|, k requires 0 <= k < |ds| => Degrees.Label(ds[k].kind))
  }

  /** The `tipo` of each degree of each profile, in order. */
  function DegreeLabels(ps: seq<Profile>): seq<string>
  {
    if ps == [] then [] else DegreeLabels(ps[..|ps| - 1]) + KindLabels(ps[|ps| - 1].degrees)
  }

  /** How many of `labels` are `l`. */
  function Occurs(labels: seq<string>, l: string): nat
  {
    if labels == [] then 0 else Occurs(labels[..|labels| - 1], l) + if labels[|labels| - 1] == l then 1 else 0
  }

  /** The labels with a positive count, with their counts, in the order of `tracked`. */
  function Chart(tracked: seq<string>, labels: seq<string>): seq<(string, nat)>
  {
    if tracked == [] then []
    else
      var l := tracked[|tracked| - 1];
      var n := Occurs(labels, l);
      Chart(tracked[..|tracked| - 1], labels) + if n > 0 then [(l, n)] else []
  }

  /** `labels` and `data` of `criarGraficoFormacao`, zipped. */
  function DegreeChart(ps: seq<Profile>): seq<(string, nat)>
  {
    Chart(Tracked, DegreeLabels(ps))
  }

  /** The chart lists exactly the tracked labels that occur, each with how often it occurs. */
  lemma {:induction false} ChartExactly(tracked: seq<string>, labels: seq<string>)
    ensures forall e :: e in Chart(tracked, labels) <==> e.0 in tracked && e.1 == Occurs(labels, e.0) && e.1 > 0
  {
    if tracked != [] {
      var init := tracked[..|tracked| - 1];
      ChartExactly(init, labels);
      forall l: string
        ensures l in tracked <==> l in init || l == tracked[|tracked| - 1]
      {
        assert tracked == init + [tracked[|tracked| - 1]];
      }
    }
  }

  /** A label without a key leaves every count as it was. */
  lemma {:induction false} UntrackedIgnored(tracked: seq<string>, labels: seq<string>, x: string)
    requires x !in tracked
    ensures Chart(tracked, labels + [x]) == Chart(tracked, labels)
  {
    assert (labels + [x])[..|labels|] == labels;
    if tracked != [] {
      assert tracked[|tracked| - 1] in tracked;
      UntrackedIgnored(tracked[..|tracked| - 1], labels, x);
    }
  }

  /** A `Livre-Docência` degree does not show on the chart. */
  lemma HabilitationIgnored(labels: seq<string>)
    ensures Chart(Tracked, labels + [Degrees.Label(Degrees.Habilitation)]) == Chart(Tracked, labels)
  {
    TrackedKinds(Degrees.Habilitation);
    UntrackedIgnored(Tracked, labels, Degrees.Label(Degrees.Habilitation));
  }

  /** The position of `l` among the keys, as `hasOwnProperty` finds it. */
  function Position(tracked: seq<string>, l: string): (r: Option<nat>)
    ensures r.Some? ==> r.value < |tracked| && tracked[r.value] == l
    ensures r.None? ==> l !in tracked
  {
    if tracked == [] then None
    else if tracked[|tracked| - 1] == l then Some(|tracked| - 1)
    else
      var r := Position(tracked[..|tracked| - 1], l);
      assert tracked == tracked[..|tracked| - 1] + [tracked[|tracked| - 1]];
      r
  }

  /** The counters hold, key by key, how often each key occurs among `labels`. */
  predicate Counted(tracked: seq<string>, counts: seq<nat>, labels: seq<string>)
  {
    |counts| == |tracked| && forall m :: 0 <= m < |tracked| ==> counts[m] == Occurs(labels, tracked[m])
  }

  /** `if (formacoes.hasOwnProperty(f.tipo)) formacoes[f.tipo]++` */
  method CountLabel(tracked: seq<string>, counts: seq<nat>, ghost labels: seq<string>, l: string)
    returns (r: seq<nat>)
    requires Distinct(tracked) && Counted(tracked, counts, labels)
    ensures Counted(tracked, r, labels + [l])
  {
    assert (labels + [l])[..|labels|] == labels;
    r := counts;
    var p := Position(tracked, l);
    if p.Some? {
      r := counts[p.value := counts[p.value] + 1];
    }
  }

  lemma DegreeLabelsNext(ps: seq<Profile>, i: nat)
    requires i < |ps|
    ensures DegreeLabels(ps[..i + 1]) == DegreeLabels(ps[..i]) + KindLabels(ps[i].degrees)
  {
    assert ps[..i + 1][..i] == ps[..i];
  }

  /** The nested `forEach` over each profile's degrees. */
  method CountDegrees(ps: seq<Profile>, tracked: seq<string>) returns (counts: seq<nat>)
    requires Distinct(tracked)
    ensures Counted(tracked, counts, DegreeLabels(ps))
  {
    counts := seq(|tracked|, _ => 0);
    var i := 0;
    while i < |ps|
      invariant i <= |ps|
      invariant Counted(tracked, counts, DegreeLabels(ps[..i]))
    {
      var ds := ps[i].degrees;
      ghost var before := DegreeLabels(ps[..i]);
      ghost var labels := KindLabels(ds);
      var j := 0;
      Dedup.AppendNone(before, labels);
      while j < |ds|
        invariant j <= |ds|
        invariant Counted(tracked, counts, before + labels[..j])
      {
        TakeOneMore(before, labels, j);
        counts := CountLabel(tracked, counts, before + labels[..j], Degrees.Label(ds[j].kind));
        j := j + 1;
      }
      Dedup.TakeAll(labels);
      DegreeLabelsNext(ps, i);
      i := i + 1;
    }
    Dedup.TakeAll(ps);
  }

  /** `Object.keys(formacoes).filter(k => formacoes[k] > 0)` and the matching `data`. */
  method NonZero(tracked: seq<string>, counts: seq<nat>, ghost labels: seq<string>) returns (chart: seq<(string, nat)>)
    requires Counted(tracked, counts, labels)
    ensures chart == Chart(tracked, labels)
  {
    chart := [];
    var m := 0;
    while m < |tracked|
      invariant m <= |tracked|
      invariant chart == Chart(tracked[..m], labels)
    {
      assert tracked[..m + 1][..m] == tracked[..m];
      if counts[m] > 0 {
        chart := chart + [(tracked[m], counts[m])];
      }
      m := m + 1;
    }
    Dedup.TakeAll(tracked);
  }

  /** The tally part of `criarGraficoFormacao`. */
  method TallyDegrees(ps: seq<Profile>) returns (chart: seq<(string, nat)>)
    ensures chart == DegreeChart(ps)
  {
    TrackedDistinct();
    var counts := CountDegrees(ps, Tracked);
    chart := NonZero(Tracked, counts, DegreeLabels(ps));
  }

  // -------------------------------------------------------------- languages

  /** `criarGraficoIdiomas`: one item per language of each profile. */
  function LanguageItems(ps: seq<Profile>): seq<(string, ())>
  {
    if ps == [] then []
    else
      LanguageItems(ps[..|ps| - 1]) + Keyed(ps[|ps| - 1].languages)
  }

  /** One item per language of a profile. */
  function Keyed(ls: seq<string>): (items: seq<(string, ())>)
    ensures |items| == |ls| && forall k :: 0 <= k < |ls| ==> items[k] == (ls[k], ())
  {
    seq(|ls|, k requires 0 <= k < |ls| => (ls[k], ()))
  }

  /** Non-increasing counts. */
  predicate ByCount(es: seq<Entry<()>>)
  {
    forall i, j :: 0 <= i < j < |es| ==> es[i].count >= es[j].count
  }

  /** Places `e` after every entry whose count is at least its own: equal counts keep their order. */
  function InsertByCount(e: Entry<()>, es: seq<Entry<()>>): seq<Entry<()>>
  {
    if es == [] then [e]
    else if es[0].count >= e.count then [es[0]] + InsertByCount(e, es[1..])
    else [e] + es
  }

  /** Inserting keeps every entry and adds `e` once. */
  lemma {:induction false} InsertByCountPerm(e: Entry<()>, es: seq<Entry<()>>)
    ensures multiset(InsertByCount(e, es)) == multiset(es) + multiset{e}
  {
    if es == [] {
    } else if es[0].count >= e.count {
      InsertByCountPerm(e, es[1..]);
      HeadTail(es);
    } else {
    }
  }

  /** A non-empty sequence is its head followed by its tail. */
  lemma HeadTail<T>(s: seq<T>)
    requires s != []
    ensures s == [s[0]] + s[1..]
  {
  }

  /** Every entry counts at most `c`. */
  predicate AtMost(c: nat, es: seq<Entry<()>>)
  {
    forall i :: 0 <= i < |es| ==> es[i].count <= c
  }

  /** An entry in front of entries that count no more than it keeps the ranking. */
  lemma ByCountCons(h: Entry<()>, rest: seq<Entry<()>>)
    requires ByCount(rest) && AtMost(h.count, rest)
    ensures ByCount([h] + rest)
  {
    var s := [h] + rest;
    forall i, j | 0 <= i < j < |s|
      ensures s[i].count >= s[j].count
    {
      if i > 0 {
        assert s[i] == rest[i - 1] && s[j] == rest[j - 1];
      } else {
        assert s[j] == rest[j - 1];
      }
    }
  }

  /** Inserting an entry that counts at most `c` among such entries keeps the bound. */
  lemma InsertAtMost(c: nat, e: Entry<()>, es: seq<Entry<()>>)
    requires AtMost(c, es) && e.count <= c
    ensures AtMost(c, InsertByCount(e, es))
  {
    var r := InsertByCount(e, es);
    InsertByCountPerm(e, es);
    forall i | 0 <= i < |r|
      ensures r[i].count <= c
    {
      assert r[i] in multiset(r);
      if r[i] != e {
        assert r[i] in multiset(es);
      }
    }
  }

  /** Inserting keeps the ranking. */
  lemma {:induction false} InsertByCountSorted(e: Entry<()>, es: seq<Entry<()>>)
    requires ByCount(es)
    ensures ByCount(InsertByCount(e, es))
  {
    if es == [] {
    } else if es[0].count >= e.count {
      InsertByCountSorted(e, es[1..]);
      InsertAtMost(es[0].count, e, es[1..]);
      ByCountCons(es[0], InsertByCount(e, es[1..]));
    } else {
      ByCountCons(e, es);
    }
  }

  /** `Object.entries(idiomas).sort((a, b) => b[1] - a[1])`, a stable sort. */
  function SortByCount(es: seq<Entry<()>>): (r: seq<Entry<()>>)
  {
    if es == [] then [] else InsertByCount(es[|es| - 1], SortByCount(es[..|es| - 1]))
  }

  /** The sort ranks the entries by non-increasing count and keeps every entry. */
  lemma {:induction false} SortByCountSound(es: seq<Entry<()>>)
    ensures ByCount(SortByCount(es))
    ensures multiset(SortByCount(es)) == multiset(es)
  {
    if es != [] {
      var init, x := es[..|es| - 1], es[|es| - 1];
      SortByCountSound(init);
      InsertByCountPerm(x, SortByCount(init));
      InsertByCountSorted(x, SortByCount(init));
      Dedup.SplitLast([], es);
    }
  }

  function LanguageChart(ps: seq<Profile>): seq<Entry<()>>
  {
    SortByCount(TallyOf(LanguageItems(ps)))
  }

  /**
   * The language chart ranks by non-increasing count, holds one entry per
   * language that some profile lists, and each count is how often it is listed.
   */
  lemma LanguageChartSound(ps: seq<Profile>, x: string)
    ensures ByCount(LanguageChart(ps))
    ensures multiset(LanguageChart(ps)) == multiset(TallyOf(LanguageItems(ps)))
    ensures CountOf(TallyOf(LanguageItems(ps)), x) == Occurrences(LanguageItems(ps), x)
    ensures Unique(TallyOf(LanguageItems(ps)))
  {
    SortByCountSound(TallyOf(LanguageItems(ps)));
    TallyCounts(LanguageItems(ps), x);
    TallyUnique(LanguageItems(ps));
  }

  lemma LanguageItemsNext(ps: seq<Profile>, i: nat)
    requires i < |ps|
    ensures LanguageItems(ps[..i + 1]) == LanguageItems(ps[..i]) + Keyed(ps[i].languages)
  {
    assert ps[..i + 1][..i] == ps[..i];
  }

  /** The inner `forEach`: one profile's languages, each counted once more. */
  method TallyProfileLanguages(t0: Table<()>, ghost before: seq<(string, ())>, ls: seq<string>) returns (t: Table<()>)
    requires t0 == TallyOf(before)
    ensures t == TallyOf(before + Keyed(ls))
  {
    t := t0;
    ghost var items := Keyed(ls);
    var j := 0;
    Dedup.AppendNone(before, items);
    while j < |ls|
      invariant j <= |ls|
      invariant t == TallyOf(before + items[..j])
    {
      TallyStep(before, items, j);
      t := Bump(t, ls[j], ());
      j := j + 1;
    }
    Dedup.TakeAll(items);
  }

  /** The nested `forEach`, then the sort. */
  method TallyLanguages(ps: seq<Profile>) returns (chart: seq<Entry<()>>)
    ensures chart == LanguageChart(ps)
  {
    var t: Table<()> := [];
    var i := 0;
    while i < |ps|
      invariant i <= |ps|
      invariant t == TallyOf(LanguageItems(ps[..i]))
    {
      t := TallyProfileLanguages(t, LanguageItems(ps[..i]), ps[i].languages);
      LanguageItemsNext(ps, i);
      i := i + 1;
    }
    Dedup.TakeAll(ps);
    chart := SortByCount(t);
  }
}
