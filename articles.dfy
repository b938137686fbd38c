/**
 * `extrairArtigos` (extractor.js): the titles of the in-window articles of one CV,
 * deduplicated by `normalizarTitulo`, first-seen title kept.
 */
module Articles {
  import opened Wrappers
  import opened Text
  import opened Sections
  import opened Year
  import opened Titles
  import opened FoldKey
  import opened Dedup

  /** The result object `{ count, titulos }`. */
  datatype ArticleList = ArticleList(count: nat, titles: seq<string>)

  /**
   * The filter both `extrairArtigos` and `extrairColaboracoes` apply to an entry: a
   * year inside `[lo, hi]` and a title of ten characters or more. Gives the title and the year.
   */
  function Accepted(entry: string, lo: int, hi: int): (r: Option<(string, int)>)
    ensures r.Some? ==> lo <= r.value.1 <= hi && |r.value.0| >= 10
    ensures r.Some? ==> ExtractYear(entry) == Some(r.value.1) && TitleOf(entry) == Some(r.value.0)
    ensures r.None? ==> ExtractYear(entry).None? || !(lo <= ExtractYear(entry).value <= hi) ||
                        TitleOf(entry).None? || |TitleOf(entry).value| < 10
  {
    match ExtractYear(entry)
    case None => None
    case Some(year) =>
      if year < lo || year > hi then None
      else
        match TitleOf(entry)
        case None => None
        case Some(title) => if |title| < 10 then None else Some((title, year))
  }

  /** `normalizarTitulo` as the key function of the deduplication. */
  function ArticleKey(t: string): string
  {
    TitleKey(Some(t))
  }

  /** A kept title is already trimmed, so it is the title the entry gave. */
  lemma AcceptedTrimmed(entry: string, lo: int, hi: int)
    requires Accepted(entry, lo, hi).Some?
    ensures Trimmed(Accepted(entry, lo, hi).value.0)
  {
    TitleShape(entry);
  }

  /** What an entry offers to the `vistos` check: its accepted title, unless the title's key is empty. */
  function ArticleCandidate(entry: string, lo: int, hi: int): (r: Option<string>)
    ensures r.Some? ==> Accepted(entry, lo, hi).Some? && r.value == Accepted(entry, lo, hi).value.0
  {
    match Accepted(entry, lo, hi)
    case None => None
    case Some((title, _)) =>
      if TitleKey(Some(title)) == "" then None else Some(title)
  }

  /** The candidate of each entry, in order. */
  function CandidatesOf(entries: seq<string>, lo: int, hi: int): (cs: seq<Option<string>>)
    ensures |cs| == |entries|
    ensures forall i :: 0 <= i < |entries| ==> cs[i] == ArticleCandidate(entries[i], lo, hi)
  {
    seq(|entries|, i requires 0 <= i < |entries| => ArticleCandidate(entries[i], lo, hi))
  }

  lemma CandidatesSnoc(entries: seq<string>, entry: string, lo: int, hi: int)
    ensures CandidatesOf(entries + [entry], lo, hi) == CandidatesOf(entries, lo, hi) + [ArticleCandidate(entry, lo, hi)]
  {
    var a := CandidatesOf(entries + [entry], lo, hi);
    var b := CandidatesOf(entries, lo, hi) + [ArticleCandidate(entry, lo, hi)];
    forall i | 0 <= i < |a|
      ensures a[i] == b[i]
    {
      if i < |entries| {
        assert (entries + [entry])[i] == entries[i];
      }
    }
  }

  /** The titles kept after visiting `entries` in order. */
  function TitlesOf(entries: seq<string>, lo: int, hi: int): seq<string>
  {
    FirstPerKey(Somes(CandidatesOf(entries, lo, hi)), ArticleKey)
  }

  function ArticlesOf(text: string, lo: int, hi: int): ArticleList
  {
    var titles := TitlesOf(AllEntries(text), lo, hi);
    ArticleList(|titles|, titles)
  }

  // ------------------------------------------------------------- properties

  /** `t` is the accepted title of one of the `entries`, whose year is in `[lo, hi]`. */
  predicate AcceptedFrom(entries: seq<string>, lo: int, hi: int, t: string)
  {
    exists k :: 0 <= k < |entries| && Accepted(entries[k], lo, hi).Some? &&
                Accepted(entries[k], lo, hi).value.0 == t && lo <= ExtractYear(entries[k]).value <= hi
  }

  /**
   * `extrairArtigos` keeps titles only from entries in the year window: every kept
   * title is the accepted title of one of the entries, and has ten characters or more.
   */
  lemma TitlesFromWindow(entries: seq<string>, lo: int, hi: int)
    ensures forall i :: 0 <= i < |TitlesOf(entries, lo, hi)| ==> AcceptedFrom(entries, lo, hi, TitlesOf(entries, lo, hi)[i])
    ensures forall i :: 0 <= i < |TitlesOf(entries, lo, hi)| ==> |TitlesOf(entries, lo, hi)[i]| >= 10
  {
    var cs := CandidatesOf(entries, lo, hi);
    KeptFrom(cs, ArticleKey);
    var r := TitlesOf(entries, lo, hi);
    forall i | 0 <= i < |r|
      ensures AcceptedFrom(entries, lo, hi, r[i]) && |r[i]| >= 10
    {
      var k :| 0 <= k < |cs| && cs[k] == Some(r[i]);
      CandidateAccepted(entries[k], lo, hi);
    }
  }

  /** An offered title is the accepted title of an entry in the window. */
  lemma CandidateAccepted(entry: string, lo: int, hi: int)
    requires ArticleCandidate(entry, lo, hi).Some?
    ensures Accepted(entry, lo, hi).Some? && Accepted(entry, lo, hi).value.0 == ArticleCandidate(entry, lo, hi).value
    ensures lo <= ExtractYear(entry).value <= hi && |ArticleCandidate(entry, lo, hi).value| >= 10
  {
  }

  /** The key of an offered title is never empty. */
  lemma CandidateKey(entry: string, lo: int, hi: int)
    ensures ArticleCandidate(entry, lo, hi).Some? ==> TitleKey(Some(ArticleCandidate(entry, lo, hi).value)) != ""
    ensures ArticleCandidate(entry, lo, hi).None? ==>
              Accepted(entry, lo, hi).None? || TitleKey(Some(Accepted(entry, lo, hi).value.0)) == ""
  {
  }

  /** No two kept titles share a `normalizarTitulo` key. */
  lemma DistinctKeys(entries: seq<string>, lo: int, hi: int)
    ensures forall i, j :: 0 <= i < j < |TitlesOf(entries, lo, hi)| ==>
              TitleKey(Some(TitlesOf(entries, lo, hi)[i])) != TitleKey(Some(TitlesOf(entries, lo, hi)[j]))
  {
    var r := TitlesOf(entries, lo, hi);
    FirstPerKeyKeys(Somes(CandidatesOf(entries, lo, hi)), ArticleKey);
    forall i, j | 0 <= i < j < |r|
      ensures TitleKey(Some(r[i])) != TitleKey(Some(r[j]))
    {
      assert ArticleKey(r[i]) != ArticleKey(r[j]);
    }
  }

  /** No kept title has the empty key. */
  lemma NonEmptyKeys(entries: seq<string>, lo: int, hi: int)
    ensures forall i :: 0 <= i < |TitlesOf(entries, lo, hi)| ==> TitleKey(Some(TitlesOf(entries, lo, hi)[i])) != ""
  {
    var cs := CandidatesOf(entries, lo, hi);
    KeptFrom(cs, ArticleKey);
    var r := TitlesOf(entries, lo, hi);
    forall i | 0 <= i < |r|
      ensures TitleKey(Some(r[i])) != ""
    {
      var k :| 0 <= k < |cs| && cs[k] == Some(r[i]);
      CandidateKey(entries[k], lo, hi);
    }
  }

  /**
   * The first entry to offer a given key has its own title kept; later entries with
   * the same key add nothing.
   */
  lemma FirstSeenKept(entries: seq<string>, lo: int, hi: int, k: nat)
    requires k < |entries| && ArticleCandidate(entries[k], lo, hi).Some?
    requires forall j :: 0 <= j < k && ArticleCandidate(entries[j], lo, hi).Some? ==>
               TitleKey(Some(ArticleCandidate(entries[j], lo, hi).value)) != TitleKey(Some(ArticleCandidate(entries[k], lo, hi).value))
    ensures ArticleCandidate(entries[k], lo, hi).value in TitlesOf(entries, lo, hi)
  {
    FirstSomeKept(CandidatesOf(entries, lo, hi), ArticleKey, k);
  }

  /** `extrairArtigos` returns no titles when the CV has no article block. */
  lemma NoBlocksNoArticles(text: string, lo: int, hi: int)
    requires SectionsOf(text) == []
    ensures ArticlesOf(text, lo, hi) == ArticleList(0, [])
  {
    assert AllEntries(text) == [];
  }

  // ------------------------------------------------------------ the method

  /** The body of the inner `forEach`, up to the `vistos` check: the entry's title and its key, if it passes. */
  method Offer(entry: string, lo: int, hi: int) returns (c: Option<(string, string)>)
    ensures c.None? <==> ArticleCandidate(entry, lo, hi).None?
    ensures c.Some? ==> c.value.0 == ArticleCandidate(entry, lo, hi).value && c.value.1 == TitleKey(Some(c.value.0))
  {
    var year := ExtractYear(entry);
    if year.None? {
      return None;
    }
    if year.value < lo || year.value > hi {
      return None;
    }
    var title := ExtractTitle(entry);
    if title.None? || |title.value| < 10 {
      return None;
    }
    var key := TitleKey(Some(title.value));
    if key == "" {
      return None;
    }
    AcceptedTrimmed(entry, lo, hi);
    var t := Trim(title.value);
    TrimNoop(title.value);
    return Some((t, key));
  }

  /** `SomesStep` for the article key. */
  lemma KeptStep(cs: seq<Option<string>>, c: Option<string>)
    ensures var titles := FirstPerKey(Somes(cs), ArticleKey);
            FirstPerKey(Somes(cs + [c]), ArticleKey) ==
              if c.Some? && TitleKey(Some(c.value)) !in KeySet(titles, ArticleKey) then titles + [c.value] else titles
  {
    SomesStep(cs, c, ArticleKey);
  }

  /**
   * One turn of the inner `forEach`: the entry's candidate is kept exactly when its
   * key is not among the keys seen so far.
   */
  lemma VisitStep(before: seq<string>, entry: string, lo: int, hi: int)
    ensures var titles := TitlesOf(before, lo, hi);
            var c := ArticleCandidate(entry, lo, hi);
            TitlesOf(before + [entry], lo, hi) ==
              if c.Some? && TitleKey(Some(c.value)) !in KeySet(titles, ArticleKey) then titles + [c.value] else titles
  {
    CandidatesSnoc(before, entry, lo, hi);
    KeptStep(CandidatesOf(before, lo, hi), ArticleCandidate(entry, lo, hi));
  }

  /** The inner `forEach` over the entries of one block, continuing from the titles kept so far. */
  method VisitEntries(entries: seq<string>, lo: int, hi: int, titles0: seq<string>, seen0: set<string>, ghost visited: seq<string>)
    returns (titles: seq<string>, seen: set<string>)
    requires titles0 == TitlesOf(visited, lo, hi) && seen0 == KeySet(titles0, ArticleKey)
    ensures titles == TitlesOf(visited + entries, lo, hi) && seen == KeySet(titles, ArticleKey)
  {
    titles, seen := titles0, seen0;
    Dedup.AppendNone(visited, entries);
    var j := 0;
    while j < |entries|
      invariant j <= |entries|
      invariant titles == TitlesOf(visited + entries[..j], lo, hi) && seen == KeySet(titles, ArticleKey)
    {
      var entry := entries[j];
      VisitStep(visited + entries[..j], entry, lo, hi);
      var c := Offer(entry, lo, hi);
      if c.Some? && c.value.1 !in seen {
        seen := seen + {c.value.1};
        KeySetSnoc(titles, c.value.0, ArticleKey);
        titles := titles + [c.value.0];
      }
      ConcatTake(visited, entries, j);
      j := j + 1;
    }
    Dedup.TakeAll(entries);
  }

  /** `extrairArtigos` as the source runs it: a loop over the blocks, each visiting its entries. */
  method ExtractArticles(text: string, lo: int, hi: int) returns (r: ArticleList)
    ensures r == ArticlesOf(text, lo, hi)
    ensures r.count == |r.titles|
  {
    var blocks := CollectSections(text);
    if |blocks| == 0 {
      assert AllEntries(text) == [];
      return ArticleList(0, []);
    }
    var titles: seq<string> := [];
    var seen: set<string> := {};
    var i := 0;
    while i < |blocks|
      invariant i <= |blocks|
      invariant titles == TitlesOf(EntriesOfBlocks(blocks[..i]), lo, hi) && seen == KeySet(titles, ArticleKey)
    {
      var entries := SplitEntries(blocks[i]);
      EntriesOfBlocksSnoc(blocks, i);
      titles, seen := VisitEntries(entries, lo, hi, titles, seen, EntriesOfBlocks(blocks[..i]));
      i := i + 1;
    }
    Dedup.TakeAll(blocks);
    r := ArticleList(|titles|, titles);
  }
}
