/**
 * `extrairColaboracoes` (extractor.js): one co-authorship record per in-window
 * article entry with an accepted title and two authors or more. Unlike
 * `extrairArtigos`, nothing is deduplicated.
 */
module Collaborations {
  import opened Wrappers
  import opened Sections
  import opened Year
  import opened Titles
  import opened Authors
  import opened Dedup
  import opened Articles

  /** The record `{ titulo, autores, ano }`. */
  datatype Collab = Collab(title: string, authors: seq<string>, year: int)

  /** What one entry contributes. */
  function RecordOf(entry: string, lo: int, hi: int): Option<Collab>
  {
    match Accepted(entry, lo, hi)
    case None => None
    case Some((title, year)) =>
      var authors := AuthorsOf(entry);
      if |authors| > 1 then Some(Collab(title, authors, year)) else None
  }

  /** An entry gives a record exactly when its title is accepted and it has two authors or more. */
  lemma RecordOfMeaning(entry: string, lo: int, hi: int)
    ensures RecordOf(entry, lo, hi).Some? <==> Accepted(entry, lo, hi).Some? && |AuthorsOf(entry)| >= 2
    ensures RecordOf(entry, lo, hi).Some? ==>
              var c := RecordOf(entry, lo, hi).value;
              Accepted(entry, lo, hi) == Some((c.title, c.year)) && c.authors == AuthorsOf(entry)
  {
  }

  /** The record of each entry, in order. */
  function RecordsAt(entries: seq<string>, lo: int, hi: int): (rs: seq<Option<Collab>>)
    ensures |rs| == |entries|
    ensures forall i :: 0 <= i < |entries| ==> rs[i] == RecordOf(entries[i], lo, hi)
  {
    seq(|entries|, i requires 0 <= i < |entries| => RecordOf(entries[i], lo, hi))
  }

  lemma RecordsAtSnoc(entries: seq<string>, entry: string, lo: int, hi: int)
    ensures RecordsAt(entries + [entry], lo, hi) == RecordsAt(entries, lo, hi) + [RecordOf(entry, lo, hi)]
  {
    var l := RecordsAt(entries + [entry], lo, hi);
    var r := RecordsAt(entries, lo, hi) + [RecordOf(entry, lo, hi)];
    forall i | 0 <= i < |l|
      ensures l[i] == r[i]
    {
      if i < |entries| {
        assert (entries + [entry])[i] == entries[i];
      }
    }
  }

  /** The records of `entries`, in order. */
  function RecordsOf(entries: seq<string>, lo: int, hi: int): seq<Collab>
  {
    Somes(RecordsAt(entries, lo, hi))
  }

  /** `extrairColaboracoes`. */
  function CollaborationsOf(text: string, lo: int, hi: int): seq<Collab>
  {
    RecordsOf(AllEntries(text), lo, hi)
  }

  // ------------------------------------------------------------- properties

  /** `c` is the record of one of the `entries`. */
  predicate RecordFrom(entries: seq<string>, lo: int, hi: int, c: Collab)
  {
    exists k :: 0 <= k < |entries| && RecordOf(entries[k], lo, hi) == Some(c)
  }

  /** Every record comes from an in-window entry with an accepted title and at least two authors. */
  lemma RecordsFromEntries(entries: seq<string>, lo: int, hi: int)
    ensures forall i :: 0 <= i < |RecordsOf(entries, lo, hi)| ==> RecordFrom(entries, lo, hi, RecordsOf(entries, lo, hi)[i])
    ensures forall i :: 0 <= i < |RecordsOf(entries, lo, hi)| ==>
              var c := RecordsOf(entries, lo, hi)[i];
              lo <= c.year <= hi && |c.title| >= 10 && |c.authors| >= 2
  {
    var rs := RecordsAt(entries, lo, hi);
    SomesFrom(rs);
    forall i | 0 <= i < |Somes(rs)|
      ensures RecordFrom(entries, lo, hi, Somes(rs)[i])
      ensures var c := Somes(rs)[i]; lo <= c.year <= hi && |c.title| >= 10 && |c.authors| >= 2
    {
      var k :| 0 <= k < |rs| && rs[k] == Some(Somes(rs)[i]);
      assert RecordOf(entries[k], lo, hi) == Some(Somes(rs)[i]);
      RecordOfMeaning(entries[k], lo, hi);
    }
  }

  /** Records are not deduplicated: the entries of two blocks give the records of both, repeats included. */
  lemma {:induction false} RecordsAppend(a: seq<string>, b: seq<string>, lo: int, hi: int)
    ensures RecordsOf(a + b, lo, hi) == RecordsOf(a, lo, hi) + RecordsOf(b, lo, hi)
  {
    RecordsAtAppend(a, b, lo, hi);
    SomesAppend(RecordsAt(a, lo, hi), RecordsAt(b, lo, hi));
  }

  lemma {:induction false} RecordsAtAppend(a: seq<string>, b: seq<string>, lo: int, hi: int)
    ensures RecordsAt(a + b, lo, hi) == RecordsAt(a, lo, hi) + RecordsAt(b, lo, hi)
    decreases |b|
  {
    if b == [] {
      assert a + b == a;
    } else {
      var init, x := b[..|b| - 1], b[|b| - 1];
      RecordsAtAppend(a, init, lo, hi);
      assert b == init + [x];
      assert a + b == (a + init) + [x];
      RecordsAtSnoc(a + init, x, lo, hi);
      RecordsAtSnoc(init, x, lo, hi);
    }
  }

  /** An entry that repeats gives its record twice, where `extrairArtigos` keeps its title once. */
  lemma RepeatedEntryTwice(entry: string, lo: int, hi: int)
    requires RecordOf(entry, lo, hi).Some?
    ensures RecordsOf([entry, entry], lo, hi) == [RecordOf(entry, lo, hi).value, RecordOf(entry, lo, hi).value]
    ensures |TitlesOf([entry, entry], lo, hi)| <= 1
  {
    var r := RecordOf(entry, lo, hi);
    RecordsAtPair(entry, lo, hi);
    SomesPair(r);
    TitlesOfRepeat(entry, lo, hi);
  }

  lemma RecordsAtPair(entry: string, lo: int, hi: int)
    ensures RecordsAt([entry, entry], lo, hi) == [RecordOf(entry, lo, hi), RecordOf(entry, lo, hi)]
  {
  }

  lemma CandidatesPair(entry: string, lo: int, hi: int)
    ensures CandidatesOf([entry, entry], lo, hi) == [ArticleCandidate(entry, lo, hi), ArticleCandidate(entry, lo, hi)]
  {
  }

  lemma TitlesOfRepeat(entry: string, lo: int, hi: int)
    ensures |TitlesOf([entry, entry], lo, hi)| <= 1
  {
    var c := ArticleCandidate(entry, lo, hi);
    CandidatesPair(entry, lo, hi);
    SomesPair(c);
    if c.Some? {
      FirstPerKeyTwice(c.value, ArticleKey);
    }
  }

  // ------------------------------------------------------------ the method

  /** The body of the inner `forEach`: the entry's record, if it passes the filters. */
  method Visit(entry: string, lo: int, hi: int) returns (c: Option<Collab>)
    ensures c == RecordOf(entry, lo, hi)
  {
    var year := ExtractYear(entry);
    if year.None? {
      return None;
    }
    if year.value < lo || year.value > hi {
      return None;
    }
    var title := ExtractTitle(entry);
    if title.None? || |title.value| < 10 {
      return None;
    }
    var authors := AuthorsOf(entry);
    if |authors| > 1 {
      return Some(Collab(title.value, authors, year.value));
    }
    return None;
  }

  /** The inner `forEach` over the entries of one block, appending to the records so far. */
  method CollectRecords(entries: seq<string>, lo: int, hi: int, records0: seq<Collab>, ghost visited: seq<string>)
    returns (records: seq<Collab>)
    requires records0 == RecordsOf(visited, lo, hi)
    ensures records == RecordsOf(visited + entries, lo, hi)
  {
    records := records0;
    Dedup.AppendNone(visited, entries);
    var j := 0;
    while j < |entries|
      invariant j <= |entries|
      invariant records == RecordsOf(visited + entries[..j], lo, hi)
    {
      var ent := entries[j];
      RecordStep(visited + entries[..j], ent, lo, hi);
      var c := Visit(ent, lo, hi);
      if c.Some? {
        records := records + [c.value];
      }
      ConcatTake(visited, entries, j);
      j := j + 1;
    }
    Dedup.TakeAll(entries);
  }

  /** One more entry adds its record, if it has one. */
  lemma RecordStep(before: seq<string>, entry: string, lo: int, hi: int)
    ensures RecordsOf(before + [entry], lo, hi) ==
              RecordsOf(before, lo, hi) + (if RecordOf(entry, lo, hi).Some? then [RecordOf(entry, lo, hi).value] else [])
  {
    RecordsAtSnoc(before, entry, lo, hi);
    SomesSnoc(RecordsAt(before, lo, hi), RecordOf(entry, lo, hi));
  }

  /** `extrairColaboracoes` as the source runs it. */
  method ExtractCollaborations(text: string, lo: int, hi: int) returns (records: seq<Collab>)
    ensures records == CollaborationsOf(text, lo, hi)
  {
    var blocks := CollectSections(text);
    if |blocks| == 0 {
      assert AllEntries(text) == [];
      return [];
    }
    records := [];
    var i := 0;
    while i < |blocks|
      invariant i <= |blocks|
      invariant records == RecordsOf(EntriesOfBlocks(blocks[..i]), lo, hi)
    {
      var entries := SplitEntries(blocks[i]);
      EntriesOfBlocksSnoc(blocks, i);
      records := CollectRecords(entries, lo, hi, records, EntriesOfBlocks(blocks[..i]));
      i := i + 1;
    }
    Dedup.TakeAll(blocks);
  }
}
