/**
 * The node and edge maps of `criarRedeColaboracao` (charts.js): every author of
 * every collaboration record is a node counting the author's appearances, and
 * every pair of co-authors of one record weighs one on the edge keyed by the
 * pair in sorted order.
 */
module Network {
  import opened Wrappers
  import opened Text
  import opened Tally
  import opened Collaborations
  import opened Curriculum
  import opened Dedup

  /** Both maps, in insertion order: a node keeps its author, an edge the pair that created it. */
  datatype Graph = Graph(nodes: Table<string>, edges: Table<(string, string)>)

  /** `todasColaboracoes`: the records of every profile, in order. */
  function AllRecords(ps: seq<Profile>): seq<Collab>
  {
    if ps == [] then [] else AllRecords(ps[..|ps| - 1]) + ps[|ps| - 1].collaborations
  }

  /** `[a, b].sort().join('|||')`. */
  function EdgeKey(a: string, b: string): string
  {
    if StrLe(a, b) then a + "|||" + b else b + "|||" + a
  }

  /** Each author, keyed by itself: `nodes.set(autor, { id: autor, ... })`. */
  function AuthorItems(authors: seq<string>): (items: seq<(string, string)>)
    ensures |items| == |authors| && forall k :: 0 <= k < |authors| ==> items[k] == (authors[k], authors[k])
  {
    seq(|authors|, k requires 0 <= k < |authors| => (authors[k], authors[k]))
  }

  /** The pair of authors `i < j` of one record, under its edge key. */
  function PairItem(authors: seq<string>, i: nat, j: nat): (string, (string, string))
    requires i < j < |authors|
  {
    (EdgeKey(authors[i], authors[j]), (authors[i], authors[j]))
  }

  /** The inner loop's pairs for author `i`: `j` from `i + 1` up. */
  function Row(authors: seq<string>, i: nat): (items: seq<(string, (string, string))>)
    requires i < |authors|
    ensures |items| == |authors| - i - 1
    ensures forall k :: 0 <= k < |items| ==> items[k] == PairItem(authors, i, i + 1 + k)
  {
    seq(|authors| - i - 1, k requires 0 <= k < |authors| - i - 1 => PairItem(authors, i, i + 1 + k))
  }

  /** The pairs of the first `n` turns of the outer loop. */
  function PairsUpTo(authors: seq<string>, n: nat): seq<(string, (string, string))>
    requires n <= |authors|
  {
    if n == 0 then [] else PairsUpTo(authors, n - 1) + Row(authors, n - 1)
  }

  /** Every pair `i < j` of one record's authors, in loop order. */
  function Pairs(authors: seq<string>): seq<(string, (string, string))>
  {
    PairsUpTo(authors, |authors|)
  }

  /** Every author of every record, in order. */
  function NodeItems(rs: seq<Collab>): seq<(string, string)>
  {
    if rs == [] then [] else NodeItems(rs[..|rs| - 1]) + AuthorItems(rs[|rs| - 1].authors)
  }

  /** Every pair of co-authors of every record, in order. */
  function EdgeItems(rs: seq<Collab>): seq<(string, (string, string))>
  {
    if rs == [] then [] else EdgeItems(rs[..|rs| - 1]) + Pairs(rs[|rs| - 1].authors)
  }

  /** The maps built from the records, or nothing when there is no record at all. */
  function NetworkOf(ps: seq<Profile>): (g: Option<Graph>)
    ensures g.None? <==> AllRecords(ps) == []
  {
    var rs := AllRecords(ps);
    if rs == [] then None else Some(Graph(TallyOf(NodeItems(rs)), TallyOf(EdgeItems(rs))))
  }

  // -------------------------------------------------------------- properties

  /** How many times `a` appears in the author lists of the records. */
  function Appearances(rs: seq<Collab>, a: string): nat
  {
    if rs == [] then 0 else Appearances(rs[..|rs| - 1], a) + multiset(rs[|rs| - 1].authors)[a]
  }

  lemma {:induction false} AuthorOccurrences(authors: seq<string>, a: string)
    ensures Occurrences(AuthorItems(authors), a) == multiset(authors)[a]
  {
    if authors != [] {
      var init := authors[..|authors| - 1];
      assert AuthorItems(authors)[..|authors| - 1] == AuthorItems(init);
      AuthorOccurrences(init, a);
      assert authors == init + [authors[|authors| - 1]];
    }
  }

  lemma {:induction false} NodeOccurrences(rs: seq<Collab>, a: string)
    ensures Occurrences(NodeItems(rs), a) == Appearances(rs, a)
  {
    if rs != [] {
      NodeOccurrences(rs[..|rs| - 1], a);
      OccurrencesAppend(NodeItems(rs[..|rs| - 1]), AuthorItems(rs[|rs| - 1].authors), a);
      AuthorOccurrences(rs[|rs| - 1].authors, a);
    }
  }

  /** A node counts its author's appearances over all records, and exists exactly when the author appears. */
  lemma NodeCounts(ps: seq<Profile>, a: string)
    requires NetworkOf(ps).Some?
    ensures CountOf(NetworkOf(ps).value.nodes, a) == Appearances(AllRecords(ps), a)
    ensures Find(NetworkOf(ps).value.nodes, a).Some? <==> Appearances(AllRecords(ps), a) > 0
    ensures Unique(NetworkOf(ps).value.nodes)
  {
    var rs := AllRecords(ps);
    TallyCounts(NodeItems(rs), a);
    NodeOccurrences(rs, a);
    TallyUnique(NodeItems(rs));
  }

  /** `(a, b)` and `(b, a)` update the same edge. */
  lemma EdgeKeySymmetric(a: string, b: string)
    ensures EdgeKey(a, b) == EdgeKey(b, a)
  {
    StrLeTotal(a, b);
    if StrLe(a, b) && StrLe(b, a) {
      StrLeAntisymmetric(a, b);
    }
  }

  /** The separator can be told apart when no name holds a `|`. */
  predicate NoBar(s: string)
  {
    forall k :: 0 <= k < |s| ==> s[k] != '|'
  }

  /** The first `|` of `x + "|||" + y` ends `x`. */
  lemma BarAt(x: string, y: string)
    requires NoBar(x)
    ensures var s := x + "|||" + y;
            |x| < |s| && s[|x|] == '|' && forall k :: 0 <= k < |x| ==> s[k] != '|'
  {
  }

  lemma JoinedParts(x: string, y: string, u: string, v: string)
    requires NoBar(x) && NoBar(u) && x + "|||" + y == u + "|||" + v
    ensures x == u && y == v
  {
    var s := x + "|||" + y;
    BarAt(x, y);
    BarAt(u, v);
    assert |x| == |u|;
    assert x == s[..|x|] && u == s[..|u|];
    assert y == s[|x| + 3..] && v == s[|u| + 3..];
  }

  /** For names without `|`, an edge key names one unordered pair of authors. */
  lemma EdgeKeyDetermines(a: string, b: string, c: string, d: string)
    requires NoBar(a) && NoBar(b) && NoBar(c) && NoBar(d)
    requires EdgeKey(a, b) == EdgeKey(c, d)
    ensures (a == c && b == d) || (a == d && b == c)
  {
    if StrLe(a, b) {
      if StrLe(c, d) { JoinedParts(a, b, c, d); } else { JoinedParts(a, b, d, c); }
    } else {
      if StrLe(c, d) { JoinedParts(b, a, c, d); } else { JoinedParts(b, a, d, c); }
    }
  }

  /** With a `|` inside a name two different pairs share an edge. */
  lemma EdgeKeysCollide()
    ensures EdgeKey("A|||B", "C") == EdgeKey("A", "B|||C") == "A|||B|||C"
  {
    assert StrLe("A|||B", "C");
    assert StrLe("A", "B|||C");
  }

  /** Twice the pairs of the first `n` outer turns. */
  lemma {:induction false} PairsUpToLength(authors: seq<string>, n: nat)
    requires n <= |authors|
    ensures 2 * |PairsUpTo(authors, n)| == n * (2 * |authors| - n - 1)
  {
    if n > 0 {
      PairsUpToLength(authors, n - 1);
      var k := |authors|;
      assert (n - 1) * (2 * k - n) + 2 * (k - n) == n * (2 * k - n - 1);
    }
  }

  /** A record with `k` authors adds `k(k-1)/2` pairs. */
  lemma PairsLength(authors: seq<string>)
    ensures 2 * |Pairs(authors)| == |authors| * (|authors| - 1)
  {
    PairsUpToLength(authors, |authors|);
  }

  /** Twice the weight the records add: `k(k-1)` for a record of `k` authors. */
  function TwicePairs(rs: seq<Collab>): nat
  {
    if rs == [] then 0
    else
      var k := |rs[|rs| - 1].authors|;
      TwicePairs(rs[..|rs| - 1]) + k * (k - 1)
  }

  lemma {:induction false} EdgeItemsLength(rs: seq<Collab>)
    ensures 2 * |EdgeItems(rs)| == TwicePairs(rs)
  {
    if rs != [] {
      EdgeItemsLength(rs[..|rs| - 1]);
      PairsLength(rs[|rs| - 1].authors);
    }
  }

  /** The weights of all edges add up to `k(k-1)/2` per record of `k` authors. */
  lemma EdgeWeights(ps: seq<Profile>)
    requires NetworkOf(ps).Some?
    ensures 2 * Sum(NetworkOf(ps).value.edges) == TwicePairs(AllRecords(ps))
    ensures Unique(NetworkOf(ps).value.edges)
  {
    var rs := AllRecords(ps);
    TallySum(EdgeItems(rs));
    EdgeItemsLength(rs);
    TallyUnique(EdgeItems(rs));
  }

  /** An edge keeps the source and target of the first pair that created it. */
  lemma EdgeFirstPair(ps: seq<Profile>, key: string)
    requires NetworkOf(ps).Some? && Find(NetworkOf(ps).value.edges, key).Some?
    ensures var es := NetworkOf(ps).value.edges;
            FirstPayload(EdgeItems(AllRecords(ps)), key) == Some(es[Find(es, key).value].first)
  {
    TallyFirst(EdgeItems(AllRecords(ps)), key);
  }

  // ------------------------------------------------------------------ method

  /** The `forEach` that copies each profile's records into `todasColaboracoes`. */
  method GatherRecords(ps: seq<Profile>) returns (all: seq<Collab>)
    ensures all == AllRecords(ps)
  {
    all := [];
    var i := 0;
    while i < |ps|
      invariant i <= |ps|
      invariant all == AllRecords(ps[..i])
    {
      var cs := ps[i].collaborations;
      ghost var before := all;
      var j := 0;
      while j < |cs|
        invariant j <= |cs|
        invariant all == before + cs[..j]
      {
        assert cs[..j + 1] == cs[..j] + [cs[j]];
        all := all + [cs[j]];
        j := j + 1;
      }
      Dedup.TakeAll(cs);
      assert ps[..i + 1][..i] == ps[..i];
      i := i + 1;
    }
    Dedup.TakeAll(ps);
  }

  /** `autores.forEach(...)`: each author's node is created if missing, then counted. */
  method AddNodes(nodes: Table<string>, ghost done: seq<(string, string)>, authors: seq<string>)
    returns (r: Table<string>)
    requires nodes == TallyOf(done)
    ensures r == TallyOf(done + AuthorItems(authors))
  {
    r := nodes;
    ghost var items := AuthorItems(authors);
    var j := 0;
    AppendNone(done, items);
    while j < |authors|
      invariant j <= |authors|
      invariant r == TallyOf(done + items[..j])
    {
      TallyStep(done, items, j);
      assert items[j] == (authors[j], authors[j]);
      r := Bump(r, authors[j], authors[j]);
      j := j + 1;
    }
    TakeAll(items);
  }

  /** The inner loop for author `i`: the pairs `(i, j)` for each `j > i`. */
  method AddRow(edges: Table<(string, string)>, ghost done: seq<(string, (string, string))>, authors: seq<string>, i: nat)
    returns (r: Table<(string, string)>)
    requires i < |authors| && edges == TallyOf(done)
    ensures r == TallyOf(done + Row(authors, i))
  {
    r := edges;
    ghost var row := Row(authors, i);
    var j := i + 1;
    ghost var k := 0;
    Dedup.AppendNone(done, row);
    while j < |authors|
      invariant i < j <= |authors| && k == j - i - 1
      invariant r == TallyOf(done + row[..k])
    {
      assert row[k] == PairItem(authors, i, j);
      TallyStep(done, row, k);
      r := Bump(r, EdgeKey(authors[i], authors[j]), (authors[i], authors[j]));
      j, k := j + 1, k + 1;
    }
    Dedup.TakeAll(row);
  }

  /** The double loop over `i < j`: each pair's edge is created if missing, then weighs one more. */
  method AddEdges(edges: Table<(string, string)>, ghost done: seq<(string, (string, string))>, authors: seq<string>)
    returns (r: Table<(string, string)>)
    requires edges == TallyOf(done)
    ensures r == TallyOf(done + Pairs(authors))
  {
    r := edges;
    var i := 0;
    assert done + PairsUpTo(authors, 0) == done;
    while i < |authors|
      invariant i <= |authors|
      invariant r == TallyOf(done + PairsUpTo(authors, i))
    {
      r := AddRow(r, done + PairsUpTo(authors, i), authors, i);
      AppendAssoc(done, PairsUpTo(authors, i), Row(authors, i));
      i := i + 1;
    }
  }

  /** One more record's nodes and edges. */
  lemma ItemsStep(rs: seq<Collab>, k: nat)
    requires k < |rs|
    ensures NodeItems(rs[..k + 1]) == NodeItems(rs[..k]) + AuthorItems(rs[k].authors)
    ensures EdgeItems(rs[..k + 1]) == EdgeItems(rs[..k]) + Pairs(rs[k].authors)
  {
    assert rs[..k + 1][..k] == rs[..k];
  }

  /** `criarRedeColaboracao` up to the drawing: nothing without records, else both maps. */
  method BuildNetwork(ps: seq<Profile>) returns (g: Option<Graph>)
    ensures g == NetworkOf(ps)
  {
    var all := GatherRecords(ps);
    if |all| == 0 {
      return None;
    }
    var nodes: Table<string> := [];
    var edges: Table<(string, string)> := [];
    var k := 0;
    while k < |all|
      invariant k <= |all|
      invariant nodes == TallyOf(NodeItems(all[..k]))
      invariant edges == TallyOf(EdgeItems(all[..k]))
    {
      ItemsStep(all, k);
      nodes := AddNodes(nodes, NodeItems(all[..k]), all[k].authors);
      edges := AddEdges(edges, EdgeItems(all[..k]), all[k].authors);
      k := k + 1;
    }
    Dedup.TakeAll(all);
    g := Some(Graph(nodes, edges));
  }
}
