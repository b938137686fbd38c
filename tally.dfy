/**
 * A frequency table in first-seen order: what `counts[k] = (counts[k] || 0) + 1`
 * on a JavaScript object, or `if (!m.has(k)) m.set(k, ...); m.get(k).count++` on a
 * `Map`, builds. Each entry keeps the payload of the item that created it (the
 * `source`/`target` of a collaboration edge) and how many items carried its key.
 */
module Tally {
  import opened Wrappers

  datatype Entry<P> = Entry(key: string, first: P, count: nat)

  type Table<P> = seq<Entry<P>>

  /** Every key appears in one entry only. */
  predicate Unique<P>(t: Table<P>)
  {
    forall i, j :: 0 <= i < j < |t| ==> t[i].key != t[j].key
  }

  /** `Map.prototype.has` / `get`: the position of the entry for `k`. */
  function Find<P>(t: Table<P>, k: string): (r: Option<nat>)
    ensures r.Some? ==> r.value < |t| && t[r.value].key == k
    ensures r.Some? ==> forall i :: 0 <= i < r.value ==> t[i].key != k
    ensures r.None? ==> forall i :: 0 <= i < |t| ==> t[i].key != k
  {
    if t == [] then None
    else if t[0].key == k then Some(0)
    else
      match Find(t[1..], k)
      case None => None
      case Some(i) => Some(i + 1)
  }

  /** The count the table holds for `k`, `0` when there is no entry. */
  function CountOf<P>(t: Table<P>, k: string): nat
  {
    match Find(t, k)
    case None => 0
    case Some(i) => t[i].count
  }

  /** One item with key `k` and payload `p` is counted. */
  function Bump<P>(t: Table<P>, k: string, p: P): (r: Table<P>)
    ensures forall k' :: CountOf(r, k') == CountOf(t, k') + (if k' == k then 1 else 0)
    ensures Find(t, k).None? ==> r == t + [Entry(k, p, 1)]
    ensures Find(t, k).Some? ==> |r| == |t| && forall i :: 0 <= i < |t| ==> r[i].key == t[i].key && r[i].first == t[i].first
    ensures Unique(t) ==> Unique(r)
  {
    match Find(t, k)
    case None =>
      assert forall k' :: k' != k ==> Find(t + [Entry(k, p, 1)], k') == Find(t, k') by {
        forall k' | k' != k
          ensures Find(t + [Entry(k, p, 1)], k') == Find(t, k')
        {
          FindAppend(t, Entry(k, p, 1), k');
        }
      }
      FindAppend(t, Entry(k, p, 1), k);
      t + [Entry(k, p, 1)]
    case Some(i) =>
      var r := t[i := Entry(k, t[i].first, t[i].count + 1)];
      assert forall k' :: Find(r, k') == Find(t, k') by {
        forall k' ensures Find(r, k') == Find(t, k') { FindSameKeys(t, r, k'); }
      }
      r
  }

  /** Looking a key up after one entry is appended. */
  lemma {:induction false} FindAppend<P>(t: Table<P>, e: Entry<P>, k: string)
    ensures Find(t + [e], k) == if Find(t, k).Some? then Find(t, k) else if e.key == k then Some(|t|) else None
  {
    if t != [] {
      assert (t + [e])[1..] == t[1..] + [e];
      FindAppend(t[1..], e, k);
    }
  }

  /** Lookups only depend on the sequence of keys. */
  lemma {:induction false} FindSameKeys<P>(t: Table<P>, r: Table<P>, k: string)
    requires |t| == |r| && forall i :: 0 <= i < |t| ==> t[i].key == r[i].key
    ensures Find(t, k) == Find(r, k)
  {
    if t != [] {
      FindSameKeys(t[1..], r[1..], k);
    }
  }

  /** The table of a sequence of `(key, payload)` items, built in order. */
  function TallyOf<P>(items: seq<(string, P)>): Table<P>
  {
    if items == [] then []
    else
      var last := items[|items| - 1];
      Bump(TallyOf(items[..|items| - 1]), last.0, last.1)
  }

  /** How many items carry the key `k`. */
  function Occurrences<P>(items: seq<(string, P)>, k: string): nat
  {
    if items == [] then 0
    else Occurrences(items[..|items| - 1], k) + (if items[|items| - 1].0 == k then 1 else 0)
  }

  /** The first payload carried by key `k`. */
  function FirstPayload<P>(items: seq<(string, P)>, k: string): (r: Option<P>)
    ensures r.None? <==> Occurrences(items, k) == 0
  {
    if items == [] then None
    else
      match FirstPayload(items[..|items| - 1], k)
      case Some(p) => Some(p)
      case None => if items[|items| - 1].0 == k then Some(items[|items| - 1].1) else None
  }

  function Sum<P>(t: Table<P>): nat
  {
    if t == [] then 0 else Sum(t[..|t| - 1]) + t[|t| - 1].count
  }

  /** Each key's count is the number of items that carry it; a key has an entry exactly when it occurs. */
  lemma {:induction false} TallyCounts<P>(items: seq<(string, P)>, k: string)
    ensures CountOf(TallyOf(items), k) == Occurrences(items, k)
    ensures Find(TallyOf(items), k).Some? <==> Occurrences(items, k) > 0
  {
    if items != [] {
      TallyCounts(items[..|items| - 1], k);
      var t := TallyOf(items[..|items| - 1]);
      var last := items[|items| - 1];
      if last.0 == k {
        assert Find(Bump(t, last.0, last.1), k).Some?;
      } else if Find(t, k).Some? {
        FindAppend(t, Entry(last.0, last.1, 1), k);
        if Find(t, last.0).Some? {
          FindSameKeys(t, Bump(t, last.0, last.1), k);
        }
      } else {
        FindAppend(t, Entry(last.0, last.1, 1), k);
        if Find(t, last.0).Some? {
          FindSameKeys(t, Bump(t, last.0, last.1), k);
        }
      }
    }
  }

  /** No key has two entries; every entry's count is positive. */
  lemma {:induction false} TallyUnique<P>(items: seq<(string, P)>)
    ensures Unique(TallyOf(items))
    ensures forall i :: 0 <= i < |TallyOf(items)| ==> TallyOf(items)[i].count > 0
  {
    if items != [] {
      TallyUnique(items[..|items| - 1]);
      var t := TallyOf(items[..|items| - 1]);
      var last := items[|items| - 1];
      var r := TallyOf(items);
      forall i | 0 <= i < |r|
        ensures r[i].count > 0
      {
        if Find(t, last.0).Some? && i == Find(t, last.0).value {
        } else if i < |t| {
          assert r[i] == t[i];
        }
      }
    }
  }

  /** An entry keeps the payload of the first item with its key. */
  lemma {:induction false} TallyFirst<P>(items: seq<(string, P)>, k: string)
    requires Find(TallyOf(items), k).Some?
    ensures FirstPayload(items, k) == Some(TallyOf(items)[Find(TallyOf(items), k).value].first)
  {
    var t := TallyOf(items[..|items| - 1]);
    var last := items[|items| - 1];
    if Find(t, k).Some? {
      TallyFirst(items[..|items| - 1], k);
      if Find(t, last.0).None? {
        FindAppend(t, Entry(last.0, last.1, 1), k);
      } else {
        FindSameKeys(t, TallyOf(items), k);
      }
    } else {
      TallyCounts(items[..|items| - 1], k);
      FindAppend(t, Entry(last.0, last.1, 1), k);
    }
  }

  lemma {:induction false} SumAppend<P>(t: Table<P>, e: Entry<P>)
    ensures Sum(t + [e]) == Sum(t) + e.count
  {
    assert (t + [e])[..|t|] == t;
  }

  /** Changing one entry's count changes the sum by the same amount. */
  lemma {:induction false} SumUpdate<P>(t: Table<P>, i: nat, e: Entry<P>)
    requires i < |t|
    ensures Sum(t[i := e]) == Sum(t) - t[i].count + e.count
    decreases |t|
  {
    var r := t[i := e];
    if i == |t| - 1 {
      assert r[..|r| - 1] == t[..|t| - 1];
    } else {
      assert r[..|r| - 1] == t[..|t| - 1][i := e];
      SumUpdate(t[..|t| - 1], i, e);
    }
  }

  /** The counts add up to the number of items. */
  lemma {:induction false} TallySum<P>(items: seq<(string, P)>)
    ensures Sum(TallyOf(items)) == |items|
  {
    if items != [] {
      TallySum(items[..|items| - 1]);
      var t := TallyOf(items[..|items| - 1]);
      var last := items[|items| - 1];
      match Find(t, last.0)
      case None =>
        assert TallyOf(items) == t + [Entry(last.0, last.1, 1)];
        SumAppend(t, Entry(last.0, last.1, 1));
      case Some(i) =>
        assert TallyOf(items) == t[i := Entry(last.0, t[i].first, t[i].count + 1)];
        SumUpdate(t, i, Entry(last.0, t[i].first, t[i].count + 1));
    }
  }

  /** The keys of a table, in entry order. */
  function KeysOf<P>(t: Table<P>): (r: seq<string>)
    ensures |r| == |t| && forall i :: 0 <= i < |t| ==> r[i] == t[i].key
  {
    seq(|t|, i requires 0 <= i < |t| => t[i].key)
  }

  /** One more item counted at the end. */
  lemma TallySnoc<P>(items: seq<(string, P)>, x: (string, P))
    ensures TallyOf(items + [x]) == Bump(TallyOf(items), x.0, x.1)
  {
    assert (items + [x])[..|items|] == items;
  }

  /** The `j`-th item of `more` counted after `items` and the first `j` of `more`. */
  lemma TallyStep<P>(items: seq<(string, P)>, more: seq<(string, P)>, j: nat)
    requires j < |more|
    ensures TallyOf(items + more[..j + 1]) == Bump(TallyOf(items + more[..j]), more[j].0, more[j].1)
  {
    assert items + more[..j + 1] == (items + more[..j]) + [more[j]];
    TallySnoc(items + more[..j], more[j]);
  }

  /** Occurrences add up over a concatenation. */
  lemma {:induction false} OccurrencesAppend<P>(a: seq<(string, P)>, b: seq<(string, P)>, k: string)
    ensures Occurrences(a + b, k) == Occurrences(a, k) + Occurrences(b, k)
    decreases |b|
  {
    if b != [] {
      assert (a + b)[..|a + b| - 1] == a + b[..|b| - 1];
      OccurrencesAppend(a, b[..|b| - 1], k);
    } else {
      assert a + b == a;
    }
  }

  /** The keys a table has an entry for. */
  function EntryKeys<P>(t: Table<P>): (ks: set<string>)
    ensures forall i :: 0 <= i < |t| ==> t[i].key in ks
    ensures forall k :: k in ks ==> exists i :: 0 <= i < |t| && t[i].key == k
  {
    set i | 0 <= i < |t| :: t[i].key
  }

  /** A key is in the key set exactly when the table has an entry for it. */
  lemma EntryKeysFind<P>(t: Table<P>, k: string)
    ensures k in EntryKeys(t) <==> Find(t, k).Some?
  {
  }

  /** A table without repeated keys has as many keys as entries. */
  lemma {:induction false} UniqueKeysCount<P>(t: Table<P>)
    requires Unique(t)
    ensures |EntryKeys(t)| == |t|
  {
    if t == [] {
    } else {
      var init := t[..|t| - 1];
      UniqueInit(t);
      UniqueKeysCount(init);
      EntryKeysSnoc(t);
    }
  }

  /** The front of a table without repeated keys has none either, nor the last key. */
  lemma UniqueInit<P>(t: Table<P>)
    requires t != [] && Unique(t)
    ensures Unique(t[..|t| - 1])
    ensures t[|t| - 1].key !in EntryKeys(t[..|t| - 1])
  {
    var init := t[..|t| - 1];
    forall i, j | 0 <= i < j < |init|
      ensures init[i].key != init[j].key
    {
      assert init[i] == t[i] && init[j] == t[j];
    }
    forall i | 0 <= i < |init|
      ensures init[i].key != t[|t| - 1].key
    {
      assert init[i] == t[i];
    }
  }

  /** The keys of a table are those of its front and its last key. */
  lemma EntryKeysSnoc<P>(t: Table<P>)
    requires t != []
    ensures EntryKeys(t) == EntryKeys(t[..|t| - 1]) + {t[|t| - 1].key}
  {
    var init := t[..|t| - 1];
    forall k | k in EntryKeys(t)
      ensures k in EntryKeys(init) + {t[|t| - 1].key}
    {
      var i :| 0 <= i < |t| && t[i].key == k;
      if i < |init| {
        assert init[i] == t[i];
      }
    }
    forall k | k in EntryKeys(init)
      ensures k in EntryKeys(t)
    {
      var i :| 0 <= i < |init| && init[i].key == k;
      assert t[i] == init[i];
    }
  }
}
