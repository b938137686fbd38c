/**
 * Keeping the first item seen for each key: the `vistos` set of `extrairArtigos`
 * (extractor.js) and the `titulosMap` of `exibirListaArtigos` (ui.js). The key
 * function is a parameter, because the two use different fold keys.
 *
 * Also the other way the extractors drop repeats: each value found is pushed
 * onto a list unless the list already includes it.
 */
module Dedup {
  import opened Wrappers

  /** The keys of `items`. */
  function KeySet(items: seq<string>, key: string -> string): (ks: set<string>)
    ensures forall k {:trigger key(items[k])} :: 0 <= k < |items| ==> key(items[k]) in ks
    ensures forall x :: x in ks ==> exists k :: 0 <= k < |items| && key(items[k]) == x
  {
    set k | 0 <= k < |items| :: key(items[k])
  }

  /** The items kept after visiting `items` in order: an item is kept unless its key was seen. */
  function FirstPerKey(items: seq<string>, key: string -> string): seq<string>
  {
    if items == [] then []
    else
      var done := FirstPerKey(items[..|items| - 1], key);
      var x := items[|items| - 1];
      if key(x) in KeySet(done, key) then done else done + [x]
  }

  lemma KeySetSnoc(items: seq<string>, x: string, key: string -> string)
    ensures KeySet(items + [x], key) == KeySet(items, key) + {key(x)}
  {
    var s := items + [x];
    forall y | y in KeySet(s, key)
      ensures y in KeySet(items, key) + {key(x)}
    {
      var k :| 0 <= k < |s| && key(s[k]) == y;
      if k < |items| {
        assert s[k] == items[k];
      }
    }
    forall y | y in KeySet(items, key)
      ensures y in KeySet(s, key)
    {
      var k :| 0 <= k < |items| && key(items[k]) == y;
      assert s[k] == items[k];
    }
    assert key(s[|items|]) == key(x);
  }

  lemma FirstPerKeySnoc(items: seq<string>, x: string, key: string -> string)
    ensures FirstPerKey(items + [x], key) ==
              if key(x) in KeySet(FirstPerKey(items, key), key) then FirstPerKey(items, key) else FirstPerKey(items, key) + [x]
  {
    assert (items + [x])[..|items|] == items;
  }

  /** The kept items have pairwise different keys, and exactly the keys of all the items. */
  lemma {:induction false} FirstPerKeyKeys(items: seq<string>, key: string -> string)
    ensures forall i, j :: 0 <= i < j < |FirstPerKey(items, key)| ==>
              key(FirstPerKey(items, key)[i]) != key(FirstPerKey(items, key)[j])
    ensures KeySet(FirstPerKey(items, key), key) == KeySet(items, key)
  {
    if items != [] {
      var init := items[..|items| - 1];
      var x := items[|items| - 1];
      FirstPerKeyKeys(init, key);
      var done := FirstPerKey(init, key);
      assert items == init + [x];
      KeySetSnoc(init, x, key);
      if key(x) !in KeySet(done, key) {
        KeySetSnoc(done, x, key);
      }
    }
  }

  /** Every kept item is one of the items, so no more are kept than there are items. */
  lemma {:induction false} FirstPerKeySubsequence(items: seq<string>, key: string -> string)
    ensures forall i :: 0 <= i < |FirstPerKey(items, key)| ==> FirstPerKey(items, key)[i] in items
    ensures |FirstPerKey(items, key)| <= |items|
  {
    if items != [] {
      var init := items[..|items| - 1];
      FirstPerKeySubsequence(init, key);
      assert forall y :: y in init ==> y in items;
    }
  }

  /** The first item with a given key is the one kept for it. */
  lemma {:induction false} FirstPerKeyFirst(items: seq<string>, key: string -> string, k: nat)
    requires k < |items|
    requires forall j :: 0 <= j < k ==> key(items[j]) != key(items[k])
    ensures items[k] in FirstPerKey(items, key)
  {
    var init := items[..|items| - 1];
    if k < |items| - 1 {
      assert init[k] == items[k];
      FirstPerKeyFirst(init, key, k);
    } else {
      FirstPerKeyKeys(init, key);
      assert forall j :: 0 <= j < |init| ==> init[j] == items[j];
      assert key(items[k]) !in KeySet(init, key);
    }
  }

  /** An item seen twice is kept once. */
  lemma FirstPerKeyTwice(x: string, key: string -> string)
    ensures FirstPerKey([x, x], key) == [x]
  {
    assert [x, x] == [x] + [x];
    FirstPerKeySnoc([], x, key);
    FirstPerKeySnoc([x], x, key);
    assert [] + [x] == [x];
    assert key([x][0]) in KeySet([x], key);
  }

  /** A sequence whose keys are pairwise different has as many keys as items. */
  lemma {:induction false} DistinctKeyCount(items: seq<string>, key: string -> string)
    requires forall i, j :: 0 <= i < j < |items| ==> key(items[i]) != key(items[j])
    ensures |KeySet(items, key)| == |items|
  {
    if items != [] {
      var init := items[..|items| - 1];
      var x := items[|items| - 1];
      DistinctKeyCount(init, key);
      assert items == init + [x];
      KeySetSnoc(init, x, key);
      assert forall j :: 0 <= j < |init| ==> init[j] == items[j];
      assert key(x) !in KeySet(init, key);
    }
  }

  /** As many items are kept as there are different keys among all the items. */
  lemma FirstPerKeyCount(items: seq<string>, key: string -> string)
    ensures |FirstPerKey(items, key)| == |KeySet(items, key)|
  {
    FirstPerKeyKeys(items, key);
    DistinctKeyCount(FirstPerKey(items, key), key);
  }

  // ---------------------------------------------------- filtered sequences

  /** The values present in `cs`, in order, the `None`s left out. */
  function Somes<T>(cs: seq<Option<T>>): (r: seq<T>)
    ensures |r| <= |cs|
  {
    if cs == [] then []
    else
      var c := cs[|cs| - 1];
      Somes(cs[..|cs| - 1]) + (if c.Some? then [c.value] else [])
  }

  lemma TakeSnoc<T>(xs: seq<T>, k: nat)
    requires k < |xs|
    ensures xs[..k + 1] == xs[..k] + [xs[k]]
  {
  }

  lemma ConcatTake<T>(a: seq<T>, b: seq<T>, j: nat)
    requires j < |b|
    ensures (a + b[..j]) + [b[j]] == a + b[..j + 1]
    ensures a + b[..0] == a && b[..|b|] == b
  {
    assert b[..j + 1] == b[..j] + [b[j]];
  }

  /** The values of a pair of the same option. */
  lemma SomesPair<T>(c: Option<T>)
    ensures Somes([c, c]) == if c.Some? then [c.value, c.value] else []
  {
    assert [c, c][..1] == [c];
    assert [c][..0] == [];
  }

  lemma SomesSnoc<T>(cs: seq<Option<T>>, c: Option<T>)
    ensures Somes(cs + [c]) == if c.Some? then Somes(cs) + [c.value] else Somes(cs)
  {
    assert (cs + [c])[..|cs|] == cs;
  }

  /** Every value of `Somes(cs)` is present in `cs`. */
  lemma {:induction false} SomesFrom<T>(cs: seq<Option<T>>)
    ensures forall i :: 0 <= i < |Somes(cs)| ==> exists k :: 0 <= k < |cs| && cs[k] == Some(Somes(cs)[i])
  {
    if cs != [] {
      var init := cs[..|cs| - 1];
      SomesFrom(init);
      var c := cs[|cs| - 1];
      var r := Somes(cs);
      assert r == Somes(init) + (if c.Some? then [c.value] else []);
      forall i | 0 <= i < |r|
        ensures exists k :: 0 <= k < |cs| && cs[k] == Some(r[i])
      {
        if i < |Somes(init)| {
          var k :| 0 <= k < |init| && init[k] == Some(Somes(init)[i]);
          assert cs[k] == init[k];
        } else {
          assert cs[|cs| - 1] == Some(r[i]);
        }
      }
    } else {
      assert Somes(cs) == [];
    }
  }

  /** The values of a prefix are a prefix of the values. */
  lemma {:induction false} SomesPrefix<T>(cs: seq<Option<T>>, n: nat)
    requires n <= |cs|
    ensures Somes(cs[..n]) <= Somes(cs)
    decreases |cs| - n
  {
    if n < |cs| {
      SomesPrefix(cs, n + 1);
      assert cs[..n + 1][..n] == cs[..n];
    } else {
      TakeAll(cs);
    }
  }

  /** No values, no results. */
  lemma {:induction false} SomesNone<T>(cs: seq<Option<T>>)
    requires forall k :: 0 <= k < |cs| ==> cs[k].None?
    ensures Somes(cs) == []
  {
    if cs != [] {
      SomesNone(cs[..|cs| - 1]);
    }
  }

  /** The values of two sequences one after the other. */
  lemma {:induction false} SomesAppend<T>(a: seq<Option<T>>, b: seq<Option<T>>)
    ensures Somes(a + b) == Somes(a) + Somes(b)
    decreases |b|
  {
    if b == [] {
      assert a + b == a;
    } else {
      SomesAppend(a, b[..|b| - 1]);
      SomesAppendStep(a, b);
    }
  }

  lemma SomesAppendStep<T>(a: seq<Option<T>>, b: seq<Option<T>>)
    requires b != [] && Somes(a + b[..|b| - 1]) == Somes(a) + Somes(b[..|b| - 1])
    ensures Somes(a + b) == Somes(a) + Somes(b)
  {
    var init, x := b[..|b| - 1], b[|b| - 1];
    SplitLast(a, b);
    SomesSnoc(a + init, x);
    SomesSnoc(init, x);
  }

  /** Appending nothing of `b` leaves `a`. */
  lemma AppendNone<T>(a: seq<T>, b: seq<T>)
    ensures a + b[..0] == a
  {
  }

  /** All of `b` is `b`. */
  lemma TakeAll<T>(b: seq<T>)
    ensures b[..|b|] == b
  {
  }

  /** A non-empty `b`, and `a + b`, are their front part followed by the last element of `b`. */
  lemma SplitLast<T>(a: seq<T>, b: seq<T>)
    requires b != []
    ensures b == b[..|b| - 1] + [b[|b| - 1]]
    ensures a + b == (a + b[..|b| - 1]) + [b[|b| - 1]]
  {
  }

  // ------------------------------------------------------ sequence algebra

  /*
   * Stated on an arbitrary element type, these steps stay cheap where the same
   * step on sequences of extracted records would make the solver unfold the
   * scanners behind each record.
   */

  /** Membership in a non-empty sequence: in its front part, or its last element. */
  lemma InFrontOrLast<T>(xs: seq<T>, x: T)
    requires xs != []
    ensures x in xs <==> x in xs[..|xs| - 1] || x == xs[|xs| - 1]
  {
    assert xs == xs[..|xs| - 1] + [xs[|xs| - 1]];
  }

  lemma ConsAssoc<T>(xs: seq<T>, x: T, ys: seq<T>)
    ensures xs + ([x] + ys) == (xs + [x]) + ys
  {
  }

  lemma AppendNil<T>(xs: seq<T>)
    ensures xs + [] == xs
  {
  }

  lemma AppendAssoc<T>(a: seq<T>, b: seq<T>, c: seq<T>)
    ensures (a + b) + c == a + (b + c)
  {
  }

  /** One more element of `o` taken after `a`. */
  lemma TakeOneMore<T>(a: seq<T>, o: seq<T>, j: nat)
    requires j < |o|
    ensures a + o[..j + 1] == (a + o[..j]) + [o[j]]
  {
    assert o[..j + 1] == o[..j] + [o[j]];
  }

  lemma ConsIndex<T>(x: T, xs: seq<T>)
    ensures ([x] + xs)[0] == x
    ensures forall a :: 1 <= a <= |xs| ==> ([x] + xs)[a] == xs[a - 1]
  {
  }

  lemma AppendIndex<T>(l: seq<T>, r: seq<T>)
    ensures forall a :: 0 <= a < |l| ==> (l + r)[a] == l[a]
    ensures forall a :: |l| <= a < |l + r| ==> (l + r)[a] == r[a - |l|]
  {
  }

  /** The first value present is the first result. */
  lemma SomesFirst<T>(cs: seq<Option<T>>, a: nat)
    requires a < |cs| && cs[a].Some?
    requires forall b :: 0 <= b < a ==> cs[b].None?
    ensures |Somes(cs)| > 0 && Somes(cs)[0] == cs[a].value
  {
    assert cs == cs[..a] + cs[a..];
    SomesAppend(cs[..a], cs[a..]);
    SomesNone(cs[..a]);
    assert cs[a..] == [cs[a]] + cs[a + 1..];
    SomesAppend([cs[a]], cs[a + 1..]);
    SomesSnoc([], cs[a]);
    assert [] + [cs[a]] == [cs[a]];
  }

  /** Every value kept from `Somes(cs)` is present in `cs`. */
  lemma KeptFrom(cs: seq<Option<string>>, key: string -> string)
    ensures forall i :: 0 <= i < |FirstPerKey(Somes(cs), key)| ==>
              exists k :: 0 <= k < |cs| && cs[k] == Some(FirstPerKey(Somes(cs), key)[i])
  {
    var v := Somes(cs);
    SomesFrom(cs);
    FirstPerKeySubsequence(v, key);
    var r := FirstPerKey(v, key);
    forall i | 0 <= i < |r|
      ensures exists k :: 0 <= k < |cs| && cs[k] == Some(r[i])
    {
      assert r[i] in v;
      var m :| 0 <= m < |v| && v[m] == r[i];
    }
  }

  /** The value at the first position to offer a given key is kept. */
  lemma FirstSomeKept(cs: seq<Option<string>>, key: string -> string, k: nat)
    requires k < |cs| && cs[k].Some?
    requires forall j :: 0 <= j < k && cs[j].Some? ==> key(cs[j].value) != key(cs[k].value)
    ensures cs[k].value in FirstPerKey(Somes(cs), key)
  {
    var t := cs[k].value;
    var before := Somes(cs[..k]);
    TakeSnoc(cs, k);
    SomesSnoc(cs[..k], cs[k]);
    assert Somes(cs[..k + 1]) == before + [t];
    SomesPrefix(cs, k + 1);
    var v := Somes(cs);
    var m := |before|;
    assert before + [t] <= v;
    assert v[m] == (before + [t])[m] == t;
    SomesFrom(cs[..k]);
    forall j | 0 <= j < m
      ensures key(v[j]) != key(v[m])
    {
      assert v[j] == before[j];
      var i :| 0 <= i < k && cs[..k][i] == Some(before[j]);
      assert cs[..k][i] == cs[i];
    }
    FirstPerKeyFirst(v, key, m);
  }

  /** One more position: its value, if any, is kept exactly when its key has not been seen. */
  lemma SomesStep(cs: seq<Option<string>>, c: Option<string>, key: string -> string)
    ensures FirstPerKey(Somes(cs + [c]), key) ==
              if c.Some? && key(c.value) !in KeySet(FirstPerKey(Somes(cs), key), key)
              then FirstPerKey(Somes(cs), key) + [c.value]
              else FirstPerKey(Somes(cs), key)
  {
    SomesSnoc(cs, c);
    if c.Some? {
      FirstPerKeySnoc(Somes(cs), c.value, key);
    }
  }

  // ------------------------------------------------------- include, then push

  /** No item occurs twice. */
  predicate Distinct(xs: seq<string>)
  {
    forall i, j :: 0 <= i < j < |xs| ==> xs[i] != xs[j]
  }

  /** `if (!xs.includes(x)) xs.push(x)`. */
  function PushNew(xs: seq<string>, x: string): (r: seq<string>)
    ensures x in r && forall y :: y in r <==> y in xs || y == x
    ensures Distinct(xs) ==> Distinct(r)
    ensures xs <= r
  {
    if x in xs then xs else xs + [x]
  }

  /** `if (v && !xs.includes(v)) xs.push(v)` for each value offered, in order: empty strings are falsy. */
  function Collect(vs: seq<Option<string>>): seq<string>
  {
    if vs == [] then []
    else
      var done := Collect(vs[..|vs| - 1]);
      match vs[|vs| - 1]
      case Some(x) => if x != [] then PushNew(done, x) else done
      case None => done
  }

  /** `x` is offered, non-empty, by one of `vs`. */
  predicate Offered(vs: seq<Option<string>>, x: string)
  {
    x != [] && exists k :: 0 <= k < |vs| && vs[k] == Some(x)
  }

  /** The collected items are exactly the non-empty values offered, each once. */
  lemma {:induction false} CollectExactly(vs: seq<Option<string>>)
    ensures forall x :: x in Collect(vs) <==> Offered(vs, x)
    ensures Distinct(Collect(vs))
  {
    if vs != [] {
      var init := vs[..|vs| - 1];
      CollectExactly(init);
      forall x
        ensures Offered(vs, x) <==> Offered(init, x) || (x != [] && vs[|vs| - 1] == Some(x))
      {
        if Offered(vs, x) {
          var k :| 0 <= k < |vs| && vs[k] == Some(x);
          if k < |init| {
            assert init[k] == Some(x);
          }
        }
        if Offered(init, x) {
          var k :| 0 <= k < |init| && init[k] == Some(x);
          assert vs[k] == Some(x);
        }
      }
    }
  }

  /** Once collected, an item keeps its place: later values only append. */
  lemma {:induction false} CollectGrows(vs: seq<Option<string>>, n: nat)
    requires n <= |vs|
    ensures Collect(vs[..n]) <= Collect(vs)
    decreases |vs| - n
  {
    if n < |vs| {
      CollectGrows(vs[..|vs| - 1], n);
      assert vs[..|vs| - 1][..n] == vs[..n];
    } else {
      TakeAll(vs);
    }
  }

  /** The values `f` offers for each of `lines`, in order. */
  function Values(lines: seq<string>, f: string -> Option<string>): (vs: seq<Option<string>>)
    ensures |vs| == |lines| && forall k :: 0 <= k < |lines| ==> vs[k] == f(lines[k])
  {
    seq(|lines|, k requires 0 <= k < |lines| => f(lines[k]))
  }

  lemma ValuesSnoc(lines: seq<string>, line: string, f: string -> Option<string>)
    ensures Values(lines + [line], f) == Values(lines, f) + [f(line)]
  {
    var l := Values(lines + [line], f);
    var r := Values(lines, f) + [f(line)];
    forall k | 0 <= k < |l|
      ensures l[k] == r[k]
    {
      if k < |lines| {
        assert (lines + [line])[k] == lines[k];
      }
    }
  }

  /** One more value offered. */
  lemma CollectSnoc(vs: seq<Option<string>>, v: Option<string>)
    ensures Collect(vs + [v]) == if v.Some? && v.value != [] then PushNew(Collect(vs), v.value) else Collect(vs)
  {
    assert (vs + [v])[..|vs|] == vs;
  }

  /** Offered by a concatenation: offered by one of its parts. */
  lemma OfferedAppend(a: seq<Option<string>>, b: seq<Option<string>>, x: string)
    ensures Offered(a + b, x) <==> Offered(a, x) || Offered(b, x)
  {
    if Offered(a + b, x) {
      var k :| 0 <= k < |a + b| && (a + b)[k] == Some(x);
      if k >= |a| {
        assert b[k - |a|] == Some(x);
      }
    }
    if Offered(a, x) {
      var k :| 0 <= k < |a| && a[k] == Some(x);
      assert (a + b)[k] == Some(x);
    }
    if Offered(b, x) {
      var k :| 0 <= k < |b| && b[k] == Some(x);
      assert (a + b)[|a| + k] == Some(x);
    }
  }

  /** One more line offers its value to a list. */
  lemma CollectLine(lines: seq<string>, i: nat, f: string -> Option<string>)
    requires i < |lines|
    ensures var v := f(lines[i]);
            Collect(Values(lines[..i + 1], f)) ==
              if v.Some? && v.value != [] then PushNew(Collect(Values(lines[..i], f)), v.value)
              else Collect(Values(lines[..i], f))
  {
    TakeSnoc(lines, i);
    ValuesSnoc(lines[..i], lines[i], f);
    var vs := Values(lines[..i], f);
    assert (vs + [f(lines[i])])[..|vs|] == vs;
  }

  /** `if (v && !xs.includes(v)) xs.push(v)` for the value a pattern found on a line, if any. */
  method PushValue(xs: seq<string>, v: Option<string>) returns (r: seq<string>)
    ensures r == if v.Some? && v.value != [] then PushNew(xs, v.value) else xs
  {
    r := xs;
    if v.Some? && v.value != [] && v.value !in xs {
      r := xs + [v.value];
    }
  }

}
