/**
 * `extrairIdiomas` (extractor.js): the languages of the `Idiomas` section. A
 * line names a known language when, trimmed, it is that language's name or
 * starts with the name and a space; each language is listed once, in the
 * order it is first named.
 */
module Languages {
  import opened Wrappers
  import opened Text
  import opened Segments
  import opened Dedup

  const Heads: seq<string> := ["Idiomas"]
  const Stops: seq<string> := ["Prêmios", "Produções", "Áreas de atuação", "Atuação Profissional"]

  /** The languages the extractor knows, in the order it tries them on each line. */
  const Known: seq<string> := ["Português", "Inglês", "Espanhol", "Francês", "Alemão", "Italiano", "Japonês",
    "Chinês", "Mandarim", "Coreano", "Russo", "Árabe", "Hebraico", "Latim", "Libras"]

  lemma KnownNonEmpty()
    ensures forall x :: x in Known ==> |x| >= 5
  {
  }

  /** `l === x || l.startsWith(x + ' ')`. */
  predicate Names(l: string, x: string)
  {
    l == x || StartsWith(l, x + " ")
  }

  /**
   * What one line offers, one entry per language of `known`, in the order they
   * are tried. The list of languages is a parameter so that the proofs do not
   * unfold the fifteen names.
   */
  function Offers(line: string, known: seq<string>): (vs: seq<Option<string>>)
    ensures |vs| == |known|
    ensures forall k :: 0 <= k < |known| ==> vs[k] == if Names(Trim(line), known[k]) then Some(known[k]) else None
  {
    var l := Trim(line);
    seq(|known|, k requires 0 <= k < |known| => if Names(l, known[k]) then Some(known[k]) else None)
  }

  /** What the lines offer, line after line. */
  function AllOffers(lines: seq<string>, known: seq<string>): seq<Option<string>>
  {
    if lines == [] then [] else AllOffers(lines[..|lines| - 1], known) + Offers(lines[|lines| - 1], known)
  }

  /** The languages of `known` that the lines of a section name. */
  function LanguagesIn(lines: seq<string>, known: seq<string>): seq<string>
  {
    Collect(AllOffers(lines, known))
  }

  /** `extrairIdiomas(texto)`. */
  function LanguagesOf(t: string): seq<string>
  {
    match SectionText(t, Heads, Stops)
    case None => []
    case Some(s) => LanguagesIn(Lines(s), Known)
  }

  /** Some line, trimmed, names `x`. */
  predicate Named(lines: seq<string>, x: string)
  {
    exists k :: 0 <= k < |lines| && Names(Trim(lines[k]), x)
  }

  /** A line offers exactly the known languages it names. */
  lemma LineOffers(line: string, known: seq<string>, x: string)
    requires forall y :: y in known ==> y != []
    ensures Offered(Offers(line, known), x) <==> x in known && Names(Trim(line), x)
  {
    var vs := Offers(line, known);
    if x in known && Names(Trim(line), x) {
      var k :| 0 <= k < |known| && known[k] == x;
      assert vs[k] == Some(x);
    }
  }

  lemma {:induction false} AllOffersNamed(lines: seq<string>, known: seq<string>, x: string)
    requires forall y :: y in known ==> y != []
    ensures Offered(AllOffers(lines, known), x) <==> x in known && Named(lines, x)
  {
    if lines == [] {
    } else {
      var init := lines[..|lines| - 1];
      var last := lines[|lines| - 1];
      AllOffersNamed(init, known, x);
      OfferedAppend(AllOffers(init, known), Offers(last, known), x);
      LineOffers(last, known, x);
      NamedSplit(lines, x);
    }
  }

  /** Some line names `x` exactly when one before the last does or the last does. */
  lemma NamedSplit(lines: seq<string>, x: string)
    requires lines != []
    ensures Named(lines, x) <==> Named(lines[..|lines| - 1], x) || Names(Trim(lines[|lines| - 1]), x)
  {
    var init, n := lines[..|lines| - 1], |lines| - 1;
    if Named(lines, x) {
      var k :| 0 <= k < |lines| && Names(Trim(lines[k]), x);
      if k < n {
        assert init[k] == lines[k];
      }
    } else {
      forall k | 0 <= k < |init|
        ensures !Names(Trim(init[k]), x)
      {
        assert init[k] == lines[k];
      }
    }
  }

  /** The languages listed are exactly the known ones some line names, each once. */
  lemma LanguagesExactly(lines: seq<string>, known: seq<string>)
    requires forall y :: y in known ==> y != []
    ensures forall x :: x in LanguagesIn(lines, known) <==> x in known && Named(lines, x)
    ensures Distinct(LanguagesIn(lines, known))
    ensures |LanguagesIn(lines, known)| <= |known|
  {
    CollectExactly(AllOffers(lines, known));
    forall x
      ensures x in LanguagesIn(lines, known) <==> x in known && Named(lines, x)
    {
      AllOffersNamed(lines, known, x);
    }
    DistinctWithin(LanguagesIn(lines, known), known);
  }

  /**
   * The languages of a profile are exactly the known ones a line of its
   * `Idiomas` section names, each once, so at most fifteen.
   */
  lemma LanguagesOfExactly(t: string)
    ensures forall x :: x in LanguagesOf(t) <==>
      x in Known && SectionText(t, Heads, Stops).Some? && Named(Lines(SectionText(t, Heads, Stops).value), x)
    ensures Distinct(LanguagesOf(t)) && |LanguagesOf(t)| <= 15
  {
    KnownNonEmpty();
    if SectionText(t, Heads, Stops).Some? {
      LanguagesExactly(Lines(SectionText(t, Heads, Stops).value), Known);
    }
  }

  /** A list without repeats, drawn from `pool`, is no longer than `pool`. */
  lemma {:induction false} DistinctWithin(r: seq<string>, pool: seq<string>)
    requires Distinct(r) && forall x :: x in r ==> x in pool
    ensures |r| <= |pool|
    decreases |r|
  {
    if r != [] {
      var x := r[|r| - 1];
      assert x in r;
      var k :| 0 <= k < |pool| && pool[k] == x;
      var rest := pool[..k] + pool[k + 1..];
      var init := r[..|r| - 1];
      forall y | y in init
        ensures y in rest
      {
        var i :| 0 <= i < |init| && init[i] == y;
        assert r[i] == y && y != x && y in r;
        var j :| 0 <= j < |pool| && pool[j] == y;
        if j < k {
          assert rest[j] == y;
        } else {
          assert rest[j - 1] == y;
        }
      }
      DistinctWithin(init, rest);
    }
  }

  /** With no `Idiomas` section there are no languages. */
  lemma NoSectionNoLanguages(t: string)
    requires forall p :: 0 <= p <= |t| ==> !CiAtAny(t, p, Heads)
    ensures LanguagesOf(t) == []
  {
  }

  /** The nested `forEach`: for each line, each known language it names is pushed unless already listed. */
  method CollectLanguages(lines: seq<string>, known: seq<string>) returns (r: seq<string>)
    ensures r == LanguagesIn(lines, known)
  {
    r := [];
    var i := 0;
    while i < |lines|
      invariant i <= |lines|
      invariant r == Collect(AllOffers(lines[..i], known))
    {
      var l := Trim(lines[i]);
      ghost var done := AllOffers(lines[..i], known);
      ghost var offers := Offers(lines[i], known);
      var j := 0;
      Dedup.AppendNone(done, offers);
      while j < |known|
        invariant j <= |known|
        invariant r == Collect(done + offers[..j])
      {
        var v: Option<string> := if Names(l, known[j]) then Some(known[j]) else None;
        TakeOneMore(done, offers, j);
        CollectSnoc(done + offers[..j], v);
        r := PushValue(r, v);
        j := j + 1;
      }
      Dedup.TakeAll(offers);
      assert lines[..i + 1][..i] == lines[..i];
      i := i + 1;
    }
    Dedup.TakeAll(lines);
  }

  /** `extrairIdiomas` as the source runs it. */
  method ExtractLanguages(t: string) returns (r: seq<string>)
    ensures r == LanguagesOf(t)
  {
    var section := SectionText(t, Heads, Stops);
    if section.None? {
      return [];
    }
    r := CollectLanguages(Lines(section.value), Known);
  }
}
