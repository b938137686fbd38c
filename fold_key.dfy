/**
 * The two title fold keys: `normalizarTitulo` in extractor.js, which the per-CV
 * deduplication uses, and the key ui.js computes inline for the batch counters.
 * They are the same pipeline except that only the first turns the Unicode dashes
 * U+2010..U+2015 into `-`, so they are modelled as two functions.
 *
 * `toLowerCase` and "decompose (NFD), then drop U+0300..U+036F" are given by
 * explicit tables for ASCII and Latin-1: an accented Latin-1 letter folds to its
 * base letter, a combining mark disappears.
 */
module FoldKey {
  import opened Wrappers
  import opened Text

  /** A combining diacritical mark, U+0300..U+036F. */
  predicate IsMark(c: char) { '\U{300}' <= c <= '\U{36F}' }

  /** What is left of a lower-case Latin-1 letter once NFD splits off its accent. */
  function BaseLetter(c: char): char
  {
    if '\U{E0}' <= c <= '\U{E5}' then 'a'
    else if c == '\U{E7}' then 'c'
    else if '\U{E8}' <= c <= '\U{EB}' then 'e'
    else if '\U{EC}' <= c <= '\U{EF}' then 'i'
    else if c == '\U{F1}' then 'n'
    else if '\U{F2}' <= c <= '\U{F6}' then 'o'
    else if '\U{F9}' <= c <= '\U{FC}' then 'u'
    else if c == '\U{FD}' || c == '\U{FF}' then 'y'
    else c
  }

  /** `.normalize('NFD').replace(/[̀-ͯ]/g, '')`. */
  function StripMarks(s: string): (r: string)
    ensures |r| <= |s|
    ensures forall k :: 0 <= k < |r| ==> !IsMark(r[k])
  {
    if s == [] then []
    else
      var rest := StripMarks(s[1..]);
      if IsMark(s[0]) then rest else [BaseLetter(s[0])] + rest
  }

  predicate IsDash(c: char) { '\U{2010}' <= c <= '\U{2015}' }

  /** `.replace(/[‐-―]/g, '-')`. */
  function FoldDashes(s: string): (r: string)
    ensures |r| == |s| && forall k :: 0 <= k < |s| ==> r[k] == (if IsDash(s[k]) then '-' else s[k])
  {
    seq(|s|, k requires 0 <= k < |s| => if IsDash(s[k]) then '-' else s[k])
  }

  /** What `[^a-z0-9\s\-]` leaves alone. */
  predicate Kept(c: char) { IsLower(c) || IsDigit(c) || IsSpace(c) || c == '-' }

  /** `.replace(/[^a-z0-9\s\-]/g, ' ')`. */
  function Scrub(s: string): (r: string)
    ensures |r| == |s| && forall k :: 0 <= k < |s| ==> r[k] == (if Kept(s[k]) then s[k] else ' ')
  {
    seq(|s|, k requires 0 <= k < |s| => if Kept(s[k]) then s[k] else ' ')
  }

  predicate IsKeyChar(c: char) { IsLower(c) || IsDigit(c) || c == ' ' || c == '-' }

  /** The shape of every fold key: `[a-z0-9 -]` only, no space at either end, no two spaces in a row. */
  predicate WellFolded(k: string)
  {
    (forall i :: 0 <= i < |k| ==> IsKeyChar(k[i])) &&
    (k == [] || (k[0] != ' ' && k[|k| - 1] != ' ')) &&
    (forall i :: 0 <= i < |k| - 1 ==> !(k[i] == ' ' && k[i + 1] == ' '))
  }

  /** `.replace(/\s+/g, ' ').trim()` applied to a scrubbed string gives a well-folded key. */
  lemma FinishFolds(s: string)
    requires forall i :: 0 <= i < |s| ==> Kept(s[i])
    ensures WellFolded(Trim(Collapse(s)))
  {
    var c := Collapse(s);
    CollapsedKeyChars(s);
    KeyCharsSlice(c, TrimLo(c), TrimHi(c));
  }

  /** A piece of a string of key characters without double spaces is one too. */
  lemma KeyCharsSlice(c: string, lo: nat, hi: nat)
    requires lo <= hi <= |c|
    requires forall i :: 0 <= i < |c| ==> IsKeyChar(c[i])
    requires forall i :: 0 <= i < |c| - 1 ==> !(c[i] == ' ' && c[i + 1] == ' ')
    ensures forall i :: 0 <= i < |c[lo..hi]| ==> IsKeyChar(c[lo..hi][i])
    ensures forall i :: 0 <= i < |c[lo..hi]| - 1 ==> !(c[lo..hi][i] == ' ' && c[lo..hi][i + 1] == ' ')
  {
    assert forall i :: 0 <= i < hi - lo ==> c[lo..hi][i] == c[lo + i];
  }

  /** After the collapse a scrubbed string holds key characters only. */
  lemma CollapsedKeyChars(s: string)
    requires forall i :: 0 <= i < |s| ==> Kept(s[i])
    ensures forall i :: 0 <= i < |Collapse(s)| ==> IsKeyChar(Collapse(s)[i])
  {
    var c := Collapse(s);
    forall i | 0 <= i < |c|
      ensures IsKeyChar(c[i])
    {
      if c[i] != ' ' {
        var j :| 0 <= j < |s| && s[j] == c[i];
        KeptKeyChar(s[j]);
      }
    }
  }

  lemma KeptKeyChar(c: char)
    requires Kept(c) && (IsSpace(c) ==> c == ' ')
    ensures IsKeyChar(c)
  {
  }

  /** `normalizarTitulo`: `null` and `undefined` fold to the empty key. */
  function TitleKey(title: Option<string>): (k: string)
    ensures WellFolded(k)
    ensures title.None? ==> k == ""
  {
    var s := Scrub(FoldDashes(StripMarks(LowerAll(title.GetOr("")))));
    FinishFolds(s);
    Trim(Collapse(s))
  }

  /** The key ui.js builds inline in `contarArtigosUnicos` and `exibirListaArtigos`: no dash step. */
  function UiKey(title: string): (k: string)
    ensures WellFolded(k)
  {
    var s := Scrub(StripMarks(LowerAll(title)));
    FinishFolds(s);
    Trim(Collapse(s))
  }

  /** Every step of the fold leaves a well-folded key as it is. */
  lemma {:induction false} FoldFixes(k: string)
    requires WellFolded(k)
    ensures StripMarks(LowerAll(k)) == k
    ensures FoldDashes(k) == k && Scrub(k) == k
    ensures Trim(Collapse(k)) == k
  {
    assert LowerAll(k) == k;
    StripMarksAscii(k);
    assert FoldDashes(k) == k;
    assert Scrub(k) == k;
    CollapseNoop(k);
    TrimNoop(k);
  }

  /** Text with no marks and no accented letters goes through the accent step unchanged. */
  lemma {:induction false} StripMarksPlain(s: string)
    requires forall i :: 0 <= i < |s| ==> !IsMark(s[i]) && BaseLetter(s[i]) == s[i]
    ensures StripMarks(s) == s
  {
    if s != [] {
      StripMarksPlain(s[1..]);
      assert s == [s[0]] + s[1..];
    }
  }

  lemma StripMarksAscii(s: string)
    requires forall i :: 0 <= i < |s| ==> IsKeyChar(s[i])
    ensures StripMarks(s) == s
  {
    forall i | 0 <= i < |s|
      ensures !IsMark(s[i]) && BaseLetter(s[i]) == s[i]
    {
      KeyCharPlain(s[i]);
    }
    StripMarksPlain(s);
  }

  lemma KeyCharPlain(c: char)
    requires IsKeyChar(c)
    ensures !IsMark(c) && BaseLetter(c) == c
  {
  }

  /** `normalizarTitulo` is idempotent, and its keys are their own ui.js keys too. */
  lemma TitleKeyIdempotent(title: Option<string>)
    ensures TitleKey(Some(TitleKey(title))) == TitleKey(title)
    ensures UiKey(TitleKey(title)) == TitleKey(title)
  {
    FoldFixes(TitleKey(title));
  }

  lemma UiKeyIdempotent(title: string)
    ensures UiKey(UiKey(title)) == UiKey(title)
  {
    FoldFixes(UiKey(title));
  }

  /** Lower-casing and removing accents never produce a Unicode dash. */
  lemma {:induction false} StripMarksNoDash(s: string)
    requires forall i :: 0 <= i < |s| ==> !IsDash(s[i])
    ensures forall i :: 0 <= i < |StripMarks(s)| ==> !IsDash(StripMarks(s)[i])
  {
    if s != [] {
      StripMarksNoDash(s[1..]);
    }
  }

  /** The two keys agree on every title without a Unicode dash. */
  lemma KeysAgreeWithoutDashes(title: string)
    requires forall i :: 0 <= i < |title| ==> !IsDash(title[i])
    ensures TitleKey(Some(title)) == UiKey(title)
  {
    var s := StripMarks(LowerAll(title));
    StripMarksNoDash(LowerAll(title));
    assert FoldDashes(s) == s;
  }

  /** ... and disagree on one that has one: U+2010 becomes `-` in one key and a space in the other. */
  lemma KeysDisagreeOnDashes()
    ensures TitleKey(Some("a\U{2010}b")) == "a-b"
    ensures UiKey("a\U{2010}b") == "a b"
  {
    DashTitlePlain();
    DashTitleKey();
    DashUiKey();
  }

  lemma DashTitlePlain()
    ensures StripMarks(LowerAll("a\U{2010}b")) == "a\U{2010}b"
  {
    var t := "a\U{2010}b";
    assert LowerAll(t) == t by {
      assert forall i :: 0 <= i < 3 ==> LowerAll(t)[i] == t[i];
    }
    StripMarksPlain(t);
  }

  lemma DashTitleKey()
    requires StripMarks(LowerAll("a\U{2010}b")) == "a\U{2010}b"
    ensures TitleKey(Some("a\U{2010}b")) == "a-b"
  {
    var d := Scrub(FoldDashes("a\U{2010}b"));
    assert d == "a-b" by {
      assert forall i :: 0 <= i < 3 ==> d[i] == "a-b"[i];
    }
    FoldFixes("a-b");
  }

  lemma DashUiKey()
    requires StripMarks(LowerAll("a\U{2010}b")) == "a\U{2010}b"
    ensures UiKey("a\U{2010}b") == "a b"
  {
    var u := Scrub("a\U{2010}b");
    assert u == "a b" by {
      assert forall i :: 0 <= i < 3 ==> u[i] == "a b"[i];
    }
    FoldFixes("a b");
  }
}
