/**
 * `extrairAutoresDaEntrada` and `normalizarNomeAutor` (extractor.js): the author
 * list of one entry is the text before its first `" . "`, cut at every `;`, each
 * piece trimmed and stripped of a leading `N.` numbering, and kept only when it
 * is longer than two characters and has a comma (`SURNAME, INITIALS`).
 */
module Authors {
  import opened Wrappers
  import opened Text

  /** Where the pattern `^\d+\.\s*` ends its match on `s`, or `0` when it does not match. */
  function NumberingEnd(s: string): (e: nat)
    ensures e <= |s|
    ensures e > 0 ==> IsDigit(s[0])
  {
    var d := RunEnd(s, 0, IsDigit);
    if d > 0 && d < |s| && s[d] == '.' then SpaceEnd(s, d + 1) else 0
  }

  /** `normalizarNomeAutor`: trim, drop a leading `N.` with its spaces, trim again. */
  function NormAuthor(name: string): (r: string)
    ensures Trimmed(r)
  {
    var n := Trim(name);
    Trim(n[NumberingEnd(n)..])
  }

  /** The normalised name is a piece of the name as written. */
  lemma NormAuthorSlice(name: string)
    ensures exists i, j :: 0 <= i <= j <= |name| && NormAuthor(name) == name[i..j]
  {
    var a, b := TrimLo(name), TrimHi(name);
    var n := name[a..b];
    var e := NumberingEnd(n);
    var m := n[e..];
    var c, d := TrimLo(m), TrimHi(m);
    SliceOfSlice(name, a, b, e, b - a);
    SliceOfSlice(name, a + e, b, c, d);
  }

  /** A name whose trimmed text has no `digits "."` prefix is only trimmed. */
  lemma NormAuthorPlain(name: string)
    requires forall d :: 0 < d < |Trim(name)| && Trim(name)[d] == '.' ==>
               exists k :: 0 <= k < d && !IsDigit(Trim(name)[k])
    ensures NormAuthor(name) == Trim(name)
  {
    var n := Trim(name);
    assert NumberingEnd(n) == 0;
    assert n[0..] == n;
    TrimIdempotent(name);
  }

  /**
   * A name whose trimmed text starts with digits and a `.` loses them, the `.`
   * and the spaces after it, and what is left is trimmed.
   */
  lemma NormAuthorStripsNumbering(name: string, d: nat)
    requires 0 < d < |Trim(name)| && Trim(name)[d] == '.'
    requires forall k :: 0 <= k < d ==> IsDigit(Trim(name)[k])
    ensures NormAuthor(name) == Trim(Trim(name)[SpaceEnd(Trim(name), d + 1)..])
  {
    RunEndAt(Trim(name), 0, d, IsDigit);
  }

  /** `"12. SILVA, J."` becomes `"SILVA, J."`. */
  lemma NormAuthorSample()
    ensures NormAuthor("12. SILVA, J.") == "SILVA, J."
  {
    NumberedTrimmed();
    var s := "12. SILVA, J.";
    assert RunEnd(s, 0, IsDigit) == 2 by {
      RunEndAt(s, 0, 2, IsDigit);
    }
    assert SpaceEnd(s, 3) == 4;
    NameTrimmed();
  }

  lemma NumberedTrimmed()
    ensures Trim("12. SILVA, J.") == "12. SILVA, J."
  {
    var s := "12. SILVA, J.";
    assert TrimLo(s) == 0;
    assert TrimHi(s) == |s|;
  }

  lemma NameTrimmed()
    ensures "12. SILVA, J."[4..] == "SILVA, J."
    ensures Trim("SILVA, J.") == "SILVA, J."
  {
    var t := "SILVA, J.";
    assert TrimLo(t) == 0;
    assert TrimHi(t) == |t|;
  }

  /** A piece is a valid author name. */
  predicate ValidName(a: string)
  {
    |a| > 2 && Contains(a, ",")
  }

  /** `.map(normalizarNomeAutor)`. */
  function Normalised(pieces: seq<string>): (r: seq<string>)
    ensures |r| == |pieces| && forall k :: 0 <= k < |pieces| ==> r[k] == NormAuthor(pieces[k])
  {
    seq(|pieces|, k requires 0 <= k < |pieces| => NormAuthor(pieces[k]))
  }

  /** `.filter(a => a.length > 2 && a.includes(','))`. */
  function KeepValid(names: seq<string>): (r: seq<string>)
    ensures |r| <= |names|
    ensures forall k :: 0 <= k < |r| ==> ValidName(r[k])
  {
    if names == [] then []
    else (if ValidName(names[0]) then [names[0]] else []) + KeepValid(names[1..])
  }

  /** A name is kept exactly when it is one of the names and is valid. */
  lemma {:induction false} KeepValidExactly(names: seq<string>, x: string)
    ensures x in KeepValid(names) <==> x in names && ValidName(x)
  {
    if names != [] {
      KeepValidExactly(names[1..], x);
      var head := if ValidName(names[0]) then [names[0]] else [];
      assert KeepValid(names) == head + KeepValid(names[1..]);
      assert names == [names[0]] + names[1..];
    } else {
      assert KeepValid(names) == [];
    }
  }

  /** The entry on one line: `.replace(/\r?\n/g, ' ').replace(/\s+/g, ' ').trim()`. */
  function AuthorLine(entrada: string): string
  {
    Trim(Collapse(entrada))
  }

  /** `extrairAutoresDaEntrada`. */
  function AuthorsOf(entrada: string): (r: seq<string>)
    ensures entrada == [] ==> r == []
    ensures forall k :: 0 <= k < |r| ==> ValidName(r[k])
  {
    if entrada == [] then []
    else
      var parts := SplitOn(AuthorLine(entrada), " . ");
      if |parts| < 2 then [] else KeepValid(Normalised(SplitOn(parts[0], ";")))
  }

  /** Where the first `" . "` of the line is. */
  function FirstSeparator(line: string): Option<nat>
  {
    FirstFrom(0, |line|, (k: nat) => LitAt(line, k, " . "))
  }

  /** An entry whose line has no `" . "` has no authors. */
  lemma NoSeparatorNoAuthors(entrada: string)
    requires FirstSeparator(AuthorLine(entrada)).None?
    ensures AuthorsOf(entrada) == []
  {
    if entrada != [] {
      SplitFromHead(AuthorLine(entrada), " . ", 0, 0);
    }
  }

  /** Otherwise the authors are the valid `;`-pieces of the text before the first `" . "`. */
  lemma AuthorsBeforeSeparator(entrada: string)
    requires entrada != [] && FirstSeparator(AuthorLine(entrada)).Some?
    ensures var line := AuthorLine(entrada);
            AuthorsOf(entrada) == KeepValid(Normalised(SplitOn(line[..FirstSeparator(line).value], ";")))
  {
    SplitFromHead(AuthorLine(entrada), " . ", 0, 0);
  }
}
