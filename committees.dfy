/**
 * `contarBancas` (extractor.js): how many examining committees a profile lists,
 * per kind. Inside the `Bancas` section each kind has a sub-section of its own,
 * and the entries of a sub-section are its numbering lines, `1.`, `2.`, ...,
 * each alone on its line.
 */
module Committees {
  import opened Wrappers
  import opened Text
  import opened Segments
  import opened Sections

  const Heads: seq<string> := ["Bancas"]
  const Stops: seq<string> := ["Eventos", "Orientações", "Página gerada"]

  /** The four kinds of committee, in the order the source counts them. */
  datatype Kind = Undergraduate | Masters | Doctorate | Qualifying

  /** The headings that open a sub-section, and what ends it. */
  datatype Labels = Labels(heads: seq<string>, stops: seq<string>)

  /**
   * The labels of each kind: its own heading, and as stops the other kinds'
   * headings or two blank lines.
   */
  function SubLabels(k: Kind): (r: Labels)
    ensures |r.heads| >= 1 && forall h :: h in r.heads ==> |h| >= 13
    ensures "\n\n\n" in r.stops
  {
    match k
    case Undergraduate =>
      Labels(["Trabalhos de conclusão de curso de graduação"],
             ["Dissertações de mestrado", "Teses de doutorado", "Qualificações", "Exames de qualificação", "\n\n\n"])
    case Masters =>
      Labels(["Dissertações de mestrado"],
             ["Teses de doutorado", "Qualificações", "Exames de qualificação", "Trabalhos de conclusão", "\n\n\n"])
    case Doctorate =>
      Labels(["Teses de doutorado"],
             ["Qualificações", "Exames de qualificação", "Trabalhos de conclusão", "Dissertações", "\n\n\n"])
    case Qualifying =>
      Labels(["Qualificações", "Exames de qualificação"],
             ["Trabalhos de conclusão", "Dissertações", "Teses", "\n\n\n"])
  }

  /** The result object of `contarBancas`. */
  datatype Counts = Counts(total: nat, undergraduate: nat, masters: nat, doctorate: nat, qualifying: nat)

  const NoCounts := Counts(0, 0, 0, 0, 0)

  /** `s.match(/^\d+\.\s*$/gm)`: the length of the match array, 0 for `null`. */
  function NumberingLines(s: string): nat
  {
    |NumberScan(s, 0, false)|
  }

  /** The count of one kind inside the section's content `c`: 0 without its sub-section. */
  function CountOf(c: string, l: Labels): nat
  {
    match SectionText(c, l.heads, l.stops)
    case None => 0
    case Some(sub) => NumberingLines(sub)
  }

  /** The counts of the four kinds in the section's content `c`, each under its `labels`, and their sum. */
  function CountsIn(c: string, labels: Kind -> Labels): (r: Counts)
    ensures r.total == r.undergraduate + r.masters + r.doctorate + r.qualifying
  {
    var u := CountOf(c, labels(Undergraduate));
    var m := CountOf(c, labels(Masters));
    var d := CountOf(c, labels(Doctorate));
    var q := CountOf(c, labels(Qualifying));
    Counts(u + m + d + q, u, m, d, q)
  }

  /** `contarBancas(texto)`. */
  function CommitteesOf(t: string): (r: Counts)
    ensures r.total == r.undergraduate + r.masters + r.doctorate + r.qualifying
  {
    match SectionText(t, Heads, Stops)
    case None => NoCounts
    case Some(c) => CountsIn(c, SubLabels)
  }

  /** The count of a kind, read off the result. */
  function Field(r: Counts, k: Kind): nat
  {
    match k
    case Undergraduate => r.undergraduate
    case Masters => r.masters
    case Doctorate => r.doctorate
    case Qualifying => r.qualifying
  }

  // -------------------------------------------------------------- properties

  /** A count is zero exactly when its sub-section is missing or has no numbering line. */
  lemma CountZero(c: string, l: Labels)
    ensures CountOf(c, l) == 0 <==>
      SectionText(c, l.heads, l.stops).None? ||
      forall q :: 0 <= q < |SectionText(c, l.heads, l.stops).value| ==>
        NumberLineEnd(SectionText(c, l.heads, l.stops).value, q, false).None?
  {
    var sub := SectionText(c, l.heads, l.stops);
    if sub.Some? {
      NumberScanEmpty(sub.value, 0, false);
    }
  }

  /** Each field of the result is the count of its kind in the `Bancas` content. */
  lemma CommitteesFields(t: string, k: Kind)
    ensures var r := CommitteesOf(t);
            Field(r, k) == (match SectionText(t, Heads, Stops) case None => 0 case Some(c) => CountOf(c, SubLabels(k)))
  {
  }

  /** Without a `Bancas` section every count, and so the total, is zero. */
  lemma NoSectionNoCommittees(t: string)
    requires forall p :: 0 <= p <= |t| ==> !CiAtAny(t, p, Heads)
    ensures CommitteesOf(t) == NoCounts
  {
  }

  // ------------------------------------------------------------------ method

  /** The count of one kind, as each `if (x) { ... resultado.x = matches ? matches.length : 0 }` sets it. */
  method CountKind(c: string, l: Labels) returns (n: nat)
    ensures n == CountOf(c, l)
  {
    n := 0;
    var sub := SectionText(c, l.heads, l.stops);
    if sub.Some? {
      var matches := FindNumberLines(sub.value, false);
      n := |matches|;
    }
  }

  /** `contarBancas` as the source runs it. */
  method CountCommittees(t: string) returns (r: Counts)
    ensures r == CommitteesOf(t)
  {
    r := NoCounts;
    var section := SectionText(t, Heads, Stops);
    if section.None? {
      return;
    }
    r := CountIn(section.value, SubLabels);
  }

  /** The four counts set one by one, the total last. */
  method CountIn(c: string, labels: Kind -> Labels) returns (r: Counts)
    ensures r == CountsIn(c, labels)
  {
    r := NoCounts;
    var u := CountKind(c, labels(Undergraduate));
    r := r.(undergraduate := u);
    var m := CountKind(c, labels(Masters));
    r := r.(masters := m);
    var d := CountKind(c, labels(Doctorate));
    r := r.(doctorate := d);
    var q := CountKind(c, labels(Qualifying));
    r := r.(qualifying := q);
    r := r.(total := r.undergraduate + r.masters + r.doctorate + r.qualifying);
  }
}
