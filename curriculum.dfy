/**
 * `analisarCurriculo` (extractor.js): the record the app keeps for one
 * curriculum, each field filled by one extractor over the same text and, for
 * the articles and the collaborations, the same window of years.
 */
module Curriculum {
  import opened Wrappers
  import opened Text
  import Person
  import Articles
  import Institution
  import Degrees
  import Areas
  import Languages
  import Committees
  import Collaborations
  import Dedup

  /**
   * The result object of `analisarCurriculo`. The committee counts are optional
   * because the summaries and the export treat a record without them as `0`.
   */
  datatype Profile = Profile(
    name: string,
    articles: nat,
    titles: seq<string>,
    institution: string,
    nationality: string,
    degrees: seq<Degrees.Degree>,
    areas: Areas.AreaLists,
    languages: seq<string>,
    committees: Option<Committees.Counts>,
    collaborations: seq<Collaborations.Collab>)

  /** `analisarCurriculo(texto, anoInicio, anoFim)`. */
  function ProfileOf(t: string, lo: int, hi: int): Profile
  {
    var articles := Articles.ArticlesOf(t, lo, hi);
    Profile(
      Person.NameOf(t),
      articles.count,
      articles.titles,
      Institution.InstitutionOf(t),
      Person.NationalityOf(t),
      Degrees.FormationOf(t),
      Areas.AreasOf(t),
      Languages.LanguagesOf(t),
      Some(Committees.CommitteesOf(t)),
      Collaborations.CollaborationsOf(t, lo, hi))
  }

  /**
   * What the record promises to the summaries: the article count is the number
   * of titles, the institution is known and plausible or `Não informado`, the
   * committee total is the sum of its kinds, and the languages are known ones
   * listed once each.
   */
  lemma ProfileShape(t: string, lo: int, hi: int)
    ensures var p := ProfileOf(t, lo, hi);
            && p.articles == |p.titles|
            && Trimmed(p.name) && Trimmed(p.nationality)
            && (p.institution == Institution.NotInformed || (|p.institution| > 5 && Trimmed(p.institution)))
            && p.committees.Some?
            && p.committees.value.total ==
                 p.committees.value.undergraduate + p.committees.value.masters +
                 p.committees.value.doctorate + p.committees.value.qualifying
            && (forall x :: x in p.languages ==> x in Languages.Known)
            && Dedup.Distinct(p.languages)
  {
    Languages.LanguagesOfExactly(t);
  }

  /** `analisarCurriculo` as the source runs it: one extractor after the other. */
  method AnalyseProfile(t: string, lo: int, hi: int) returns (p: Profile)
    ensures p == ProfileOf(t, lo, hi)
  {
    var name := Person.NameOf(t);
    var articles := Articles.ExtractArticles(t, lo, hi);
    var institution := Institution.ExtractInstitution(t);
    var nationality := Person.NationalityOf(t);
    var degrees := Degrees.ExtractFormation(t);
    var areas := Areas.ExtractAreas(t);
    var languages := Languages.ExtractLanguages(t);
    var committees := Committees.CountCommittees(t);
    var collaborations := Collaborations.ExtractCollaborations(t, lo, hi);
    p := Profile(name, articles.count, articles.titles, institution, nationality,
                 degrees, areas, languages, Some(committees), collaborations);
  }
}
