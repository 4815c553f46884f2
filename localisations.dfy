/** The tab labels of the course pages the script recognises, per page language. */
module Localisations {

  datatype Localisation = Localisation(lvaRegistration: string, groups: string, exams: string)

  const English := Localisation("Course registration", "Groups", "Exams")
  const German := Localisation("LVA-Anmeldung", "Gruppen", "Prüfungen")

  /** The two-letter language prefixes that have a table of their own. */
  predicate HasTable(prefix: string) {
    prefix == "en" || prefix == "de"
  }

  /**
   * The table chosen for the browser language `language`: whether or not its
   * two-letter prefix has a table, the German one is taken.
   */
  function LocalisationFor(language: string): (l: Localisation)
    ensures l == German
  {
    var prefix := if |language| >= 2 then language[..2] else language;
    if !HasTable(prefix) then German else German
  }

  /** The three labels of a table are pairwise different, so a tab text matches at most one of them. */
  lemma GermanLabelsDistinct()
    ensures German.lvaRegistration != German.groups
    ensures German.lvaRegistration != German.exams
    ensures German.groups != German.exams
  {
  }
}
