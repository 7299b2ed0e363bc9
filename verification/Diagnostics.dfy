/** Diagnostics, as the engine and its handler see them. */
module Diagnostics {

  type Thread = nat

  /** The stages of the compilation, from the lexer to whatever comes last. */
  const CATEGORIES := 10
  const LEX := 0
  const PARSE := 1
  const PARSE_QUERY := 2
  const CHIR := 8

  type Category = c: int | 0 <= c < CATEGORIES

  datatype Severity = DS_ERROR | DS_WARNING | DS_NOTE | DS_HINT

  /** File, line and column. */
  type Place = (int, int, int)

  /** Warning groups that the engine knows by name. */
  const UNGROUPED := 0
  const UNUSED_MAIN := 1

  /** The line and column of places that are nowhere. */
  const DEFAULT := (-1, -1)

  function LineAndColumn(p: Place): (int, int) {
    (p.1, p.2)
  }

  /** `note` tells whether a note on how to suppress a diagnostic was added. */
  datatype Diagnostic = Diagnostic(category: Category, severity: Severity, warnGroup: nat, isUnusedMain: bool, note: bool,
                                   begin: Place, end: Place, message: string)
  {
    predicate IsDefaultRange() {
      LineAndColumn(begin) == DEFAULT && LineAndColumn(end) == DEFAULT
    }
  }

  /** What previous diagnostics are known by. */
  datatype Reported = Reported(begin: Place, message: string)

  function ReportedAs(d: Diagnostic): Reported {
    Reported(d.begin, d.message)
  }

  /** What saved diagnostics are known by; the file of the end is not looked at. */
  datatype Saved = Saved(category: Category, begin: Place, end: (int, int), severity: Severity)

  function SavedAs(d: Diagnostic): Saved {
    Saved(d.category, d.begin, LineAndColumn(d.end), d.severity)
  }

  predicate IsSaved(d: Diagnostic) {
    !d.IsDefaultRange() && d.category != PARSE_QUERY
  }

  predicate Repeats(prevDiags: set<Reported>, diagnostics: set<Saved>, d: Diagnostic) {
    ReportedAs(d) in prevDiags || (IsSaved(d) && SavedAs(d) in diagnostics)
  }

  /** Two diagnostics at one range repeat each other exactly if they agree in category and severity. */
  lemma SameRangeIff(a: Diagnostic, b: Diagnostic)
    requires IsSaved(a) && IsSaved(b) && a.begin == b.begin && a.end == b.end && a.message != b.message
    ensures Repeats({ReportedAs(a)}, {SavedAs(a)}, b) <==> a.category == b.category && a.severity == b.severity
  {
  }

  function SavedAlone(d: Diagnostic): set<Saved> {
    if IsSaved(d) then {SavedAs(d)} else {}
  }

  /**
   A diagnostic repeats another one exactly if they agree in begin and message, or in category, severity, begin and the line and
   column of the end. The latter counts only with a range, and not for queries.
   */
  lemma RepeatsIff(a: Diagnostic, b: Diagnostic)
    ensures Repeats({ReportedAs(a)}, SavedAlone(a), b) <==>
            || (a.begin == b.begin && a.message == b.message)
            || (a.category == b.category != PARSE_QUERY && a.severity == b.severity && a.begin == b.begin
                && a.end.1 == b.end.1 && a.end.2 == b.end.2
                && !(a.begin.1 == a.begin.2 == a.end.1 == a.end.2 == -1))
  {
  }
}
