/**
 How the compiler counts its diagnostics, by the stage of the compilation they come from, and how the first stage with an
 error keeps the later ones quiet. Counting an error takes three critical sections and a reset takes two, between which other
 threads run.
 */
module DiagnosticCounts {
  import opened Diagnostics
  import opened Wrappers

  /** A counter for every category. */
  type Counts = s: seq<nat> | |s| == CATEGORIES witness [0, 0, 0, 0, 0, 0, 0, 0, 0, 0]

  const NONE_COUNTED: Counts := [0, 0, 0, 0, 0, 0, 0, 0, 0, 0]

  function Sum(s: seq<nat>): nat {
    if s == [] then 0 else Sum(s[..|s| - 1]) + s[|s| - 1]
  }

  lemma {:induction false} SumUpdate(s: seq<nat>, i: nat, v: nat)
    requires i < |s|
    ensures Sum(s[i := v]) + s[i] == Sum(s) + v
  {
    if i == |s| - 1 {
      assert s[i := v][..|s| - 1] == s[..|s| - 1];
    } else {
      assert s[i := v][..|s| - 1] == s[..|s| - 1][i := v];
      SumUpdate(s[..|s| - 1], i, v);
    }
  }

  lemma {:induction false} SumZero(s: seq<nat>)
    ensures Sum(s) == 0 <==> forall i :: 0 <= i < |s| ==> s[i] == 0
  {
    if s != [] {
      SumZero(s[..|s| - 1]);
    }
  }

  /** How far a thread has come with counting an error, or with a reset. */
  datatype Stage = Allowed(category: Category) | Ordered(category: Category) | Counted(category: Category) | Resetting

  datatype State = State(firstErrorCategory: Option<Category>, errors: Counts, warnings: Counts,
                         errorCount: nat, warningCount: nat, stages: map<Thread, Stage>)

  const START := State(None, NONE_COUNTED, NONE_COUNTED, 0, 0, map[])

  predicate CanBeEmitted(s: State, category: Category) {
    s.firstErrorCategory.None? || category <= s.firstErrorCategory.value
  }

  datatype Step =
    | Check(thread: Thread, category: Category)
    | OrderFirst(thread: Thread)
    | CountCategory(thread: Thread)
    | CountAll(thread: Thread)
    | CountWarning(thread: Thread, category: Category)
    | ResetCounts(thread: Thread)
    | ResetFirst(thread: Thread)

  predicate Legal(s: State, step: Step) {
    match step
    case Check(t, _) => t !in s.stages
    case OrderFirst(t) => t in s.stages && s.stages[t].Allowed?
    case CountCategory(t) => t in s.stages && s.stages[t].Ordered?
    case CountAll(t) => t in s.stages && s.stages[t].Counted?
    case CountWarning(t, _) => t !in s.stages
    case ResetCounts(t) => t !in s.stages
    case ResetFirst(t) => t in s.stages && s.stages[t].Resetting?
  }

  function Next(s: State, step: Step): State
    requires Legal(s, step)
  {
    match step
    case Check(t, c) => if CanBeEmitted(s, c) then s.(stages := s.stages[t := Allowed(c)]) else s
    case OrderFirst(t) =>
      var c := s.stages[t].category;
      s.(firstErrorCategory := if CanBeEmitted(s, c) then Some(c) else s.firstErrorCategory, stages := s.stages[t := Ordered(c)])
    case CountCategory(t) =>
      var c := s.stages[t].category;
      s.(errors := s.errors[c := s.errors[c] + 1], stages := s.stages[t := Counted(c)])
    case CountAll(t) => s.(errorCount := s.errorCount + 1, stages := s.stages - {t})
    case CountWarning(t, c) => s.(warnings := s.warnings[c := s.warnings[c] + 1], warningCount := s.warningCount + 1)
    case ResetCounts(t) =>
      s.(errors := NONE_COUNTED, warnings := NONE_COUNTED, errorCount := 0, warningCount := 0, stages := s.stages[t := Resetting])
    case ResetFirst(t) => s.(firstErrorCategory := None, stages := s.stages - {t})
  }

  /** An error of the category was counted, or is in the middle of it. */
  predicate Seen(s: State, c: Category) {
    s.errors[c] > 0 || exists t :: t in s.stages && s.stages[t] == Ordered(c)
  }

  function InCounting(s: State): set<Thread> {
    set t | t in s.stages && s.stages[t].Counted?
  }

  /** Totals lag behind by the errors in counting. */
  predicate Balanced(s: State) {
    Sum(s.errors) == s.errorCount + |InCounting(s)| && Sum(s.warnings) == s.warningCount
  }

  /** What holds at every moment outside of resets: the first category is the least one seen, and the totals are right. */
  ghost predicate Consistent(s: State) {
    && (s.firstErrorCategory.None? ==> forall c: Category :: !Seen(s, c))
    && (s.firstErrorCategory.Some? ==>
          && Seen(s, s.firstErrorCategory.value)
          && forall c: Category :: Seen(s, c) ==> s.firstErrorCategory.value <= c)
    && Balanced(s)
  }

  lemma StartIsConsistent()
    ensures Consistent(START)
  {
    SumZero(NONE_COUNTED);
    assert InCounting(START) == {};
  }

  lemma SeenNext(s: State, step: Step, c: Category)
    requires Legal(s, step) && !step.ResetCounts?
    ensures Seen(Next(s, step), c) <==> Seen(s, c) || (step.OrderFirst? && s.stages[step.thread].category == c)
  {
    var after := Next(s, step);
    if t :| t in s.stages && s.stages[t] == Ordered(c) {
      if step.CountCategory? && step.thread == t {
        assert after.errors[c] > 0;
      } else {
        assert after.stages[t] == Ordered(c);
      }
    }
    if step.OrderFirst? && s.stages[step.thread].category == c {
      assert after.stages[step.thread] == Ordered(c);
    }
    if t :| t in after.stages && after.stages[t] == Ordered(c) {
      if !(step.OrderFirst? && step.thread == t) {
        assert s.stages[t] == Ordered(c);
      }
    }
  }

  lemma InCountingNext(s: State, step: Step)
    requires Legal(s, step)
    ensures InCounting(Next(s, step)) ==
              if step.CountCategory? then InCounting(s) + {step.thread}
              else if step.CountAll? then InCounting(s) - {step.thread} else InCounting(s)
    ensures step.CountCategory? ==> step.thread !in InCounting(s)
    ensures step.CountAll? ==> step.thread in InCounting(s)
  {
  }

  lemma BalancedNext(s: State, step: Step)
    requires Legal(s, step) && !step.ResetCounts?
    ensures Balanced(Next(s, step)) <==> Balanced(s)
  {
    hide Sum, InCounting;
    InCountingNext(s, step);
    if step.CountCategory? {
      var c := s.stages[step.thread].category;
      SumUpdate(s.errors, c, s.errors[c] + 1);
    } else if step.CountWarning? {
      SumUpdate(s.warnings, step.category, s.warnings[step.category] + 1);
    }
  }

  /** Every step of counting keeps the counters consistent, whoever else is in the middle of counting. */
  lemma StepKeepsConsistent(s: State, step: Step)
    requires Consistent(s) && Legal(s, step) && !step.ResetCounts? && !step.ResetFirst?
    ensures Consistent(Next(s, step))
  {
    hide Seen, Balanced;
    BalancedNext(s, step);
    forall c: Category
      ensures Seen(Next(s, step), c) <==> Seen(s, c) || (step.OrderFirst? && s.stages[step.thread].category == c)
    {
      SeenNext(s, step, c);
    }
  }

  /** No thread is between the critical sections of counting an error. */
  predicate NobodyCounting(s: State) {
    forall t :: t in s.stages ==> s.stages[t].Allowed? || s.stages[t].Resetting?
  }

  predicate SomebodyResetting(s: State) {
    exists t :: t in s.stages && s.stages[t].Resetting?
  }

  /** Between the sections of a reset nothing is counted, and nobody is about to. */
  predicate Cleared(s: State) {
    NobodyCounting(s) && s.errors == NONE_COUNTED && s.errorCount == 0 && Balanced(s)
  }

  lemma NothingCounting(s: State)
    requires NobodyCounting(s)
    ensures InCounting(s) == {} && forall c: Category :: Seen(s, c) <==> s.errors[c] > 0
  {
  }

  /** The first section of a reset clears the counters exactly if nobody is in the middle of counting an error. */
  lemma FirstSectionIff(s: State, t: Thread)
    requires Legal(s, ResetCounts(t))
    ensures Cleared(Next(s, ResetCounts(t))) <==> NobodyCounting(s)
  {
    var after := Next(s, ResetCounts(t));
    SumZero(NONE_COUNTED);
    if NobodyCounting(s) {
      NothingCounting(after);
    } else {
      var u :| u in s.stages && !s.stages[u].Allowed? && !s.stages[u].Resetting?;
      assert after.stages[u] == s.stages[u];
    }
  }

  /** The second section leaves the counters consistent exactly if no error was counted by then, and none is being counted. */
  lemma SecondSectionIff(s: State, t: Thread)
    requires Legal(s, ResetFirst(t)) && Balanced(s)
    ensures Consistent(Next(s, ResetFirst(t))) <==> NobodyCounting(s) && s.errorCount == 0
  {
    var after := Next(s, ResetFirst(t));
    BalancedNext(s, ResetFirst(t));
    SumZero(s.errors);
    forall c: Category
      ensures Seen(after, c) <==> Seen(s, c)
    {
      SeenNext(s, ResetFirst(t), c);
    }
    if NobodyCounting(s) {
      NothingCounting(s);
    }
    if Consistent(after) && !NobodyCounting(s) {
      NotSeen(s);
    }
  }

  /** Where no error is seen, none is ordered; where the totals are right, none is half counted. */
  lemma NotSeen(s: State)
    requires Balanced(s) && forall c: Category :: !Seen(s, c)
    ensures NobodyCounting(s)
  {
    SumZero(s.errors);
    forall c: Category
      ensures s.errors[c] == 0
    {
      assert !Seen(s, c);
    }
    assert InCounting(s) == {};
    forall t | t in s.stages
      ensures s.stages[t].Allowed? || s.stages[t].Resetting?
    {
      if s.stages[t].Ordered? {
        assert Seen(s, s.stages[t].category);
      } else {
        assert t !in InCounting(s);
      }
    }
  }

  /** Some steps, if all are legal. */
  function Through(s: State, steps: seq<Step>): Option<State>
    decreases |steps|
  {
    if steps == [] then Some(s)
    else
      var before := Through(s, steps[..|steps| - 1]);
      var step := steps[|steps| - 1];
      if before.Some? && Legal(before.value, step) then Some(Next(before.value, step)) else None
  }

  predicate NoReset(steps: seq<Step>) {
    forall i :: 0 <= i < |steps| ==> !steps[i].ResetCounts? && !steps[i].ResetFirst?
  }

  predicate NoOrdering(steps: seq<Step>) {
    forall i :: 0 <= i < |steps| ==> !steps[i].OrderFirst?
  }

  /** What other threads do between the sections of a reset shows: an error that is ordered stays seen. */
  lemma {:induction false} BetweenSections(s: State, t: Thread, steps: seq<Step>)
    requires t in s.stages && s.stages[t].Resetting? && s.errorCount == 0
    requires NoReset(steps) && Through(s, steps).Some?
    ensures var after := Through(s, steps).value;
            && t in after.stages && after.stages[t].Resetting? && (Balanced(after) <==> Balanced(s))
            && (NobodyCounting(s) && NoOrdering(steps) ==> NobodyCounting(after) && after.errorCount == 0)
            && ((exists c: Category :: Seen(s, c)) || !NoOrdering(steps) ==> exists c: Category :: Seen(after, c))
    decreases |steps|
  {
    hide Balanced, Seen;
    if steps != [] {
      var front, step := steps[..|steps| - 1], steps[|steps| - 1];
      BetweenSections(s, t, front);
      var before := Through(s, front).value;
      var after := Through(s, steps).value;
      BalancedNext(before, step);
      forall c: Category
        ensures Seen(after, c) <==> Seen(before, c) || (step.OrderFirst? && before.stages[step.thread].category == c)
      {
        SeenNext(before, step, c);
      }
      assert NoOrdering(steps) <==> NoOrdering(front) && !step.OrderFirst?;
      if c: Category :| Seen(before, c) {
        assert Seen(after, c);
      }
      if step.OrderFirst? {
        assert Seen(after, before.stages[step.thread].category);
      }
    }
  }

  /**
   A reset leaves the counters consistent exactly if no thread is in the middle of counting an error at its first section and
   none comes to order an error before its second one. Errors that are only allowed, and warnings, do not disturb it.
   */
  lemma ResetKeepsIff(s: State, t: Thread, between: seq<Step>)
    requires Legal(s, ResetCounts(t)) && NoReset(between) && Through(Next(s, ResetCounts(t)), between).Some?
    requires Legal(Through(Next(s, ResetCounts(t)), between).value, ResetFirst(t))
    ensures Consistent(Next(Through(Next(s, ResetCounts(t)), between).value, ResetFirst(t)))
            <==> NobodyCounting(s) && NoOrdering(between)
  {
    var first := Next(s, ResetCounts(t));
    var second := Through(first, between).value;
    BetweenSections(first, t, between);
    FirstSectionIff(s, t);
    BalancedNext(second, ResetFirst(t));
    if Balanced(second) {
      SecondSectionIff(second, t);
      if NobodyCounting(second) && second.errorCount == 0 {
        QuietlySeen(second);
        if !NobodyCounting(first) {
          NotSeen(first);
        }
      }
    }
  }

  lemma QuietlySeen(s: State)
    requires Balanced(s) && NobodyCounting(s) && s.errorCount == 0
    ensures forall c: Category :: !Seen(s, c)
  {
    NothingCounting(s);
    SumZero(s.errors);
  }

  lemma ThroughNext(s: State, steps: seq<Step>, k: nat)
    requires k < |steps| && Through(s, steps[..k]).Some? && Legal(Through(s, steps[..k]).value, steps[k])
    ensures Through(s, steps[..k + 1]) == Some(Next(Through(s, steps[..k]).value, steps[k]))
  {
    assert steps[..k + 1][..k] == steps[..k];
  }

  /** An error that was ordered before a reset is counted after it. */
  lemma ResetBeforeCounting(c: Category)
    ensures var run := [Check(0, c), OrderFirst(0), ResetCounts(1), ResetFirst(1), CountCategory(0), CountAll(0)];
            Through(START, run).Some? && OneErrorWithoutCategory(Through(START, run).value)
  {
    hide Through, Consistent;
    var run := [Check(0, c), OrderFirst(0), ResetCounts(1), ResetFirst(1), CountCategory(0), CountAll(0)];
    NoSteps(START, run);
    ThroughNext(START, run, 0);
    ThroughNext(START, run, 1);
    ThroughNext(START, run, 2);
    ThroughNext(START, run, 3);
    ThroughNext(START, run, 4);
    ThroughNext(START, run, 5);
    OneErrorAlone(Through(START, run[..6]).value, c);
  }

  /** An error is counted between the sections of a reset. */
  lemma CountingDuringReset(c: Category)
    ensures var run := [ResetCounts(1), Check(0, c), OrderFirst(0), CountCategory(0), CountAll(0), ResetFirst(1)];
            Through(START, run).Some? && OneErrorWithoutCategory(Through(START, run).value)
  {
    hide Through, Consistent;
    var run := [ResetCounts(1), Check(0, c), OrderFirst(0), CountCategory(0), CountAll(0), ResetFirst(1)];
    NoSteps(START, run);
    ThroughNext(START, run, 0);
    ThroughNext(START, run, 1);
    ThroughNext(START, run, 2);
    ThroughNext(START, run, 3);
    ThroughNext(START, run, 4);
    ThroughNext(START, run, 5);
    OneErrorAlone(Through(START, run[..6]).value, c);
  }

  lemma NoSteps(s: State, steps: seq<Step>)
    ensures Through(s, steps[..0]) == Some(s) && steps[..|steps|] == steps
  {
  }

  lemma OneErrorAlone(s: State, c: Category)
    requires s.errors[c] == 1 && s.firstErrorCategory == None
    ensures !Consistent(s)
  {
    assert Seen(s, c);
  }

  /** All is quiet and an error was counted, but no category is the first. */
  ghost predicate OneErrorWithoutCategory(s: State) {
    s.stages == map[] && s.errorCount == 1 && s.firstErrorCategory == None && !Consistent(s)
  }

  /** The state after a run, if every step was legal and resets were left to moments when nobody counts. */
  function After(steps: seq<Step>): Option<State>
    decreases |steps|
  {
    if steps == [] then Some(START)
    else
      var before := After(steps[..|steps| - 1]);
      var step := steps[|steps| - 1];
      if before.Some? && Legal(before.value, step) && Apart(before.value, step) then Some(Next(before.value, step)) else None
  }

  /** A reset begins when nobody is counting an error, and nobody begins to count one before it ends. */
  predicate Apart(s: State, step: Step) {
    match step
    case ResetCounts(_) => NobodyCounting(s)
    case OrderFirst(_) => !SomebodyResetting(s)
    case _ => true
  }

  lemma {:induction false} RunsAreConsistent(steps: seq<Step>)
    requires After(steps).Some?
    ensures if SomebodyResetting(After(steps).value) then Cleared(After(steps).value) else Consistent(After(steps).value)
    decreases |steps|
  {
    if steps == [] {
      StartIsConsistent();
    } else {
      RunsAreConsistent(steps[..|steps| - 1]);
      RunStep(After(steps[..|steps| - 1]).value, steps[|steps| - 1]);
    }
  }

  lemma RunStep(s: State, step: Step)
    requires if SomebodyResetting(s) then Cleared(s) else Consistent(s)
    requires Legal(s, step) && Apart(s, step)
    ensures var after := Next(s, step); if SomebodyResetting(after) then Cleared(after) else Consistent(after)
  {
    var after := Next(s, step);
    if step.ResetCounts? {
      assert after.stages[step.thread].Resetting?;
      FirstSectionIff(s, step.thread);
    } else if SomebodyResetting(s) {
      hide Balanced;
      BalancedNext(s, step);
      assert Cleared(after);
      if step.ResetFirst? {
        SecondSectionIff(s, step.thread);
      } else {
        var t :| t in s.stages && s.stages[t].Resetting?;
        assert after.stages[t].Resetting?;
      }
    } else {
      StepKeepsConsistent(s, step);
      assert !SomebodyResetting(after);
    }
  }

  /** When all is quiet, the first category is the least one with an error, and the counters add up to the totals. */
  lemma QuietCounts(steps: seq<Step>)
    requires After(steps).Some? && After(steps).value.stages == map[]
    ensures var s := After(steps).value;
            && Sum(s.errors) == s.errorCount && Sum(s.warnings) == s.warningCount
            && (s.firstErrorCategory.None? <==> s.errorCount == 0)
            && (s.firstErrorCategory.Some? ==>
                  && s.errors[s.firstErrorCategory.value] > 0
                  && forall c: Category :: c < s.firstErrorCategory.value ==> s.errors[c] == 0)
  {
    var s := After(steps).value;
    RunsAreConsistent(steps);
    assert InCounting(s) == {};
    SumZero(s.errors);
    forall c: Category
      ensures Seen(s, c) <==> s.errors[c] > 0
    {
    }
  }

  /** Forgetting the total alone is consistent exactly if it was 0. */
  lemma ClearErrorKeepsIff(s: State)
    requires Consistent(s)
    ensures Consistent(s.(errorCount := 0)) <==> s.errorCount == 0
  {
    assert InCounting(s.(errorCount := 0)) == InCounting(s);
    forall c: Category
      ensures Seen(s.(errorCount := 0), c) <==> Seen(s, c)
    {
    }
  }

  /** The stages that run in parallel are printed later. */
  predicate PrintedAtOnce(category: Category) {
    category != LEX && category != PARSE && category != CHIR
  }

  function WithError(s: State, c: Category): State {
    s.(firstErrorCategory := if CanBeEmitted(s, c) then Some(c) else s.firstErrorCategory,
       errors := s.errors[c := s.errors[c] + 1], errorCount := s.errorCount + 1)
  }

  function WithWarning(s: State, c: Category): State {
    s.(warnings := s.warnings[c := s.warnings[c] + 1], warningCount := s.warningCount + 1)
  }

  /** The counters with one more diagnostic; other severities than errors and warnings are not counted. */
  function WithOneMore(s: State, d: Diagnostic): State {
    if d.severity == DS_ERROR then WithError(s, d.category)
    else if d.severity == DS_WARNING then WithWarning(s, d.category)
    else s
  }

  /** How many of these diagnostics are of a severity and a category. */
  function Tally(taken: seq<Diagnostic>, severity: Severity, c: Category): nat {
    if taken == [] then 0
    else
      var d := taken[|taken| - 1];
      Tally(taken[..|taken| - 1], severity, c) + if d.severity == severity && d.category == c then 1 else 0
  }

  /** `first` is the least category of an error among these, if there is one. */
  predicate LeastError(taken: seq<Diagnostic>, first: Option<Category>) {
    match first
    case None => forall i :: 0 <= i < |taken| ==> taken[i].severity != DS_ERROR
    case Some(c) =>
      && (exists i :: 0 <= i < |taken| && taken[i].severity == DS_ERROR && taken[i].category == c)
      && forall i :: 0 <= i < |taken| && taken[i].severity == DS_ERROR ==> c <= taken[i].category
  }

  /** The counters tell of these diagnostics how many errors and warnings there are, by category and in total. */
  ghost predicate Tallies(s: State, taken: seq<Diagnostic>) {
    && (forall c: Category :: s.errors[c] == Tally(taken, DS_ERROR, c) && s.warnings[c] == Tally(taken, DS_WARNING, c))
    && LeastError(taken, s.firstErrorCategory)
  }

  /** No error of an earlier stage was taken before. */
  predicate IsCurrent(taken: seq<Diagnostic>, d: Diagnostic) {
    forall i :: 0 <= i < |taken| && taken[i].severity == DS_ERROR ==> d.category <= taken[i].category
  }

  lemma CurrentIff(s: State, taken: seq<Diagnostic>, d: Diagnostic)
    requires Tallies(s, taken)
    ensures CanBeEmitted(s, d.category) <==> IsCurrent(taken, d)
  {
  }

  lemma TakenNext(s: State, taken: seq<Diagnostic>, d: Diagnostic)
    requires Tallies(s, taken) && IsCurrent(taken, d)
    ensures Tallies(WithOneMore(s, d), taken + [d])
  {
    var more := taken + [d];
    assert more[..|taken|] == taken && more[|taken|] == d;
    CurrentIff(s, taken, d);
    LeastNext(s.firstErrorCategory, taken, d);
  }

  lemma LeastNext(first: Option<Category>, taken: seq<Diagnostic>, d: Diagnostic)
    requires LeastError(taken, first) && IsCurrent(taken, d)
    ensures LeastError(taken + [d], if d.severity == DS_ERROR then Some(d.category) else first)
  {
    var more := taken + [d];
    assert forall i :: 0 <= i < |taken| ==> more[i] == taken[i];
    assert more[|taken|] == d;
    if first.Some? {
      var i :| 0 <= i < |taken| && taken[i].severity == DS_ERROR && taken[i].category == first.value;
      assert more[i] == taken[i];
    }
  }

  lemma NothingTaken()
    ensures Tallies(START, [])
  {
  }

  /** The compiler's handler together with the counters of the engine. */
  class CompilerDiagnosticHandler {
    var prevDiags: set<Reported>
    var diagnostics: set<Saved>
    var firstErrorCategory: Option<Category>
    var errors: Counts
    var warnings: Counts
    var errorCount: nat
    var warningCount: nat
    var errorPrintCount: nat
    var warningPrintCount: nat
    var maxNumOfDiags: Option<nat>
    var isEmitter: bool
    var printed: seq<Diagnostic>
    ghost var taken: seq<Diagnostic> // what was counted, if it counts, since the beginning or the last reset

    constructor (maxNumOfDiags: Option<nat>, isEmitter: bool)
      ensures Counters() == START && Valid() && Tallies(Counters(), taken) && taken == [] && printed == []
      ensures prevDiags == {} && diagnostics == {}
      ensures this.maxNumOfDiags == maxNumOfDiags && this.isEmitter == isEmitter
    {
      prevDiags, diagnostics, firstErrorCategory := {}, {}, None;
      errors, warnings, errorCount, warningCount := NONE_COUNTED, NONE_COUNTED, 0, 0;
      errorPrintCount, warningPrintCount, printed := 0, 0, [];
      this.maxNumOfDiags, this.isEmitter := maxNumOfDiags, isEmitter;
      taken := [];
      new;
      StartIsConsistent();
      NothingTaken();
    }

    ghost function Counters(): State
      reads this
    {
      State(firstErrorCategory, errors, warnings, errorCount, warningCount, map[])
    }

    ghost predicate Valid()
      reads this
    {
      && Consistent(Counters())
      && (maxNumOfDiags.Some? ==> errorPrintCount <= maxNumOfDiags.value)
      && errorPrintCount + warningPrintCount == |printed|
    }

    method IncreaseErrorCount(category: Category)
      requires Valid()
      modifies `firstErrorCategory, `errors, `errorCount
      ensures Valid() && Counters() == WithError(old(Counters()), category)
    {
      hide Consistent;
      CountedSteps(Counters(), category);
      if firstErrorCategory.None? || category < firstErrorCategory.value {
        firstErrorCategory := Some(category);
      }
      errors := errors[category := errors[category] + 1];
      errorCount := errorCount + 1;
    }

    method IncreaseWarningCount(category: Category)
      requires Valid()
      modifies `warnings, `warningCount
      ensures Valid() && Counters() == WithWarning(old(Counters()), category)
    {
      hide Consistent;
      StepKeepsConsistent(Counters(), CountWarning(0, category));
      warnings := warnings[category := warnings[category] + 1];
      warningCount := warningCount + 1;
    }

    method CountIt(d: Diagnostic)
      requires Valid() && CanBeEmitted(Counters(), d.category)
      modifies `firstErrorCategory, `errors, `errorCount, `warnings, `warningCount
      ensures Valid() && Counters() == WithOneMore(old(Counters()), d)
    {
      hide Consistent, WithError, WithWarning;
      if d.severity == DS_ERROR {
        IncreaseErrorCount(d.category);
      }
      if d.severity == DS_WARNING {
        IncreaseWarningCount(d.category);
      }
    }

    predicate MayPrint()
      reads this
    {
      isEmitter && (maxNumOfDiags.None? || errorPrintCount < maxNumOfDiags.value)
    }

    /** Print, unless nothing is to be printed or enough errors were. */
    method EmitDiagnose(d: Diagnostic)
      requires Valid()
      modifies `printed, `errorPrintCount, `warningPrintCount
      ensures Valid()
      ensures var prints := old(MayPrint());
              && printed == (if prints then old(printed) + [d] else old(printed))
              && errorPrintCount == old(errorPrintCount) + (if prints && d.severity == DS_ERROR then 1 else 0)
              && warningPrintCount == old(warningPrintCount) + (if prints && d.severity != DS_ERROR then 1 else 0)
    {
      hide Consistent;
      if !isEmitter {
        return;
      }
      if maxNumOfDiags.Some? && errorPrintCount >= maxNumOfDiags.value {
        return;
      }
      printed := printed + [d];
      if d.severity == DS_ERROR {
        errorPrintCount := errorPrintCount + 1;
      } else {
        warningPrintCount := warningPrintCount + 1;
      }
    }

    /**
     Take a diagnostic: one that repeats another, or comes from a later stage than the first error, is neither counted nor
     printed. Over any run, the counters are those of the diagnostics taken.
     */
    method HandleDiagnose(d: Diagnostic)
      requires Valid() && Tallies(Counters(), taken)
      modifies this
      ensures Tallies(Counters(), taken)
      ensures taken == old(taken) + if !old(Repeats(prevDiags, diagnostics, d)) && IsCurrent(old(taken), d) then [d] else []
      ensures Valid() && maxNumOfDiags == old(maxNumOfDiags) && isEmitter == old(isEmitter)
      ensures var counts := !old(Repeats(prevDiags, diagnostics, d)) && CanBeEmitted(old(Counters()), d.category);
              && Counters() == (if counts then WithOneMore(old(Counters()), d) else old(Counters()))
              && printed == (if counts && PrintedAtOnce(d.category) && old(MayPrint()) then old(printed) + [d] else old(printed))
      ensures prevDiags == old(prevDiags) + {ReportedAs(d)}
      ensures diagnostics == old(diagnostics) + if ReportedAs(d) !in old(prevDiags) && IsSaved(d) then {SavedAs(d)} else {}
    {
      hide Consistent, WithOneMore, Tallies, IsCurrent, Repeats, ReportedAs, SavedAs, IsSaved;
      CurrentIff(Counters(), taken, d);
      var isNew := Remember(d);
      if !isNew || !(firstErrorCategory.None? || d.category <= firstErrorCategory.value) {
        return;
      }
      TakenNext(Counters(), taken, d);
      CountIt(d);
      taken := taken + [d];
      if d.category == LEX || d.category == PARSE || d.category == CHIR {
        return;
      }
      EmitDiagnose(d);
    }

    /** Is it none of the previous diagnostics, nor of the saved ones? What it is known by is remembered. */
    method Remember(d: Diagnostic) returns (isNew: bool)
      modifies `prevDiags, `diagnostics
      ensures isNew == !old(Repeats(prevDiags, diagnostics, d))
      ensures prevDiags == old(prevDiags) + {ReportedAs(d)}
      ensures diagnostics == old(diagnostics) + if ReportedAs(d) !in old(prevDiags) && IsSaved(d) then {SavedAs(d)} else {}
    {
      if ReportedAs(d) in prevDiags {
        return false;
      }
      prevDiags := prevDiags + {ReportedAs(d)};
      if !d.IsDefaultRange() && d.category != PARSE_QUERY {
        if SavedAs(d) in diagnostics {
          return false;
        }
        diagnostics := diagnostics + {SavedAs(d)};
      }
      isNew := true;
    }

    /** The warnings up to the first stage with an error, or all of them. */
    method GetWarningCount() returns (count: nat)
      requires Valid()
      ensures count == if firstErrorCategory.Some? then Sum(warnings[..firstErrorCategory.value + 1]) else Sum(warnings)
    {
      if firstErrorCategory.Some? {
        count := 0;
        for i := 0 to firstErrorCategory.value + 1
          invariant count == Sum(warnings[..i])
        {
          assert warnings[..i + 1][..i] == warnings[..i];
          count := count + warnings[i];
        }
        return;
      }
      return warningCount;
    }

    /** The errors of the first stage that has any; there are none exactly if none were counted. */
    method GetErrorCount() returns (count: nat)
      requires Valid()
      ensures count == 0 <==> errorCount == 0
      ensures count > 0 ==> exists c: Category :: count == errors[c] && forall e: Category :: e < c ==> errors[e] == 0
    {
      QuietFirst(Counters());
      if firstErrorCategory.Some? {
        return errors[firstErrorCategory.value];
      }
      return 0;
    }

    method Reset()
      requires Valid()
      modifies this
      ensures Valid() && Counters() == START && Tallies(Counters(), taken) && taken == [] && prevDiags == {} && diagnostics == {}
      ensures printed == old(printed) && maxNumOfDiags == old(maxNumOfDiags) && isEmitter == old(isEmitter)
    {
      hide Consistent;
      StartIsConsistent();
      errors, warnings, errorCount, warningCount, firstErrorCategory := NONE_COUNTED, NONE_COUNTED, 0, 0, None;
      prevDiags, diagnostics, taken := {}, {}, [];
      NothingTaken();
    }
  }

  /** A note and then a warning with another message, at the same range: the warning is counted. */
  method WarningAfterNote(note: Diagnostic, warning: Diagnostic) returns (count: nat)
    requires note.category == warning.category && note.begin == warning.begin && note.end == warning.end
    requires note.severity == DS_NOTE && warning.severity == DS_WARNING && note.message != warning.message
    ensures count == 1
  {
    var handler := new CompilerDiagnosticHandler(None, true);
    handler.HandleDiagnose(note);
    handler.HandleDiagnose(warning);
    count := handler.warningCount;
  }

  /** Counting an error without anybody else in between. */
  lemma CountedSteps(s: State, c: Category)
    requires Consistent(s) && s.stages == map[]
    ensures Consistent(s.(firstErrorCategory := if CanBeEmitted(s, c) then Some(c) else s.firstErrorCategory,
                          errors := s.errors[c := s.errors[c] + 1], errorCount := s.errorCount + 1))
  {
    var allowed := s.(stages := map[0 := Allowed(c)]);
    assert InCounting(allowed) == InCounting(s);
    forall e: Category
      ensures Seen(allowed, e) <==> Seen(s, e)
    {
    }
    StepKeepsConsistent(allowed, OrderFirst(0));
    var ordered := Next(allowed, OrderFirst(0));
    StepKeepsConsistent(ordered, CountCategory(0));
    var counted := Next(ordered, CountCategory(0));
    StepKeepsConsistent(counted, CountAll(0));
    assert Next(counted, CountAll(0)).stages == map[];
  }

  lemma QuietFirst(s: State)
    requires Consistent(s) && s.stages == map[]
    ensures s.firstErrorCategory.None? <==> s.errorCount == 0
    ensures s.firstErrorCategory.Some? ==>
              s.errors[s.firstErrorCategory.value] > 0 && forall c: Category :: c < s.firstErrorCategory.value ==> s.errors[c] == 0
  {
    assert InCounting(s) == {};
    SumZero(s.errors);
    forall c: Category
      ensures Seen(s, c) <==> s.errors[c] > 0
    {
    }
  }
}
