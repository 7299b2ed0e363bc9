/**
 Which diagnostics repeat another one. The handler looks for a previous diagnostic with the same message, enters the new one,
 and then looks for a saved one at the same range; other threads come in between, except within the last of the three.
 */
module DiagnosticRepeats {
  import opened Diagnostics
  import opened Wrappers

  /** A thread has not found its diagnostic among the previous ones, or has entered it there. */
  datatype Stage = Looked(diag: Diagnostic) | Entered(diag: Diagnostic)

  /** `taken` holds the diagnostics that were taken for new, in the order of the decision. */
  datatype State = State(prevDiags: set<Reported>, diagnostics: set<Saved>, stages: map<Thread, Stage>, taken: seq<Diagnostic>)

  const START := State({}, {}, map[], [])

  datatype Step = Look(thread: Thread, diag: Diagnostic) | Enter(thread: Thread) | Save(thread: Thread)

  predicate Legal(s: State, step: Step) {
    match step
    case Look(t, _) => t !in s.stages
    case Enter(t) => t in s.stages && s.stages[t].Looked?
    case Save(t) => t in s.stages && s.stages[t].Entered?
  }

  function Next(s: State, step: Step): State
    requires Legal(s, step)
  {
    match step
    case Look(t, d) => if ReportedAs(d) in s.prevDiags then s else s.(stages := s.stages[t := Looked(d)])
    case Enter(t) =>
      var d := s.stages[t].diag;
      var entered := s.(prevDiags := s.prevDiags + {ReportedAs(d)});
      if IsSaved(d) then entered.(stages := s.stages[t := Entered(d)])
      else entered.(stages := s.stages - {t}, taken := s.taken + [d])
    case Save(t) =>
      var d := s.stages[t].diag;
      if SavedAs(d) in s.diagnostics then s.(stages := s.stages - {t})
      else s.(diagnostics := s.diagnostics + {SavedAs(d)}, stages := s.stages - {t}, taken := s.taken + [d])
  }

  function Through(s: State, steps: seq<Step>): Option<State>
    decreases |steps|
  {
    if steps == [] then Some(s)
    else
      var before := Through(s, steps[..|steps| - 1]);
      var step := steps[|steps| - 1];
      if before.Some? && Legal(before.value, step) then Some(Next(before.value, step)) else None
  }

  lemma ThroughNext(s: State, steps: seq<Step>, k: nat)
    requires k < |steps| && Through(s, steps[..k]).Some? && Legal(Through(s, steps[..k]).value, steps[k])
    ensures Through(s, steps[..k + 1]) == Some(Next(Through(s, steps[..k]).value, steps[k]))
  {
    assert steps[..k + 1][..k] == steps[..k];
  }

  /** The three sections of one thread after each other, without the last one for a diagnostic that is not saved. */
  function Alone(s: State, t: Thread, d: Diagnostic): State
    requires t !in s.stages
  {
    var looked := Next(s, Look(t, d));
    if t !in looked.stages then looked
    else
      var entered := Next(looked, Enter(t));
      if t !in entered.stages then entered else Next(entered, Save(t))
  }

  /** Without other threads, a diagnostic is taken exactly if it repeats none; and it is remembered. */
  lemma AloneIff(s: State, t: Thread, d: Diagnostic)
    requires t !in s.stages
    ensures var after := Alone(s, t, d);
            && after.stages == s.stages && after.prevDiags == s.prevDiags + {ReportedAs(d)}
            && after.taken == (if Repeats(s.prevDiags, s.diagnostics, d) then s.taken else s.taken + [d])
            && after.diagnostics == s.diagnostics
                                    + if ReportedAs(d) !in s.prevDiags && IsSaved(d) then {SavedAs(d)} else {}
  {
    var looked := Next(s, Look(t, d));
    if t in looked.stages {
      assert looked.stages - {t} == s.stages;
      var entered := Next(looked, Enter(t));
      if t in entered.stages {
        assert entered.stages - {t} == s.stages;
      }
    }
  }

  /** No message was taken twice at one place. */
  predicate TakenOnce(taken: seq<Diagnostic>) {
    forall i, j :: 0 <= i < j < |taken| ==> ReportedAs(taken[i]) != ReportedAs(taken[j])
  }

  /** What is taken of the saved diagnostics is saved, once each. */
  ghost predicate SavedOnce(s: State) {
    && (forall i :: 0 <= i < |s.taken| && IsSaved(s.taken[i]) ==> SavedAs(s.taken[i]) in s.diagnostics)
    && (forall i, j :: 0 <= i < j < |s.taken| && IsSaved(s.taken[i]) && IsSaved(s.taken[j]) ==>
          SavedAs(s.taken[i]) != SavedAs(s.taken[j]))
    && forall t :: t in s.stages && s.stages[t].Entered? ==> IsSaved(s.stages[t].diag)
  }

  /** However threads interleave, of the saved diagnostics of one range, category and severity only one is taken. */
  lemma {:induction false} EveryRunSavesOnce(steps: seq<Step>)
    requires Through(START, steps).Some?
    ensures SavedOnce(Through(START, steps).value)
    decreases |steps|
  {
    if steps != [] {
      EveryRunSavesOnce(steps[..|steps| - 1]);
    }
  }

  /** All reports in the steps are among these. */
  predicate ReportsOnly(steps: seq<Step>, diags: set<Diagnostic>) {
    forall i :: 0 <= i < |steps| && steps[i].Look? ==> steps[i].diag in diags
  }

  lemma {:induction false} TakenAreReported(steps: seq<Step>, diags: set<Diagnostic>)
    requires Through(START, steps).Some? && ReportsOnly(steps, diags)
    ensures var s := Through(START, steps).value;
            (forall d :: d in s.taken ==> d in diags) && forall t :: t in s.stages ==> s.stages[t].diag in diags
    decreases |steps|
  {
    if steps != [] {
      TakenAreReported(steps[..|steps| - 1], diags);
    }
  }

  /** Two reports of one message at one place that the last section tells for the same. */
  predicate Twins(d: Diagnostic, e: Diagnostic) {
    IsSaved(d) && IsSaved(e) && SavedAs(d) == SavedAs(e)
  }

  /**
   However the threads that report them are interleaved, a message that is reported twice at one place is taken once exactly if
   both reports are saved and agree in range, category and severity. Diagnostics without a range are not saved, so that even
   one and the same may be taken twice.
   */
  lemma TakenOnceIff(d: Diagnostic, e: Diagnostic)
    requires ReportedAs(d) == ReportedAs(e)
    ensures (forall steps :: Through(START, steps).Some? && ReportsOnly(steps, {d, e}) ==>
               TakenOnce(Through(START, steps).value.taken))
       <==> Twins(d, e)
  {
    if Twins(d, e) {
      forall steps | Through(START, steps).Some? && ReportsOnly(steps, {d, e})
        ensures TakenOnce(Through(START, steps).value.taken)
      {
        TwinsTakenOnce(d, e, steps);
      }
    } else {
      var steps := Race(d, e);
      RaceTakesBoth(d, e);
      assert Through(START, steps).Some? && ReportsOnly(steps, {d, e});
      assert !TakenOnce(Through(START, steps).value.taken);
    }
  }

  lemma OneTaken(s: State, saved: Saved)
    requires SavedOnce(s) && forall d :: d in s.taken ==> IsSaved(d) && SavedAs(d) == saved
    ensures TakenOnce(s.taken)
  {
    assert forall i :: 0 <= i < |s.taken| ==> s.taken[i] in s.taken;
  }

  lemma TwinsTakenOnce(d: Diagnostic, e: Diagnostic, steps: seq<Step>)
    requires Twins(d, e) && Through(START, steps).Some? && ReportsOnly(steps, {d, e})
    ensures TakenOnce(Through(START, steps).value.taken)
  {
    hide Through, SavedOnce;
    EveryRunSavesOnce(steps);
    TakenAreReported(steps, {d, e});
    OneTaken(Through(START, steps).value, SavedAs(d));
  }

  /** Two threads look before either of them enters what it reports. */
  function Race(d: Diagnostic, e: Diagnostic): seq<Step> {
    [Look(0, d), Look(1, e), Enter(0), Enter(1)] + (if IsSaved(d) then [Save(0)] else []) + if IsSaved(e) then [Save(1)] else []
  }

  lemma RaceTakesBoth(d: Diagnostic, e: Diagnostic)
    requires ReportedAs(d) == ReportedAs(e) && !Twins(d, e)
    ensures Through(START, Race(d, e)).Some?
    ensures var taken := Through(START, Race(d, e)).value.taken;
            |taken| == 2 && ReportedAs(taken[0]) == ReportedAs(taken[1])
  {
    hide Through, IsSaved, SavedAs, ReportedAs;
    var run := Race(d, e);
    NoSteps(START, run);
    ThroughNext(START, run, 0);
    ThroughNext(START, run, 1);
    ThroughNext(START, run, 2);
    ThroughNext(START, run, 3);
    if IsSaved(d) {
      ThroughNext(START, run, 4);
    }
    if IsSaved(e) {
      ThroughNext(START, run, |run| - 1);
    }
  }

  lemma NoSteps(s: State, steps: seq<Step>)
    ensures Through(s, steps[..0]) == Some(s) && steps[..|steps|] == steps
  {
  }
}
