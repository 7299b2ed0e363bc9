/**
 Transactions of the diagnostic engine: what a thread reports between `Prepare` and `Commit` reaches the handler when it
 commits, and what it reports before `ClearTransaction` never does. Threads take turns whenever the engine gives up its lock,
 and between the calls of the handler that a commit makes under the lock.
 */
module DiagnosticTransactions {
  import opened Diagnostics
  import opened Wrappers

  datatype Options = Options(enableDiagnose: bool, disableWarning: bool, suppressed: set<nat>)

  predicate Silenced(o: Options, d: Diagnostic) {
    || !o.enableDiagnose
    || (d.severity == DS_WARNING
        && (o.disableWarning || d.warnGroup in o.suppressed || (UNUSED_MAIN in o.suppressed && d.isUnusedMain)))
  }

  /** A grouped warning is reported with a note on how to suppress it. */
  function Noted(d: Diagnostic): Diagnostic {
    if d.severity == DS_WARNING && d.warnGroup != UNGROUPED then d.(note := true) else d
  }

  datatype Delivery = Delivery(thread: Thread, diag: Diagnostic)

  /** The thread that holds the lock for a commit, and what it has still to hand over. */
  datatype Committing = Committing(thread: Thread, left: seq<Diagnostic>)

  /** `pending` holds what a thread is about to hand to the handler after it gave up the lock. */
  datatype State = State(options: Options, transactions: map<Thread, seq<Diagnostic>>, pending: map<Thread, Diagnostic>,
                         committing: Option<Committing>, handled: seq<Delivery>)

  datatype Step =
    | Issue(thread: Thread, diag: Diagnostic)
    | Deliver(thread: Thread)
    | Prepare(thread: Thread)
    | Commit(thread: Thread)
    | HandOver
    | EndCommit
    | Clear(thread: Thread)
    | Configure(options: Options)

  predicate Commits(s: State, t: Thread) {
    s.committing.Some? && s.committing.value.thread == t
  }

  predicate Busy(s: State, t: Thread) {
    t in s.pending || Commits(s, t)
  }

  /**
   A thread does one thing after another, and uses transactions as the engine asserts. During a commit the lock is taken; what
   needs no lock goes on.
   */
  predicate Legal(s: State, step: Step) {
    match step
    case Issue(t, d) => !Busy(s, t) && (Silenced(s.options, d) || s.committing.None?)
    case Deliver(t) => t in s.pending
    case Prepare(t) => !Busy(s, t) && s.committing.None? && t !in s.transactions
    case Commit(t) => !Busy(s, t) && s.committing.None? && t in s.transactions
    case HandOver => s.committing.Some? && s.committing.value.left != []
    case EndCommit => s.committing.Some? && s.committing.value.left == []
    case Clear(t) => !Busy(s, t) && s.committing.None? && t in s.transactions
    case Configure(_) => true
  }

  /** Nobody sees the table entry of a transaction during its commit, so it goes when the commit begins. */
  function Next(s: State, step: Step): State
    requires Legal(s, step)
  {
    match step
    case Issue(t, d) =>
      if Silenced(s.options, d) then s
      else if t in s.transactions then s.(transactions := s.transactions[t := s.transactions[t] + [Noted(d)]])
      else s.(pending := s.pending[t := Noted(d)])
    case Deliver(t) => s.(handled := s.handled + [Delivery(t, s.pending[t])], pending := s.pending - {t})
    case Prepare(t) => s.(transactions := s.transactions[t := []])
    case Commit(t) => s.(committing := Some(Committing(t, s.transactions[t])), transactions := s.transactions - {t})
    case HandOver =>
      var c := s.committing.value;
      s.(handled := s.handled + [Delivery(c.thread, c.left[0])], committing := Some(Committing(c.thread, c.left[1..])))
    case EndCommit => s.(committing := None)
    case Clear(t) => s.(transactions := s.transactions - {t})
    case Configure(o) => s.(options := o)
  }

  function Start(o: Options): State {
    State(o, map[], map[], None, [])
  }

  /** The state after some steps of any number of threads, if every one of them was legal. */
  function Through(s: State, steps: seq<Step>): Option<State>
    decreases |steps|
  {
    if steps == [] then Some(s)
    else
      var before := Through(s, steps[..|steps| - 1]);
      if before.Some? && Legal(before.value, steps[|steps| - 1]) then Some(Next(before.value, steps[|steps| - 1])) else None
  }

  /** The state after a run. */
  function After(o: Options, steps: seq<Step>): Option<State> {
    Through(Start(o), steps)
  }

  /** What one thread did, as far as it matters: it reported something that was not silenced, or used a transaction. */
  datatype Act = Said(diag: Diagnostic) | Began | Committed | Dropped

  function ActOf(s: State, step: Step, t: Thread): seq<Act> {
    match step
    case Issue(u, d) => if u == t && !Silenced(s.options, d) then [Said(Noted(d))] else []
    case Prepare(u) => if u == t then [Began] else []
    case Commit(u) => if u == t then [Committed] else []
    case Clear(u) => if u == t then [Dropped] else []
    case _ => []
  }

  /** The acts of a thread in a run. */
  function History(o: Options, steps: seq<Step>, t: Thread): seq<Act>
    requires After(o, steps).Some?
    decreases |steps|
  {
    if steps == [] then []
    else History(o, steps[..|steps| - 1], t) + ActOf(After(o, steps[..|steps| - 1]).value, steps[|steps| - 1], t)
  }

  /** Does the transaction that is open at the start of the acts end with a commit? */
  predicate CommitsNext(acts: seq<Act>) {
    acts != [] && (acts[0].Committed? || (!acts[0].Dropped? && CommitsNext(acts[1..])))
  }

  predicate Ends(acts: seq<Act>) {
    acts != [] && (acts[0].Committed? || acts[0].Dropped? || Ends(acts[1..]))
  }

  /** What should reach the handler: all that was said outside of transactions, or in one that is committed later. */
  function Survivors(acts: seq<Act>, inTransaction: bool): seq<Diagnostic> {
    if acts == [] then []
    else
      match acts[0]
      case Said(d) =>
        (if !inTransaction || CommitsNext(acts[1..]) then [d] else []) + Survivors(acts[1..], inTransaction)
      case Began => Survivors(acts[1..], true)
      case Committed => Survivors(acts[1..], false)
      case Dropped => Survivors(acts[1..], false)
  }

  /** Is a transaction open after the acts, and what was said in it? */
  predicate OpenAfter(acts: seq<Act>, inTransaction: bool) {
    if acts == [] then inTransaction
    else OpenAfter(acts[1..], if acts[0].Said? then inTransaction else acts[0].Began?)
  }

  function Buffer(acts: seq<Act>, inTransaction: bool): seq<Diagnostic> {
    if acts == [] then []
    else if acts[0].Said? && inTransaction && !Ends(acts[1..]) then [acts[0].diag] + Buffer(acts[1..], true)
    else Buffer(acts[1..], if acts[0].Said? then inTransaction else acts[0].Began?)
  }

  /** Transactions do not nest. */
  predicate Paired(acts: seq<Act>, inTransaction: bool) {
    acts == [] ||
    match acts[0]
    case Said(_) => Paired(acts[1..], inTransaction)
    case Began => !inTransaction && Paired(acts[1..], true)
    case _ => inTransaction && Paired(acts[1..], false)
  }

  lemma {:induction false} NothingSurvives(acts: seq<Act>)
    requires !Ends(acts) && Paired(acts, true)
    ensures Survivors(acts, true) == [] && OpenAfter(acts, true) && !CommitsNext(acts)
  {
    if acts != [] {
      NothingSurvives(acts[1..]);
    }
  }

  lemma {:induction false} EndsIfClosed(acts: seq<Act>)
    requires Paired(acts, true)
    ensures !OpenAfter(acts, true) ==> Ends(acts)
  {
    if acts != [] && acts[0].Said? {
      EndsIfClosed(acts[1..]);
    }
  }

  /** The effect of one more act at the end. */
  lemma {:induction false} SurvivorsMore(acts: seq<Act>, a: Act, inTransaction: bool)
    requires Paired(acts, inTransaction) && Paired(acts + [a], inTransaction)
    ensures OpenAfter(acts + [a], inTransaction) == if a.Said? then OpenAfter(acts, inTransaction) else a.Began?
    ensures a.Said? ==> Survivors(acts + [a], inTransaction)
                        == Survivors(acts, inTransaction) + if OpenAfter(acts, inTransaction) then [] else [a.diag]
    ensures a.Committed? ==> Survivors(acts + [a], inTransaction) == Survivors(acts, inTransaction) + Buffer(acts, inTransaction)
    ensures a.Began? || a.Dropped? ==> Survivors(acts + [a], inTransaction) == Survivors(acts, inTransaction)
    ensures CommitsNext(acts + [a]) == if Ends(acts) then CommitsNext(acts) else a.Committed?
    ensures Ends(acts + [a]) == (Ends(acts) || a.Committed? || a.Dropped?)
    decreases |acts|
  {
    if acts == [] {
      assert [a][1..] == [];
    } else {
      var rest := acts[1..];
      assert (acts + [a])[1..] == rest + [a];
      var open := if acts[0].Said? then inTransaction else acts[0].Began?;
      SurvivorsMore(rest, a, open);
      if acts[0].Said? && inTransaction && !Ends(rest) {
        NothingSurvives(rest);
      }
    }
  }

  lemma {:induction false} PairedMore(acts: seq<Act>, a: Act, inTransaction: bool)
    requires Paired(acts, inTransaction)
    ensures Paired(acts + [a], inTransaction) <==>
            a.Said? || (if a.Began? then !OpenAfter(acts, inTransaction) else OpenAfter(acts, inTransaction))
    decreases |acts|
  {
    if acts == [] {
      assert [a][1..] == [];
    } else {
      assert (acts + [a])[1..] == acts[1..] + [a];
      PairedMore(acts[1..], a, if acts[0].Said? then inTransaction else acts[0].Began?);
    }
  }

  /** The buffer after one more act. */
  lemma {:induction false} BufferMore(acts: seq<Act>, a: Act, inTransaction: bool)
    requires Paired(acts, inTransaction) && Paired(acts + [a], inTransaction)
    ensures Buffer(acts + [a], inTransaction) == if a.Said? && OpenAfter(acts, inTransaction)
                                                 then Buffer(acts, inTransaction) + [a.diag]
                                                 else if a.Said? then Buffer(acts, inTransaction) else []
    ensures !OpenAfter(acts, inTransaction) ==> Buffer(acts, inTransaction) == []
    decreases |acts|
  {
    if acts == [] {
      assert [a][1..] == [];
    } else {
      var rest := acts[1..];
      assert (acts + [a])[1..] == rest + [a];
      var open := if acts[0].Said? then inTransaction else acts[0].Began?;
      BufferMore(rest, a, open);
      SurvivorsMore(rest, a, open);
      if acts[0].Said? && inTransaction && !Ends(rest) {
        NothingSurvives(rest);
      }
    }
  }

  /** The deliveries of one thread. */
  function OfThread(handled: seq<Delivery>, t: Thread): seq<Diagnostic> {
    if handled == [] then []
    else OfThread(handled[..|handled| - 1], t)
         + if handled[|handled| - 1].thread == t then [handled[|handled| - 1].diag] else []
  }

  lemma {:induction false} OfThreadConcat(a: seq<Delivery>, b: seq<Delivery>, t: Thread)
    ensures OfThread(a + b, t) == OfThread(a, t) + OfThread(b, t)
    decreases |b|
  {
    if b == [] {
      assert a + b == a;
    } else {
      assert (a + b)[..|a + b| - 1] == a + b[..|b| - 1];
      OfThreadConcat(a, b[..|b| - 1], t);
    }
  }

  /** What a thread is about to hand over: one report, or the rest of its commit. */
  function AboutToGive(s: State, t: Thread): seq<Diagnostic> {
    if t in s.pending then [s.pending[t]] else if Commits(s, t) then s.committing.value.left else []
  }

  /** What a thread has handed over or is about to. */
  function Given(s: State, t: Thread): seq<Diagnostic> {
    OfThread(s.handled, t) + AboutToGive(s, t)
  }

  /** The engine's bookkeeping of a thread is the history of the thread. */
  predicate Follows(s: State, t: Thread, acts: seq<Act>) {
    && Paired(acts, false) && Given(s, t) == Survivors(acts, false) && !(t in s.pending && Commits(s, t))
    && (t in s.transactions <==> OpenAfter(acts, false))
    && (t in s.transactions ==> s.transactions[t] == Buffer(acts, false))
  }

  /** What a step gives to the handler on behalf of a thread, and what it leaves in its transaction. */
  lemma GivenNext(s: State, step: Step, t: Thread)
    requires Legal(s, step) && !(t in s.pending && Commits(s, t))
    ensures !(t in Next(s, step).pending && Commits(Next(s, step), t))
    ensures var acts := ActOf(s, step, t);
            Given(Next(s, step), t) == Given(s, t)
              + if acts == [] then []
                else match acts[0]
                     case Said(d) => if t in s.transactions then [] else [d]
                     case Committed => s.transactions[t]
                     case _ => []
  {
    hide OfThread, Silenced, Noted;
    match step
    case Deliver(u) =>
      OfThreadConcat(s.handled, [Delivery(u, s.pending[u])], t);
      OfOne(Delivery(u, s.pending[u]), t);
    case HandOver =>
      var c := s.committing.value;
      OfThreadConcat(s.handled, [Delivery(c.thread, c.left[0])], t);
      OfOne(Delivery(c.thread, c.left[0]), t);
    case _ =>
  }

  lemma OfOne(d: Delivery, t: Thread)
    ensures OfThread([d], t) == if d.thread == t then [d.diag] else []
  {
    assert [d][..0] == [];
  }

  lemma TransactionNext(s: State, step: Step, t: Thread)
    requires Legal(s, step)
    ensures var acts, after := ActOf(s, step, t), Next(s, step).transactions;
            if acts == [] then (t in after <==> t in s.transactions) && (t in after ==> after[t] == s.transactions[t])
            else match acts[0]
                 case Said(d) => (t in after <==> t in s.transactions) && (t in after ==> after[t] == s.transactions[t] + [d])
                 case Began => t !in s.transactions && t in after && after[t] == []
                 case _ => t in s.transactions && t !in after
  {
  }

  lemma FollowsOther(s: State, step: Step, t: Thread, acts: seq<Act>)
    requires Legal(s, step) && Follows(s, t, acts) && ActOf(s, step, t) == []
    ensures Follows(Next(s, step), t, acts)
  {
    hide Legal, ActOf, Next, Given, Survivors, Buffer, OpenAfter, Paired;
    GivenNext(s, step, t);
    TransactionNext(s, step, t);
  }

  lemma FollowsOwn(s: State, step: Step, t: Thread, acts: seq<Act>, a: Act)
    requires Legal(s, step) && Follows(s, t, acts) && ActOf(s, step, t) == [a]
    ensures Follows(Next(s, step), t, acts + [a])
  {
    hide Legal, ActOf, Next, Given, Survivors, Buffer, OpenAfter, Paired;
    GivenNext(s, step, t);
    TransactionNext(s, step, t);
    PairedMore(acts, a, false);
    SurvivorsMore(acts, a, false);
    BufferMore(acts, a, false);
  }

  lemma {:induction false} EveryRunFollows(o: Options, steps: seq<Step>, t: Thread)
    requires After(o, steps).Some?
    ensures Follows(After(o, steps).value, t, History(o, steps, t))
    decreases |steps|
  {
    if steps != [] {
      var before, step := steps[..|steps| - 1], steps[|steps| - 1];
      EveryRunFollows(o, before, t);
      var s := After(o, before).value;
      var acts := ActOf(s, step, t);
      if acts == [] {
        FollowsOther(s, step, t, History(o, before, t));
        assert History(o, before, t) + [] == History(o, before, t);
      } else {
        FollowsOwn(s, step, t, History(o, before, t), acts[0]);
        assert acts == [acts[0]];
      }
    }
  }

  /**
   However the threads are interleaved, the handler receives from each of them, in order and once each, exactly what it
   reported outside of transactions or in one that is committed, but for what it is about to hand over: one report, or the
   rest of a commit.
   */
  lemma HandlerReceives(o: Options, steps: seq<Step>, t: Thread)
    requires After(o, steps).Some?
    ensures OfThread(After(o, steps).value.handled, t) + AboutToGive(After(o, steps).value, t)
            == Survivors(History(o, steps, t), false)
  {
    EveryRunFollows(o, steps, t);
  }

  /** What is silenced: everything, or only warnings. Of what is not, only grouped warnings are changed, by a note. */
  lemma SaidIff(s: State, t: Thread, d: Diagnostic)
    ensures ActOf(s, Issue(t, d), t) == [] <==>
            || !s.options.enableDiagnose
            || (d.severity == DS_WARNING && s.options.disableWarning)
            || (d.severity == DS_WARNING && d.warnGroup in s.options.suppressed)
            || (d.severity == DS_WARNING && d.isUnusedMain && UNUSED_MAIN in s.options.suppressed)
    ensures ActOf(s, Issue(t, d), t) != [] ==>
              ActOf(s, Issue(t, d), t) == [Said(d.(note := d.note || (d.severity == DS_WARNING && d.warnGroup != UNGROUPED)))]
  {
  }

  function ErrorsAmong(ds: seq<Diagnostic>): seq<Diagnostic> {
    if ds == [] then []
    else
      var last := ds[|ds| - 1];
      ErrorsAmong(ds[..|ds| - 1]) + if last.severity == DS_ERROR then [last] else []
  }

  function ErrorsReported(steps: seq<Step>, t: Thread): seq<Diagnostic> {
    if steps == [] then []
    else
      var last := steps[|steps| - 1];
      ErrorsReported(steps[..|steps| - 1], t)
      + if last.Issue? && last.thread == t && last.diag.severity == DS_ERROR then [last.diag] else []
  }

  /** Diagnostics are enabled all the time, and the thread opens no transaction. */
  predicate PlainRun(o: Options, steps: seq<Step>, t: Thread) {
    && o.enableDiagnose && (forall i :: 0 <= i < |steps| && steps[i].Configure? ==> steps[i].options.enableDiagnose)
    && forall i :: 0 <= i < |steps| ==> steps[i] != Prepare(t)
  }

  lemma PlainNext(s: State, step: Step, t: Thread)
    requires Legal(s, step) && s.options.enableDiagnose && step != Prepare(t) && t !in s.transactions
    requires step.Configure? ==> step.options.enableDiagnose
    ensures Next(s, step).options.enableDiagnose && t !in Next(s, step).transactions
    ensures var acts, issued := ActOf(s, step, t), step.Issue? && step.thread == t;
            if acts == [] then !(issued && step.diag.severity == DS_ERROR)
            else |acts| == 1 && acts[0].Said? && issued && acts[0].diag.severity == step.diag.severity
                 && (step.diag.severity == DS_ERROR ==> acts[0].diag == step.diag)
  {
  }

  lemma ErrorsAmongMore(ds: seq<Diagnostic>, d: Diagnostic)
    ensures ErrorsAmong(ds + [d]) == ErrorsAmong(ds) + if d.severity == DS_ERROR then [d] else []
  {
    assert (ds + [d])[..|ds|] == ds;
  }

  lemma {:induction false} ErrorsSurvive(o: Options, steps: seq<Step>, t: Thread)
    requires After(o, steps).Some? && PlainRun(o, steps, t)
    ensures After(o, steps).value.options.enableDiagnose && t !in After(o, steps).value.transactions
    ensures ErrorsAmong(Survivors(History(o, steps, t), false)) == ErrorsReported(steps, t)
    decreases |steps|
  {
    hide Legal, Next, ActOf, Survivors, Follows, ErrorsAmong;
    if steps == [] {
      NoErrors(o, t);
    } else {
      var before, step := steps[..|steps| - 1], steps[|steps| - 1];
      ErrorsSurvive(o, before, t);
      var s, history := After(o, before).value, History(o, before, t);
      PlainNext(s, step, t);
      var acts := ActOf(s, step, t);
      if acts == [] {
        assert history + [] == history;
      } else {
        assert acts == [acts[0]];
        OneMoreSurvives(o, before, steps, t, acts[0]);
        ErrorsAmongMore(Survivors(history, false), acts[0].diag);
      }
    }
  }

  lemma NoErrors(o: Options, t: Thread)
    ensures After(o, []) == Some(Start(o)) && ErrorsAmong(Survivors(History(o, [], t), false)) == []
  {
  }

  lemma OneMoreSurvives(o: Options, before: seq<Step>, steps: seq<Step>, t: Thread, a: Act)
    requires After(o, before).Some? && After(o, steps).Some? && a.Said? && t !in After(o, before).value.transactions
    requires History(o, steps, t) == History(o, before, t) + [a]
    ensures Survivors(History(o, steps, t), false) == Survivors(History(o, before, t), false) + [a.diag]
  {
    hide After, History, Survivors, OpenAfter, Buffer, Paired, Given;
    EveryRunFollows(o, before, t);
    EveryRunFollows(o, steps, t);
    SurvivorsMore(History(o, before, t), a, false);
  }

  /**
   No way to suppress warnings suppresses an error: a thread that opens no transaction gets all its errors through, in order,
   unchanged and once each, but for the one it may be about to hand over.
   */
  lemma ErrorsGetThrough(o: Options, steps: seq<Step>, t: Thread)
    requires After(o, steps).Some? && PlainRun(o, steps, t)
    ensures ErrorsAmong(OfThread(After(o, steps).value.handled, t) + AboutToGive(After(o, steps).value, t)) == ErrorsReported(steps, t)
  {
    HandlerReceives(o, steps, t);
    ErrorsSurvive(o, steps, t);
  }

  /** In these steps the thread only reports. */
  predicate OnlyReports(steps: seq<Step>, t: Thread) {
    forall i :: 0 <= i < |steps| ==>
      match steps[i]
      case Deliver(u) => u != t
      case Prepare(u) => u != t
      case Commit(u) => u != t
      case Clear(u) => u != t
      case _ => true
  }

  /** The steps without the reports of the thread. */
  function Without(steps: seq<Step>, t: Thread): seq<Step> {
    if steps == [] then []
    else
      var last := steps[|steps| - 1];
      Without(steps[..|steps| - 1], t) + if last.Issue? && last.thread == t then [] else [last]
  }

  /** While a thread is in a transaction, its reports show nowhere but in the transaction. */
  lemma {:induction false} ReportsStayInside(s: State, t: Thread, steps: seq<Step>)
    requires Legal(s, Prepare(t)) && OnlyReports(steps, t) && Through(Next(s, Prepare(t)), steps).Some?
    ensures var after := Through(Next(s, Prepare(t)), steps).value; var without := Through(s, Without(steps, t));
            && without.Some? && t in after.transactions && t !in without.value.transactions && !Busy(after, t)
            && after == without.value.(transactions := without.value.transactions[t := after.transactions[t]])
    decreases |steps|
  {
    if steps != [] {
      var front, last := steps[..|steps| - 1], steps[|steps| - 1];
      ReportsStayInside(s, t, front);
      ReportOrOther(Through(Next(s, Prepare(t)), front).value, Through(s, Without(front, t)).value, t, last);
      hide Next, Legal, Busy;
      if last.Issue? && last.thread == t {
        assert Without(steps, t) == Without(front, t);
      } else {
        assert Without(steps, t)[..|Without(steps, t)| - 1] == Without(front, t);
      }
    }
  }

  lemma ReportOrOther(s: State, without: State, t: Thread, step: Step)
    requires t in s.transactions && t !in without.transactions && !Busy(s, t) && Legal(s, step) && OnlyReports([step], t)
    requires s == without.(transactions := without.transactions[t := s.transactions[t]])
    ensures var after := Next(s, step);
            && t in after.transactions && !Busy(after, t)
            && if step.Issue? && step.thread == t then
                 after == without.(transactions := without.transactions[t := after.transactions[t]])
               else
                 && Legal(without, step) && t !in Next(without, step).transactions
                 && after == Next(without, step).(transactions := Next(without, step).transactions[t := after.transactions[t]])
  {
    assert [step][0] == step;
    assert forall u :: u != t ==> (u in s.transactions <==> u in without.transactions)
                                  && (u in s.transactions ==> s.transactions[u] == without.transactions[u]);
  }

  /**
   A transaction that is dropped leaves no trace: whatever other threads did in the meantime, everything is as if the thread
   had neither begun the transaction nor reported anything in it.
   */
  lemma ClearedLeavesNoTrace(s: State, t: Thread, steps: seq<Step>)
    requires Legal(s, Prepare(t)) && OnlyReports(steps, t) && Through(Next(s, Prepare(t)), steps).Some?
    requires Legal(Through(Next(s, Prepare(t)), steps).value, Clear(t))
    ensures Through(s, Without(steps, t)) == Some(Next(Through(Next(s, Prepare(t)), steps).value, Clear(t)))
  {
    ReportsStayInside(s, t, steps);
    var without := Through(s, Without(steps, t)).value;
    var after := Through(Next(s, Prepare(t)), steps).value;
    assert without.transactions[t := after.transactions[t]] - {t} == without.transactions;
  }

  /** A commit from its beginning to its end, if no other thread comes in between. */
  function HandAll(s: State): State
    requires s.committing.Some?
    decreases |s.committing.value.left|
  {
    if s.committing.value.left == [] then Next(s, EndCommit) else HandAll(Next(s, HandOver))
  }

  /** The engine itself: two tables by thread, and the handler it reports to. */
  class DiagnosticEngineImpl {
    var options: Options
    var transactionMap: map<Thread, seq<Diagnostic>>
    var isInTransaction: map<Thread, bool>
    var handled: seq<Delivery>

    constructor (o: Options)
      ensures Valid() && Now() == Start(o)
    {
      options, transactionMap, isInTransaction, handled := o, map[], map[], [];
      new;
      assert Now().transactions == map[];
    }

    predicate InTransaction(t: Thread)
      reads this
    {
      t in isInTransaction && isInTransaction[t]
    }

    ghost predicate Valid()
      reads this
    {
      forall t :: t in transactionMap <==> InTransaction(t)
    }

    ghost function Now(): State
      reads this
    {
      State(options, transactionMap, map[], None, handled)
    }

    /** Report a diagnostic; looking a thread up in the table enters it there. */
    method HandleDiagnostic(t: Thread, d: Diagnostic)
      requires Valid()
      modifies this
      ensures Valid()
      ensures var issued := Next(old(Now()), Issue(t, d));
              Now() == if t in issued.pending then Next(issued, Deliver(t)) else issued
    {
      if !options.enableDiagnose {
        return;
      }
      var diag := d;
      if d.severity == DS_WARNING {
        if options.disableWarning || d.warnGroup in options.suppressed || (UNUSED_MAIN in options.suppressed && d.isUnusedMain) {
          return;
        } else if d.warnGroup != UNGROUPED {
          diag := d.(note := true);
        }
      }
      if t !in isInTransaction {
        isInTransaction := isInTransaction[t := false];
      }
      if isInTransaction[t] {
        transactionMap := transactionMap[t := transactionMap[t] + [diag]];
      } else {
        handled := handled + [Delivery(t, diag)];
        assert map[t := diag] - {t} == map[];
      }
    }

    method Prepare(t: Thread)
      requires Valid() && !InTransaction(t)
      modifies this
      ensures Valid() && Now() == Next(old(Now()), Step.Prepare(t))
    {
      isInTransaction := isInTransaction[t := true];
      transactionMap := transactionMap[t := []];
    }

    method Commit(t: Thread)
      requires Valid() && InTransaction(t)
      modifies this
      ensures Valid() && Now() == HandAll(Next(old(Now()), Step.Commit(t)))
    {
      var cachedDiagnostic := transactionMap[t];
      assert cachedDiagnostic[0..] == cachedDiagnostic;
      for i := 0 to |cachedDiagnostic|
        invariant Valid() && InTransaction(t) && transactionMap == old(transactionMap) && options == old(options)
        invariant HandAll(Next(old(Now()), Step.Commit(t)))
               == HandAll(State(options, transactionMap - {t}, map[], Some(Committing(t, cachedDiagnostic[i..])), handled))
      {
        assert cachedDiagnostic[i..][1..] == cachedDiagnostic[i + 1..];
        handled := handled + [Delivery(t, cachedDiagnostic[i])];
      }
      transactionMap := transactionMap - {t};
      isInTransaction := isInTransaction - {t};
    }

    method ClearTransaction(t: Thread)
      requires Valid() && InTransaction(t)
      modifies this
      ensures Valid() && Now() == Next(old(Now()), Step.Clear(t))
    {
      transactionMap := transactionMap - {t};
      isInTransaction := isInTransaction - {t};
    }
  }
}
