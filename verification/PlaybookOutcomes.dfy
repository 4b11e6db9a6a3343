/**
 How many calls a run needs: one for each completed outcome, one for each pause and one
 more, not counting calls whose clock stands before the first call's.
 */
module PlaybookOutcomes {
  import opened Common
  import opened PlaybookDag
  import opened PlaybookRun
  import opened PlaybookSafety
  import opened PlaybookTheorems
  import opened PlaybookRunner

  /** An uninterrupted call whose executor reports completion or a pause. */
  datatype Visit = Visit(asOf: int, outcome: Outcome) {
    predicate Goes() {
      outcome == Done || outcome == PauseForApproval || outcome == PauseForObservation
    }
  }

  function VisitCall(context: Context, v: Visit): Call {
    Call(context, v.asOf, true, Returned(v.outcome), 5)
  }

  /** The steps of the calls one after the other. */
  function Calls(context: Context, visits: seq<Visit>): seq<Act> {
    if visits == [] then []
    else Calls(context, visits[..|visits| - 1]) + VisitCall(context, visits[|visits| - 1]).Steps()
  }

  // ---------------------------------------------------------------------------------
  // Counting
  // ---------------------------------------------------------------------------------

  /** The calls whose clock has reached the record's creation. */
  function Counted(visits: seq<Visit>, created: int): seq<Visit> {
    if visits == [] then []
    else
      var last := visits[|visits| - 1];
      Counted(visits[..|visits| - 1], created) + if last.asOf >= created then [last] else []
  }

  function DoneCount(visits: seq<Visit>): (n: nat)
    ensures n <= |visits|
  {
    if visits == [] then 0
    else DoneCount(visits[..|visits| - 1]) + if visits[|visits| - 1].outcome == Done then 1 else 0
  }

  /** All nodes were completed by calls before the last one. */
  predicate Enough(counted: seq<Visit>, n: nat) {
    counted != [] && DoneCount(counted[..|counted| - 1]) >= n
  }

  // ---------------------------------------------------------------------------------
  // The record between calls
  // ---------------------------------------------------------------------------------

  /** `done` nodes of the runner's order are completed, and the next one is paused or pending. */
  ghost predicate Halfway(record: Record, context: Context, created: int, done: nat, paused: bool) {
    var order := Schedule(context.Playbook(), {});
    && record.context == context && record.createdAt == created
    && (if paused then
          && done < |order| && Shape(order, record, done + 1) && record.states[order[done]] == Paused
        else
          && Shape(order, record, done)
          && (if done == 0 then record.status == Planned
              else record.status == Running && record.states[order[done - 1]] == Completed))
  }

  ghost predicate Progress(s: Sys, context: Context, created: int, done: nat, paused: bool) {
    s.At(0) == Idle && s.row.Some? && Halfway(s.row.value, context, created, done, paused)
  }

  lemma LaunchesNext(record: Record, order: seq<nat>, done: nat, asOf: int)
    requires RunnersOrder(record.context.Playbook(), order) && Shape(order, record, done)
    requires done < |order| && record.createdAt <= asOf
    requires done > 0 ==> record.states[order[done - 1]] == Completed && record.status == Running
    requires done == 0 ==> record.status == Planned
    ensures order[done] < |record.states|
    ensures Decide(record, asOf) == Launch(order[done], false, MarkedRecord(record, order[done], asOf))
  {
    Frontier(order, record, done);
    NextInOrder(record.context.Playbook(), order, done);
    StartsNext(order, record, done);
  }

  lemma ResumesNext(record: Record, order: seq<nat>, done: nat, asOf: int)
    requires RunnersOrder(record.context.Playbook(), order) && done < |order| && Shape(order, record, done + 1)
    requires record.createdAt <= asOf && record.states[order[done]] == Paused
    ensures Decide(record, asOf) == Launch(order[done], true, MarkedRecord(record, order[done], asOf))
  {
    assert StatusFits(record.status, record.states[order[done]], done + 1 == |order|);
    Frontier(order, record, done + 1);
    assert Least({order[done]}) == order[done];
  }

  lemma AllDone(record: Record, order: seq<nat>)
    requires RunnersOrder(record.context.Playbook(), order) && Shape(order, record, |order|)
    requires |order| > 0 ==> record.states[order[|order| - 1]] == Completed
    ensures forall x: nat | x < |record.states| :: record.states[x] == Completed
  {
    forall x: nat | x < |record.states| ensures record.states[x] == Completed {
      var i := StateAt(order, record, |order|, x);
    }
  }

  lemma NothingLeft(record: Record, asOf: int)
    requires |record.states| == |record.context.Playbook().deps|
    requires forall x: nat | x < |record.states| :: record.states[x] == Completed
    requires record.createdAt <= asOf && !Terminal(record.status)
    ensures Decide(record, asOf) == Checkpoint(CompletedRecord(record, asOf))
  {
    assert NodesWith(record.states, NodeRunning) == {};
    assert NodesWith(record.states, Paused) == {};
    assert Startable(record.context.Playbook(), record.states) == {};
  }

  /** The mark of the next node, whether it starts or resumes. */
  lemma MarksNext(record: Record, context: Context, created: int, done: nat, paused: bool, asOf: int)
    requires Acyclic(context.Playbook()) && Halfway(record, context, created, done, paused)
    requires done < |context.Playbook().deps| && created <= asOf
    ensures
      var order := Schedule(context.Playbook(), {});
      && done < |order| && order[done] < |record.states|
      && Decide(record, asOf) == Launch(order[done], paused, MarkedRecord(record, order[done], asOf))
      && Shape(order, MarkedRecord(record, order[done], asOf), done + 1)
  {
    var order := Schedule(context.Playbook(), {});
    ScheduleLength(context.Playbook());
    if paused {
      ResumesNext(record, order, done, asOf);
      LastChanges(order, record, done + 1, MarkedRecord(record, order[done], asOf));
    } else {
      LaunchesNext(record, order, done, asOf);
      OneMoreStarts(order, record, done, MarkedRecord(record, order[done], asOf));
    }
  }

  /** Recording the outcome of the marked node. */
  lemma RecordsNext(marked: Record, order: seq<nat>, context: Context, created: int, done: nat, v: Visit)
    requires Acyclic(context.Playbook()) && order == Schedule(context.Playbook(), {}) && v.Goes()
    requires marked.context == context && marked.createdAt == created
    requires done < |order| && Shape(order, marked, done + 1) && order[done] < |marked.states|
    ensures
      var next := Outcomed(marked, order[done], v.asOf, Returned(v.outcome));
      if v.outcome == Done then Halfway(next, context, created, done + 1, false)
      else Halfway(next, context, created, done, true)
  {
    OutcomeFits(marked, order[done], v.asOf, Returned(v.outcome), done + 1 == |order|);
    LastChanges(order, marked, done + 1, Outcomed(marked, order[done], v.asOf, Returned(v.outcome)));
  }

  lemma RecordCompletes(record: Record, context: Context, created: int, done: nat, asOf: int)
    requires Acyclic(context.Playbook()) && Halfway(record, context, created, done, false)
    requires done >= |context.Playbook().deps| && created <= asOf
    ensures Decide(record, asOf) == Checkpoint(CompletedRecord(record, asOf))
  {
    AllDone(record, Schedule(context.Playbook(), {}));
    NothingLeft(record, asOf);
  }

  /** What an uninterrupted call does to a process between calls, from the record it fetches. */
  lemma OneVisit(s0: Sys, context: Context, v: Visit, record: Record)
    requires s0.At(0) == Idle
    requires if s0.row.Some? then s0.row.value == record && record.context == context
             else record == NewRecord(context, v.asOf)
    requires |record.states| == |record.context.Playbook().deps|
    ensures
      var s := Run(StatusAndContext, s0, VisitCall(context, v).Steps());
      match Decide(record, v.asOf)
      case Launch(node, _, next) =>
        node < |next.states| && s.At(0) == Idle && s.row == Some(Outcomed(next, node, v.asOf, Returned(v.outcome)))
      case Checkpoint(next) => s.At(0) == Idle && s.row == Some(next)
      case _ => s.At(0) == Idle && s.row == Some(record)
  {
    var call := VisitCall(context, v);
    AfterEnsure(call, s0);
    AfterAdvance(call, s0, record);
    DecideCases(record, v.asOf);
    if Decide(record, v.asOf).Launch? {
      AfterExecute(call, s0, Decide(record, v.asOf).next, Decide(record, v.asOf).node, Decide(record, v.asOf).resumed);
      CallEnds(call, s0, 5);
    } else {
      CallEnds(call, s0, 3);
    }
  }

  // ---------------------------------------------------------------------------------
  // Exactly when a run is complete
  // ---------------------------------------------------------------------------------

  /** Between calls: halfway, or complete, as the counted calls tell. */
  ghost predicate After(s: Sys, context: Context, created: int, counted: seq<Visit>) {
    var n := |context.Playbook().deps|;
    && s.At(0) == Idle && s.row.Some? && s.row.value.context == context && s.row.value.createdAt == created
    && (if Enough(counted, n) then s.row.value.status == CompletedVerified
        else DoneCount(counted) <= n && exists paused :: Progress(s, context, created, DoneCount(counted), paused))
  }

  /** A call whose clock stands before the record's creation changes nothing. */
  lemma EarlyVisitLeaves(s0: Sys, context: Context, v: Visit)
    requires s0.At(0) == Idle && s0.row.Some? && s0.row.value.context == context && v.asOf < s0.row.value.createdAt
    requires |s0.row.value.states| == |context.Playbook().deps|
    ensures
      var s := Run(StatusAndContext, s0, VisitCall(context, v).Steps());
      s.At(0) == Idle && s.row == s0.row
  {
    OneVisit(s0, context, v, s0.row.value);
    DecideCases(s0.row.value, v.asOf);
  }

  lemma EarlyVisit(s0: Sys, context: Context, created: int, counted: seq<Visit>, v: Visit)
    requires Acyclic(context.Playbook()) && After(s0, context, created, counted) && v.asOf < created
    requires |s0.row.value.states| == |context.Playbook().deps|
    ensures After(Run(StatusAndContext, s0, VisitCall(context, v).Steps()), context, created, counted)
  {
    EarlyVisitLeaves(s0, context, v);
    if !Enough(counted, |context.Playbook().deps|) {
      var paused :| Progress(s0, context, created, DoneCount(counted), paused);
      assert Progress(Run(StatusAndContext, s0, VisitCall(context, v).Steps()), context, created, DoneCount(counted), paused);
    }
  }

  lemma OneMoreCounted(counted: seq<Visit>, v: Visit)
    ensures DoneCount(counted + [v]) == DoneCount(counted) + if v.outcome == Done then 1 else 0
    ensures forall n: nat :: Enough(counted + [v], n) <==> DoneCount(counted) >= n
  {
    assert (counted + [v])[..|counted|] == counted;
  }

  /** A call that marks and records the next node. */
  lemma VisitWorks(s0: Sys, context: Context, created: int, record: Record, done: nat, paused: bool, v: Visit)
    requires Acyclic(context.Playbook()) && s0.At(0) == Idle && created <= v.asOf && v.Goes()
    requires Halfway(record, context, created, done, paused) && done < |context.Playbook().deps|
    requires if s0.row.Some? then s0.row.value == record else record == NewRecord(context, v.asOf)
    ensures
      var s := Run(StatusAndContext, s0, VisitCall(context, v).Steps());
      if v.outcome == Done then Progress(s, context, created, done + 1, false) else Progress(s, context, created, done, true)
  {
    var order := Schedule(context.Playbook(), {});
    MarksNext(record, context, created, done, paused, v.asOf);
    OneVisit(s0, context, v, record);
    RecordsNext(MarkedRecord(record, order[done], v.asOf), order, context, created, done, v);
  }

  /** A call that finds every node completed. */
  lemma VisitFinishes(s0: Sys, context: Context, created: int, record: Record, done: nat, v: Visit)
    requires Acyclic(context.Playbook()) && s0.At(0) == Idle && created <= v.asOf
    requires Halfway(record, context, created, done, false) && done >= |context.Playbook().deps|
    requires if s0.row.Some? then s0.row.value == record else record == NewRecord(context, v.asOf)
    ensures
      var s := Run(StatusAndContext, s0, VisitCall(context, v).Steps());
      s.At(0) == Idle && s.row == Some(CompletedRecord(record, v.asOf))
  {
    RecordCompletes(record, context, created, done, v.asOf);
    OneVisit(s0, context, v, record);
  }

  lemma WorkIsAfter(s: Sys, context: Context, created: int, counted: seq<Visit>, v: Visit)
    requires DoneCount(counted) < |context.Playbook().deps| && v.Goes()
    requires if v.outcome == Done then Progress(s, context, created, DoneCount(counted) + 1, false)
             else Progress(s, context, created, DoneCount(counted), true)
    ensures After(s, context, created, counted + [v])
  {
    OneMoreCounted(counted, v);
  }

  lemma FinishIsAfter(s: Sys, context: Context, created: int, counted: seq<Visit>, v: Visit)
    requires DoneCount(counted) >= |context.Playbook().deps| && s.At(0) == Idle && s.row.Some?
    requires s.row.value.context == context && s.row.value.createdAt == created && s.row.value.status == CompletedVerified
    ensures After(s, context, created, counted + [v])
  {
    OneMoreCounted(counted, v);
  }

  lemma VisitFrom(s0: Sys, context: Context, created: int, record: Record, counted: seq<Visit>, paused: bool, v: Visit)
    requires Acyclic(context.Playbook()) && s0.At(0) == Idle && created <= v.asOf && v.Goes()
    requires Halfway(record, context, created, DoneCount(counted), paused)
    requires DoneCount(counted) <= |context.Playbook().deps|
    requires if s0.row.Some? then s0.row.value == record else record == NewRecord(context, v.asOf)
    ensures After(Run(StatusAndContext, s0, VisitCall(context, v).Steps()), context, created, counted + [v])
  {
    var s := Run(StatusAndContext, s0, VisitCall(context, v).Steps());
    ScheduleLength(context.Playbook());
    if DoneCount(counted) < |context.Playbook().deps| {
      VisitWorks(s0, context, created, record, DoneCount(counted), paused, v);
      WorkIsAfter(s, context, created, counted, v);
    } else {
      VisitFinishes(s0, context, created, record, DoneCount(counted), v);
      FinishIsAfter(s, context, created, counted, v);
    }
  }

  lemma VisitOnceComplete(s0: Sys, context: Context, created: int, counted: seq<Visit>, v: Visit)
    requires s0.At(0) == Idle && s0.row.Some? && s0.row.value.context == context && s0.row.value.createdAt == created
    requires s0.row.value.status == CompletedVerified && Enough(counted, |context.Playbook().deps|)
    ensures After(Run(StatusAndContext, s0, VisitCall(context, v).Steps()), context, created, counted + [v])
  {
    var call := VisitCall(context, v);
    AfterEnsure(call, s0);
    NextStage(call, s0, 2);
    CallEnds(call, s0, 3);
    OneMoreCounted(counted, v);
    assert DoneCount(counted) >= DoneCount(counted[..|counted| - 1]);
  }

  /** The row of a run lists a state for every node. */
  lemma RowFits(context: Context, visits: seq<Visit>)
    requires Acyclic(context.Playbook()) && Run(StatusAndContext, EMPTY, Calls(context, visits)).row.Some?
    ensures
      var record := Run(StatusAndContext, EMPTY, Calls(context, visits)).row.value;
      |record.states| == |record.context.Playbook().deps|
  {
    CallsAreSolo(context, visits);
    AlwaysSafe(Calls(context, visits), context.instance, 0);
  }

  lemma {:induction false} CallsAreSolo(context: Context, visits: seq<Visit>)
    requires Acyclic(context.Playbook())
    ensures Solo(Calls(context, visits), context.instance)
    decreases |visits|
  {
    if visits != [] {
      CallsAreSolo(context, visits[..|visits| - 1]);
      StepsAreSolo(VisitCall(context, visits[|visits| - 1]));
    }
  }

  lemma CallsGrow(context: Context, visits: seq<Visit>)
    requires visits != []
    ensures
      var init, v := visits[..|visits| - 1], visits[|visits| - 1];
      Run(StatusAndContext, EMPTY, Calls(context, visits)) ==
        Run(StatusAndContext, Run(StatusAndContext, EMPTY, Calls(context, init)), VisitCall(context, v).Steps())
  {
    RunAppend(EMPTY, Calls(context, visits[..|visits| - 1]), VisitCall(context, visits[|visits| - 1]).Steps());
  }

  lemma NewIsHalfway(context: Context, asOf: int)
    requires Acyclic(context.Playbook())
    ensures Halfway(NewRecord(context, asOf), context, asOf, 0, false)
  {
    NewRecordFits(context, asOf);
  }

  lemma FirstVisit(context: Context, v: Visit)
    requires Acyclic(context.Playbook()) && v.Goes()
    ensures After(Run(StatusAndContext, EMPTY, VisitCall(context, v).Steps()), context, v.asOf, [v])
  {
    NewIsHalfway(context, v.asOf);
    VisitFrom(EMPTY, context, v.asOf, NewRecord(context, v.asOf), [], false, v);
    assert [] + [v] == [v];
  }

  lemma AnotherVisit(s0: Sys, context: Context, created: int, counted: seq<Visit>, v: Visit)
    requires Acyclic(context.Playbook()) && After(s0, context, created, counted) && created <= v.asOf && v.Goes()
    ensures After(Run(StatusAndContext, s0, VisitCall(context, v).Steps()), context, created, counted + [v])
  {
    if Enough(counted, |context.Playbook().deps|) {
      VisitOnceComplete(s0, context, created, counted, v);
    } else {
      var paused :| Progress(s0, context, created, DoneCount(counted), paused);
      VisitFrom(s0, context, created, s0.row.value, counted, paused, v);
    }
  }

  lemma CountedGrows(visits: seq<Visit>, created: int)
    requires visits != []
    ensures
      var init, v := visits[..|visits| - 1], visits[|visits| - 1];
      Counted(visits, created) == if v.asOf >= created then Counted(init, created) + [v] else Counted(init, created)
  {
  }

  lemma NextVisit(s0: Sys, context: Context, created: int, counted: seq<Visit>, v: Visit)
    requires Acyclic(context.Playbook()) && After(s0, context, created, counted) && v.Goes()
    requires |s0.row.value.states| == |context.Playbook().deps|
    ensures After(Run(StatusAndContext, s0, VisitCall(context, v).Steps()), context, created,
                  if v.asOf >= created then counted + [v] else counted)
  {
    if v.asOf < created {
      EarlyVisit(s0, context, created, counted, v);
    } else {
      AnotherVisit(s0, context, created, counted, v);
    }
  }

  lemma ProgressOfFirst(context: Context, v: Visit)
    requires Acyclic(context.Playbook()) && v.Goes()
    ensures After(Run(StatusAndContext, EMPTY, Calls(context, [v])), context, v.asOf, Counted([v], v.asOf))
  {
    FirstVisit(context, v);
    CallsGrow(context, [v]);
    assert Counted([v], v.asOf) == [] + [v];
  }

  lemma {:induction false} ProgressOfCalls(context: Context, visits: seq<Visit>)
    requires Acyclic(context.Playbook()) && visits != [] && forall i | 0 <= i < |visits| :: visits[i].Goes()
    ensures After(Run(StatusAndContext, EMPTY, Calls(context, visits)), context, visits[0].asOf,
                  Counted(visits, visits[0].asOf))
    decreases |visits|
  {
    var init, v := visits[..|visits| - 1], visits[|visits| - 1];
    if init == [] {
      ProgressOfFirst(context, v);
      assert visits == [v];
    } else {
      CallsGrow(context, visits);
      CountedGrows(visits, visits[0].asOf);
      ProgressOfCalls(context, init);
      RowFits(context, init);
      NextVisit(Run(StatusAndContext, EMPTY, Calls(context, init)), context, visits[0].asOf,
                Counted(init, visits[0].asOf), v);
    }
  }

  /**
   A run of completed and paused outcomes is verified complete exactly when, of the calls
   whose clock has reached the first call's, those before the last completed every node:
   it takes n calls that complete, one for every pause, and one more.
   */
  lemma CompletesExactly(context: Context, visits: seq<Visit>)
    requires Acyclic(context.Playbook()) && visits != [] && forall i | 0 <= i < |visits| :: visits[i].Goes()
    ensures
      var row := Run(StatusAndContext, EMPTY, Calls(context, visits)).row;
      row.Some? && (row.value.status == CompletedVerified <==>
                    Enough(Counted(visits, visits[0].asOf), |context.Playbook().deps|))
  {
    ProgressOfCalls(context, visits);
    var s, counted := Run(StatusAndContext, EMPTY, Calls(context, visits)), Counted(visits, visits[0].asOf);
    if !Enough(counted, |context.Playbook().deps|) {
      var paused :| Progress(s, context, visits[0].asOf, DoneCount(counted), paused);
      HalfwayIsOpen(s.row.value, context, visits[0].asOf, DoneCount(counted), paused);
    }
  }

  lemma HalfwayIsOpen(record: Record, context: Context, created: int, done: nat, paused: bool)
    requires Halfway(record, context, created, done, paused)
    ensures record.status != CompletedVerified
  {
    var order := Schedule(context.Playbook(), {});
    if paused {
      assert StatusFits(record.status, record.states[order[done]], done + 1 == |order|);
    }
  }

  /** How many of the clock readings have reached the first. */
  function Reached(times: seq<int>, created: int): nat {
    if times == [] then 0
    else Reached(times[..|times| - 1], created) + if times[|times| - 1] >= created then 1 else 0
  }

  function AllDoneAt(times: seq<int>): seq<Visit> {
    seq(|times|, i requires 0 <= i < |times| => Visit(times[i], Done))
  }

  lemma {:induction false} AllDoneCounts(times: seq<int>, created: int)
    ensures
      var counted := Counted(AllDoneAt(times), created);
      |counted| == Reached(times, created) && forall i | 0 <= i < |counted| :: counted[i].outcome == Done
    decreases |times|
  {
    if times != [] {
      AllDoneCounts(times[..|times| - 1], created);
      assert AllDoneAt(times)[..|times| - 1] == AllDoneAt(times[..|times| - 1]);
    }
  }

  lemma {:induction false} DoneCountAll(visits: seq<Visit>)
    requires forall i | 0 <= i < |visits| :: visits[i].outcome == Done
    ensures DoneCount(visits) == |visits|
  {
    if visits != [] {
      DoneCountAll(visits[..|visits| - 1]);
    }
  }

  /** With every outcome completed: exactly n + 1 calls, whatever the clocks. */
  lemma CompletesInExactly(context: Context, times: seq<int>)
    requires Acyclic(context.Playbook()) && times != []
    ensures
      var row := Run(StatusAndContext, EMPTY, Calls(context, AllDoneAt(times))).row;
      row.Some? && (row.value.status == CompletedVerified <==>
                    Reached(times, times[0]) >= |context.Playbook().deps| + 1)
  {
    var counted := Counted(AllDoneAt(times), times[0]);
    CompletesExactly(context, AllDoneAt(times));
    AllDoneCounts(times, times[0]);
    if counted != [] {
      DoneCountAll(counted[..|counted| - 1]);
    }
  }
}
