/**
 Runners that overlap between fetch and first checkpoint, under the source's own compare of
 status and context digest: every interleaving keeps the dispatch discipline exactly for
 playbooks of at most one node.
 */
module PlaybookOverlap {
  import opened Common
  import opened PlaybookApprovals
  import opened PlaybookDag
  import opened PlaybookReplies
  import opened PlaybookRun
  import opened PlaybookSafety
  import opened PlaybookTheorems
  import opened PlaybookRunner
  import opened PlaybookOutcomes

  /** All calls are for this run. */
  ghost predicate AllFor(acts: seq<Act>, context: Context) {
    forall i | 0 <= i < |acts| && acts[i].Fetch? :: acts[i].context == context
  }

  // ---------------------------------------------------------------------------------
  // Two nodes or more: a completed node can run again
  // ---------------------------------------------------------------------------------

  const FIRST := Visit(0, Done)

  /** Runner 0 completes the first node; runner 1 fetches; runner 0 completes the second. */
  function Setup(context: Context): seq<Act> {
    VisitCall(context, FIRST).Steps() + [Fetch(1, context, 0)] + VisitCall(context, FIRST).Steps()
  }

  /** Runner 1 then acts on the record it still holds. */
  function Overlap(context: Context): seq<Act> {
    Setup(context) + [Advance(1), Execute(1)]
  }

  lemma {:induction false} OthersUntouched(s: Sys, acts: seq<Act>)
    requires forall i | 0 <= i < |acts| :: acts[i].who == 0
    ensures Run(StatusAndContext, s, acts).At(1) == s.At(1)
    decreases |acts|
  {
    if acts != [] {
      OthersUntouched(s, acts[..|acts| - 1]);
    }
  }

  lemma StepsAreZero(context: Context)
    ensures forall i | 0 <= i < |VisitCall(context, FIRST).Steps()| :: VisitCall(context, FIRST).Steps()[i].who == 0
  {
  }

  /** The stored record is always one that some checkpoint in the log wrote. */
  lemma {:induction false} RowIsLogged(acts: seq<Act>) returns (i: nat)
    requires Run(StatusAndContext, EMPTY, acts).row.Some?
    ensures
      var s := Run(StatusAndContext, EMPTY, acts);
      i < |s.log| && s.log[i].Saved? && s.log[i].record == s.row.value
    decreases |acts|
  {
    var init, act := acts[..|acts| - 1], acts[|acts| - 1];
    var s := Run(StatusAndContext, EMPTY, init);
    StepExtendsLog(s, act);
    NewRowIsLast(s, act);
    if Run(StatusAndContext, EMPTY, acts).row == s.row {
      i := RowIsLogged(init);
    } else {
      i := |Run(StatusAndContext, EMPTY, acts).log| - 1;
    }
  }

  lemma NewRowIsLast(s: Sys, act: Act)
    ensures
      var s' := Apply(StatusAndContext, s, act);
      s'.row != s.row ==>
        s'.row.Some? && s'.log != [] && s'.log[|s'.log| - 1].Saved? && s'.log[|s'.log| - 1].record == s'.row.value
  {
  }

  lemma SetupSplits(context: Context)
    ensures
      var steps := VisitCall(context, FIRST).Steps();
      var s1 := Run(StatusAndContext, EMPTY, steps);
      Run(StatusAndContext, EMPTY, Setup(context)) ==
        Run(StatusAndContext, Apply(StatusAndContext, s1, Fetch(1, context, 0)), steps)
  {
    var steps := VisitCall(context, FIRST).Steps();
    RunAppend(EMPTY, steps + [Fetch(1, context, 0)], steps);
    RunOne(EMPTY, steps, Fetch(1, context, 0));
  }

  /** After the setup: the first two nodes are completed, and runner 1 holds the record before the second. */
  lemma AfterSetup(context: Context) returns (half: Record)
    requires Acyclic(context.Playbook()) && |context.Playbook().deps| >= 2
    ensures
      var s := Run(StatusAndContext, EMPTY, Setup(context));
      Progress(s, context, 0, 2, false) && s.At(1) == Holding(half, 0) && Halfway(half, context, 0, 1, false)
  {
    var steps := VisitCall(context, FIRST).Steps();
    var s1 := Run(StatusAndContext, EMPTY, steps);
    StepsAreZero(context);
    NewIsHalfway(context, 0);
    VisitWorks(EMPTY, context, 0, NewRecord(context, 0), 0, false, FIRST);
    OthersUntouched(EMPTY, steps);
    half := s1.row.value;
    var s2 := Apply(StatusAndContext, s1, Fetch(1, context, 0));
    VisitWorks(s2, context, 0, half, 1, false, FIRST);
    OthersUntouched(s2, steps);
    SetupSplits(context);
  }

  /** The stale checkpoint is accepted. */
  lemma StaleMark(s: Sys, context: Context, half: Record)
    requires Acyclic(context.Playbook()) && |context.Playbook().deps| >= 2
    requires Progress(s, context, 0, 2, false) && s.At(1) == Holding(half, 0) && Halfway(half, context, 0, 1, false)
    ensures
      var order := Schedule(context.Playbook(), {});
      && |order| >= 2 && order[1] < |s.row.value.states| && s.row.value.states[order[1]] == Completed
      && order[1] < |half.states|
      && Apply(StatusAndContext, s, Advance(1)) ==
           s.Save(1, MarkedRecord(half, order[1], 0), Marked(MarkedRecord(half, order[1], 0), 0, order[1], false))
  {
    ScheduleLength(context.Playbook());
    LaunchesNext(half, Schedule(context.Playbook(), {}), 1, 0);
    AdvanceEffect(StatusAndContext, s, 1);
  }

  lemma MarkThenExecute(s: Sys, marked: Record, node: nat)
    ensures
      var s' := Apply(StatusAndContext, s.Save(1, marked, Marked(marked, 0, node, false)), Execute(1));
      |s'.log| == |s.log| + 2 && s.log <= s'.log && s'.log[|s.log| + 1] == Dispatched(node, false)
  {
  }

  /** The second node is dispatched as if new. */
  lemma StaleRunnerDispatches(s: Sys, context: Context, half: Record) returns (node: nat)
    requires Acyclic(context.Playbook()) && |context.Playbook().deps| >= 2
    requires Progress(s, context, 0, 2, false) && s.At(1) == Holding(half, 0) && Halfway(half, context, 0, 1, false)
    ensures
      var s' := Apply(StatusAndContext, Apply(StatusAndContext, s, Advance(1)), Execute(1));
      && node < |s.row.value.states| && s.row.value.states[node] == Completed
      && |s'.log| == |s.log| + 2 && s.log <= s'.log && s'.log[|s.log| + 1] == Dispatched(node, false)
  {
    StaleMark(s, context, half);
    node := Schedule(context.Playbook(), {})[1];
    MarkThenExecute(s, MarkedRecord(half, node, 0), node);
  }

  /** The setup leaves the second node completed, and the overlap then dispatches it. */
  lemma SecondNodeAgain(context: Context) returns (node: nat)
    requires Acyclic(context.Playbook()) && |context.Playbook().deps| >= 2
    ensures
      var s, s' := Run(StatusAndContext, EMPTY, Setup(context)), Run(StatusAndContext, EMPTY, Overlap(context));
      && s.row.Some? && node < |s.row.value.states| && s.row.value.states[node] == Completed
      && |s'.log| == |s.log| + 2 && s.log <= s'.log && s'.log[|s.log| + 1] == Dispatched(node, false)
  {
    var half := AfterSetup(context);
    node := StaleRunnerDispatches(Run(StatusAndContext, EMPTY, Setup(context)), context, half);
    OverlapRuns(context);
  }

  /** Where the log of the overlap shows the completion and the second dispatch. */
  lemma OverlapShows(context: Context) returns (node: nat, j: nat, k: nat)
    requires Acyclic(context.Playbook()) && |context.Playbook().deps| >= 2
    ensures
      var log := Run(StatusAndContext, EMPTY, Overlap(context)).log;
      j < k == |log| - 1 && SavedIn(log[j], node, Completed) && log[k] == Dispatched(node, false)
  {
    node := SecondNodeAgain(context);
    j := RowIsLogged(Setup(context));
    k := |Run(StatusAndContext, EMPTY, Setup(context)).log| + 1;
  }

  /** On every acyclic playbook of two or more nodes a completed node can be dispatched again. */
  lemma CompletedNodesCanRunAgain(context: Context)
    requires Acyclic(context.Playbook()) && |context.Playbook().deps| >= 2
    ensures AllFor(Overlap(context), context)
    ensures
      var log := Run(StatusAndContext, EMPTY, Overlap(context)).log;
      exists node, j, k :: 0 <= j < k < |log| && SavedIn(log[j], node, Completed) && log[k] == Dispatched(node, false)
    ensures !Disciplined(Run(StatusAndContext, EMPTY, Overlap(context)).log)
  {
    var node, j, k := OverlapShows(context);
    OverlapIsForOneRun(context);
    NotDisciplined(Run(StatusAndContext, EMPTY, Overlap(context)).log, node, j);
  }

  lemma OverlapIsForOneRun(context: Context)
    ensures AllFor(Overlap(context), context)
  {
    var steps := VisitCall(context, FIRST).Steps();
    assert AllFor(steps, context);
    assert Overlap(context) == steps + ([Fetch(1, context, 0)] + (steps + [Advance(1), Execute(1)]));
  }

  lemma OverlapRuns(context: Context)
    ensures Run(StatusAndContext, EMPTY, Overlap(context)) ==
      Apply(StatusAndContext, Apply(StatusAndContext, Run(StatusAndContext, EMPTY, Setup(context)), Advance(1)), Execute(1))
  {
    RunOne(EMPTY, Setup(context), Advance(1));
    RunOne(EMPTY, Setup(context) + [Advance(1)], Execute(1));
    assert Setup(context) + [Advance(1)] + [Execute(1)] == Overlap(context);
  }

  lemma NotDisciplined(log: seq<Event>, node: nat, j: nat)
    requires j < |log| - 1 && SavedIn(log[j], node, Completed) && log[|log| - 1] == Dispatched(node, false)
    ensures !Disciplined(log)
  {
    assert SavedIn(log[..|log| - 1][j], node, Completed);
    assert SavedAfter(log[..|log| - 1], -1, node, Completed);
  }

  // ---------------------------------------------------------------------------------
  // At most one node: every interleaving is disciplined
  // ---------------------------------------------------------------------------------

  /** With one node, the run status tells its state, up to running and completed. */
  predicate StatusTells(record: Record) {
    |record.states| == 1 ==>
      match record.status
      case Planned => record.states[0] == Pending
      case AwaitingApproval => record.states[0] == Paused
      case AwaitingObservation => record.states[0] == Paused
      case Running => record.states[0] == NodeRunning || record.states[0] == Completed
      case _ => true
  }

  /** Some checkpoint recorded the first node as completed. */
  ghost predicate CompletedOnce(log: seq<Event>) {
    SavedAfter(log, -1, 0, Completed)
  }

  /** A record that some runner holds, next to the stored one. */
  predicate Fits(pc: Pc, completed: bool, stored: Record) {
    (pc.Holding? || Active(pc)) ==>
      && pc.record.context == stored.context && pc.record.createdAt == stored.createdAt
      && |pc.record.states| == |stored.states| && StatusTells(pc.record)
      && (pc.Holding? && |pc.record.states| == 1 && pc.record.states[0] == Completed ==> completed)
  }

  ghost predicate AllFit(s: Sys) {
    s.row.Some? ==> forall w :: Fits(s.At(w), CompletedOnce(s.log), s.row.value)
  }

  /** A parked row without anyone at work: nothing will be dispatched any more. */
  ghost predicate Settled(s: Sys) {
    && Quiescent(s) && Disciplined(s.log)
    && forall x: nat | x < |s.row.value.states| :: s.row.value.states[x] != Completed
  }

  /** Everyone works on this run, whose records list the nodes of its playbook. */
  ghost predicate SameRun(s: Sys, context: Context) {
    && (forall w | s.At(w).Creating? :: s.At(w).context == context)
    && (s.row.Some? ==> s.row.value.context == context && |s.row.value.states| == |context.Playbook().deps|)
  }

  ghost predicate SmallInv(s: Sys, k: nat, context: Context) {
    && (Inv(s, k) || Settled(s)) && SameRun(s, context) && AllFit(s)
  }

  lemma ShapeTells(order: seq<nat>, record: Record, k: nat)
    requires RunnersOrder(record.context.Playbook(), order) && Shape(order, record, k) && |record.states| <= 1
    ensures StatusTells(record)
  {
    if |record.states| == 1 {
      var i := StateAt(order, record, k, 0);
      assert i == 0;
    }
  }

  lemma CompletedIsSaved(s: Sys, k: nat)
    requires Inv(s, k) && s.row.Some? && |s.row.value.states| == 1 && s.row.value.states[0] == Completed
    ensures CompletedOnce(s.log)
  {
    var i :| 0 <= i < |s.log| && s.log[i].Dispatched? && s.log[i].node == 0;
    var j :| i < j < |s.log| && 0 <= j && SavedIn(s.log[j], 0, Completed);
  }

  /** The stored record fits whoever fetches it. */
  lemma StoredFits(s: Sys, k: nat, context: Context)
    requires SmallInv(s, k, context) && s.row.Some? && |context.Playbook().deps| <= 1
    ensures StatusTells(s.row.value)
    ensures |s.row.value.states| == 1 && s.row.value.states[0] == Completed ==> CompletedOnce(s.log)
  {
    if Inv(s, k) {
      ShapeTells(Schedule(context.Playbook(), {}), s.row.value, k);
      if |s.row.value.states| == 1 && s.row.value.states[0] == Completed {
        CompletedIsSaved(s, k);
      }
    }
  }

  lemma CompletedStays(log: seq<Event>, later: seq<Event>)
    requires log <= later
    ensures CompletedOnce(log) ==> CompletedOnce(later)
  {
    if CompletedOnce(log) {
      var j :| -1 < j < |log| && 0 <= j && SavedIn(log[j], 0, Completed);
      assert SavedIn(later[j], 0, Completed);
    }
  }

  /** What a checkpoint may do to the stored record, as far as held records care. */
  predicate SameShape(record: Record, next: Record) {
    next.context == record.context && next.createdAt == record.createdAt && |next.states| == |record.states|
  }

  lemma FitsLater(pc: Pc, completed: bool, later: bool, stored: Record, next: Record)
    requires Fits(pc, completed, stored) && (completed ==> later) && SameShape(stored, next)
    ensures Fits(pc, later, next)
  {
  }

  /** The first checkpoint of a call: its record keeps its run, and its holder marks a node or is done. */
  lemma AdvanceFits(s: Sys, who: nat, completed: bool)
    requires s.row.Some? && s.At(who).Holding? && Fits(s.At(who), completed, s.row.value)
    ensures
      var s' := Apply(StatusAndContext, s, Advance(who));
      s'.row.Some? && SameShape(s.row.value, s'.row.value) && Fits(s'.At(who), completed, s'.row.value)
  {
    var pc := s.At(who);
    AdvanceEffect(StatusAndContext, s, who);
    if Acts(StatusAndContext, s, who) {
      DecideCases(pc.record, pc.asOf);
    }
  }

  lemma ReportFits(s: Sys, who: nat, reply: Reply, completed: bool)
    requires s.row.Some? && Active(s.At(who)) && Fits(s.At(who), completed, s.row.value)
    ensures
      var s' := Apply(StatusAndContext, s, Report(who, reply));
      s'.row.Some? && SameShape(s.row.value, s'.row.value) && Fits(s'.At(who), completed, s'.row.value)
  {
    ReportEffect(StatusAndContext, s, who, reply);
  }

  /** Who acts next holds a fitting record too. */
  lemma ActorFits(s: Sys, k: nat, context: Context, act: Act)
    requires SmallInv(s, k, context) && s.row.Some? && |context.Playbook().deps| <= 1
    ensures
      var s' := Apply(StatusAndContext, s, act);
      s'.row.Some? && SameShape(s.row.value, s'.row.value)
      && Fits(s'.At(act.who), CompletedOnce(s.log), s'.row.value)
  {
    var completed := CompletedOnce(s.log);
    assert Fits(s.At(act.who), completed, s.row.value);
    if act.Fetch? {
      StoredFits(s, k, context);
    } else if act.Advance? && s.At(act.who).Holding? {
      AdvanceFits(s, act.who, completed);
    } else if act.Report? && Active(s.At(act.who)) {
      ReportFits(s, act.who, act.reply, completed);
    }
  }

  lemma OthersStand(s: Sys, act: Act)
    ensures forall w | w != act.who :: Apply(StatusAndContext, s, act).At(w) == s.At(w)
  {
  }

  /** The others' records go on fitting. */
  lemma OthersFit(s: Sys, s': Sys, who: nat)
    requires s.row.Some? && s'.row.Some? && AllFit(s) && SameShape(s.row.value, s'.row.value)
    requires CompletedOnce(s.log) ==> CompletedOnce(s'.log)
    requires forall w | w != who :: s'.At(w) == s.At(w)
    requires Fits(s'.At(who), CompletedOnce(s.log), s'.row.value)
    ensures AllFit(s')
  {
    forall w: nat ensures Fits(s'.At(w), CompletedOnce(s'.log), s'.row.value) {
      FitsLater(if w == who then s'.At(w) else s.At(w), CompletedOnce(s.log), CompletedOnce(s'.log),
                if w == who then s'.row.value else s.row.value, s'.row.value);
    }
  }

  /** Every runner's record still fits after a step. */
  lemma FitsAfterStep(s: Sys, k: nat, context: Context, act: Act)
    requires SmallInv(s, k, context) && s.row.Some? && |context.Playbook().deps| <= 1
    ensures
      var s' := Apply(StatusAndContext, s, act);
      s'.row.Some? && SameShape(s.row.value, s'.row.value) && AllFit(s')
  {
    var s' := Apply(StatusAndContext, s, act);
    StepExtendsLog(s, act);
    CompletedStays(s.log, s'.log);
    ActorFits(s, k, context, act);
    OthersStand(s, act);
    OthersFit(s, s', act.who);
  }

  // ---------------------------------------------------------------------------------
  // One step
  // ---------------------------------------------------------------------------------

  /** In a settled state nothing is written and nobody starts. */
  lemma SettledStays(s: Sys, act: Act)
    requires Settled(s)
    ensures Settled(Apply(StatusAndContext, s, act))
  {
    QuiescentStays(StatusAndContext, s, act);
  }

  /** Records that differ only in their last change decide the same. */
  lemma DecidesTheSame(held: Record, stored: Record, asOf: int)
    requires held == stored.(updatedAt := held.updatedAt, reason := held.reason)
    requires |stored.states| == |stored.context.Playbook().deps|
    ensures Decide(held, asOf) == Decide(stored, asOf)
  {
    if !Terminal(stored.status) {
      assert ParkedRecord(held, asOf) == ParkedRecord(stored, asOf);
      assert CompletedRecord(held, asOf) == CompletedRecord(stored, asOf);
      assert forall node: nat | node < |stored.states| :: MarkedRecord(held, node, asOf) == MarkedRecord(stored, node, asOf);
    }
  }

  /** A stale record that shows the same states is as good as the stored one. */
  lemma TwinStep(s: Sys, who: nat, k: nat) returns (k': nat)
    requires Inv(s, k) && Acts(StatusAndContext, s, who)
    requires s.row.value.states == s.At(who).record.states && s.row.value.createdAt == s.At(who).record.createdAt
    ensures Inv(Apply(StatusAndContext, s, Advance(who)), k')
  {
    var pc, twin := s.At(who), s.Move(who, Holding(s.row.value, s.At(who).asOf));
    PassiveMove(s, k, who, Holding(s.row.value, pc.asOf));
    DecidesTheSame(pc.record, s.row.value, pc.asOf);
    k' := AdvanceStep(StatusAndContext, twin, who, k);
    AdvanceEffect(StatusAndContext, s, who);
    AdvanceEffect(StatusAndContext, twin, who);
    SameOverride(s, twin, who, pc.asOf);
  }

  /** Whatever the runner held before, its step leaves the same machine. */
  lemma SameOverride(s: Sys, twin: Sys, who: nat, asOf: int)
    requires s.row.Some? && twin == s.Move(who, Holding(s.row.value, asOf))
    ensures forall next, pc :: twin.Save(who, next, pc) == s.Save(who, next, pc)
    ensures twin.Move(who, Idle) == s.Move(who, Idle)
  {
    forall next, pc ensures twin.Save(who, next, pc) == s.Save(who, next, pc) {
      assert twin.pcs[who := pc] == s.pcs[who := pc];
    }
    assert twin.pcs[who := Idle] == s.pcs[who := Idle];
  }

  lemma ParkedIsSettled(s: Sys, who: nat, next: Record)
    requires s.row.Some? && Disciplined(s.log) && forall w :: !Active(s.At(w))
    requires Terminal(next.status) && forall x: nat | x < |next.states| :: next.states[x] != Completed
    ensures Settled(s.Save(who, next, Idle))
  {
    LogGrows(s.log, Saved(Some(s.row.value.status), next));
    assert forall w :: s.Save(who, next, Idle).At(w) == if w == who then Idle else s.At(w);
  }

  /** The one node is completed, and a runner that saw it running parks it again: the run is settled. */
  lemma ParksAfterCompletion(s: Sys, who: nat, k: nat)
    requires Inv(s, k) && Acts(StatusAndContext, s, who) && s.row.value.status == Running
    requires s.row.value.states == [Completed] && s.At(who).record.states == [NodeRunning]
    ensures
      var s' := Apply(StatusAndContext, s, Advance(who));
      s' == s.Move(who, Idle) || Settled(s')
  {
    var pc := s.At(who);
    AdvanceEffect(StatusAndContext, s, who);
    assert 0 in NodesWith(pc.record.states, NodeRunning);
    NoneActive(s, k);
    ParkedIsSettled(s, who, ParkedRecord(pc.record, pc.asOf));
  }

  /** Held and stored record of the same status show the same state, or the stored one has completed since. */
  lemma HeldOrCompleted(s: Sys, k: nat, context: Context, who: nat)
    requires SmallInv(s, k, context) && Inv(s, k) && |context.Playbook().deps| <= 1
    requires Acts(StatusAndContext, s, who) && !Terminal(s.row.value.status)
    ensures
      var held, stored := s.At(who).record, s.row.value;
      held.createdAt == stored.createdAt &&
      (held.states == stored.states ||
       (stored.status == Running && held.states == [NodeRunning] && stored.states == [Completed]))
  {
    var held, stored := s.At(who).record, s.row.value;
    assert Fits(s.At(who), CompletedOnce(s.log), stored);
    StoredFits(s, k, context);
    if |stored.states| == 1 {
      assert held.states == [held.states[0]] && stored.states == [stored.states[0]];
      if held.states[0] == Completed {
        assert SavedAfter(s.log, -1, 0, Completed);
        assert stored.states[0] == Completed;
      }
    }
  }

  lemma SmallAdvance(s: Sys, k: nat, context: Context, who: nat) returns (k': nat)
    requires SmallInv(s, k, context) && Inv(s, k) && |context.Playbook().deps| <= 1 && s.At(who).Holding?
    ensures
      var s' := Apply(StatusAndContext, s, Advance(who));
      Inv(s', k') || Settled(s')
  {
    k' := k;
    AdvanceEffect(StatusAndContext, s, who);
    PassiveMove(s, k, who, Idle);
    if Acts(StatusAndContext, s, who) {
      if Terminal(s.row.value.status) {
        TerminalKeepsRow(StatusAndContext, s, who);
      } else {
        HeldOrCompleted(s, k, context, who);
        if s.At(who).record.states == s.row.value.states {
          k' := TwinStep(s, who, k);
        } else {
          ParksAfterCompletion(s, who, k);
        }
      }
    }
  }

  lemma SafeOrSettled(s: Sys, k: nat, context: Context, act: Act) returns (k': nat)
    requires SmallInv(s, k, context) && |context.Playbook().deps| <= 1 && ActiveRunning(s) && ValidAct(act)
    ensures
      var s' := Apply(StatusAndContext, s, act);
      Inv(s', k') || Settled(s')
  {
    k' := k;
    if !Inv(s, k) {
      SettledStays(s, act);
    } else if act.Advance? && s.At(act.who).Holding? {
      k' := SmallAdvance(s, k, context, act.who);
    } else {
      if act.Report? {
        ReportIsExact(s, act, k);
      }
      k' := InvStep(StatusAndContext, s, act, k);
    }
  }

  /** The first write inserts the fresh record of this run. */
  lemma FirstWriteFits(s: Sys, k: nat, context: Context, act: Act)
    requires SmallInv(s, k, context) && s.row.None? && (act.Fetch? ==> act.context == context)
    ensures
      var s' := Apply(StatusAndContext, s, act);
      SameRun(s', context) && AllFit(s')
  {
    var s' := Apply(StatusAndContext, s, act);
    OthersStand(s, act);
    assert forall w :: !Active(s.At(w)) && !s.At(w).Holding?;
    if s'.row.Some? {
      forall w: nat ensures Fits(s'.At(w), CompletedOnce(s'.log), s'.row.value) {
        assert w != act.who ==> s'.At(w) == s.At(w);
      }
    }
  }

  lemma CreatorsStay(s: Sys, context: Context, act: Act)
    requires forall w | s.At(w).Creating? :: s.At(w).context == context
    requires act.Fetch? ==> act.context == context
    ensures forall w | Apply(StatusAndContext, s, act).At(w).Creating? :: Apply(StatusAndContext, s, act).At(w).context == context
  {
    var s' := Apply(StatusAndContext, s, act);
    OthersStand(s, act);
    assert s'.At(act.who).Creating? ==> s'.At(act.who).context == context;
  }

  lemma SmallStep(s: Sys, k: nat, context: Context, act: Act) returns (k': nat)
    requires SmallInv(s, k, context) && |context.Playbook().deps| <= 1 && ActiveRunning(s)
    requires Acyclic(context.Playbook()) && (act.Fetch? ==> act.context == context)
    ensures SmallInv(Apply(StatusAndContext, s, act), k', context)
  {
    k' := SafeOrSettled(s, k, context, act);
    if s.row.None? {
      FirstWriteFits(s, k, context, act);
    } else {
      FitsAfterStep(s, k, context, act);
      CreatorsStay(s, context, act);
    }
  }

  lemma {:induction false} SmallRuns(acts: seq<Act>, context: Context) returns (k: nat)
    requires Acyclic(context.Playbook()) && |context.Playbook().deps| <= 1 && AllFor(acts, context)
    ensures SmallInv(Run(StatusAndContext, EMPTY, acts), k, context)
    decreases |acts|
  {
    if acts == [] {
      k := 0;
    } else {
      var before := acts[..|acts| - 1];
      var k0 := SmallRuns(before, context);
      RunsAreLoose(StatusAndContext, before);
      k := SmallStep(Run(StatusAndContext, EMPTY, before), k0, context, acts[|acts| - 1]);
    }
  }

  /**
   The condition under which overlapping runners are harmless, for every acyclic playbook:
   all interleavings keep the dispatch discipline exactly if there is at most one node.
   */
  lemma DisciplineExactly(context: Context)
    requires Acyclic(context.Playbook())
    ensures (forall acts | AllFor(acts, context) :: Disciplined(Run(StatusAndContext, EMPTY, acts).log)) <==>
      |context.Playbook().deps| <= 1
  {
    if |context.Playbook().deps| <= 1 {
      forall acts | AllFor(acts, context) ensures Disciplined(Run(StatusAndContext, EMPTY, acts).log) {
        var k := SmallRuns(acts, context);
      }
    } else {
      CompletedNodesCanRunAgain(context);
    }
  }

  // ---------------------------------------------------------------------------------
  // A playbook the manifest accepts
  // ---------------------------------------------------------------------------------

  /** Every node waits for the one before it. */
  function InARow(n: nat): Dag {
    Dag(seq(n, i => if i <= 0 then {} else {i - 1}))
  }

  lemma InARowDepends(n: nat)
    ensures forall i: nat, d: nat {:trigger DependsOn(InARow(n), i, d)} :: DependsOn(InARow(n), i, d) ==> d < i < n
  {
  }

  lemma InARowIsAcyclic(n: nat)
    ensures Acyclic(InARow(n))
  {
    InARowDepends(n);
    assert InARow(n).Closed() by {
      forall i, d | 0 <= i < n && d in InARow(n).deps[i] ensures d < i {
        assert DependsOn(InARow(n), i, d);
      }
    }
    assert Ranks(InARow(n), map i: nat | i in Below(n) :: i);
  }

  /** Plan, approval, write, verification and checkpoint: one node of each required kind. */
  const ROLES := [OtherRole, Approval(0), Write(0), OtherRole, OtherRole]

  lemma OneWriteIsApproved()
    ensures WritesAreApproved(InARow(5), ROLES)
  {
    assert DependsOn(InARow(5), 2, 1);
    NeedsDirectly(InARow(5), 2, 1);
    assert ROLES[1] == Approval(0);
    assert 1 in ApprovalsFor(ROLES, 0);
    forall x: nat | x < |ROLES| && ROLES[x].Write? ensures x == 2 {}
    forall d | d in ApprovalsFor(ROLES, 0) ensures d == 1 {}
  }

  /** So on the five nodes in a row that a manifest accepts a completed node can run again. */
  lemma AcceptedPlaybookRunsTwice(context: Context)
    requires context.Playbook() == InARow(5)
    ensures Acyclic(context.Playbook()) && WritesAreApproved(context.Playbook(), ROLES)
    ensures
      var log := Run(StatusAndContext, EMPTY, Overlap(context)).log;
      exists node, j, k :: 0 <= j < k < |log| && SavedIn(log[j], node, Completed) && log[k] == Dispatched(node, false)
  {
    InARowIsAcyclic(5);
    OneWriteIsApproved();
    CompletedNodesCanRunAgain(context);
  }
}
