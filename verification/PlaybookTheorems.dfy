/**
 Theorems over whole runs of the durable playbook machine.

 Under any interleaving of any number of runners, with a crash allowed after every durable
 write, the stored row never goes back. Runs in which no runner acts on a record that
 another has replaced since it was fetched, and all runs under a whole-record compare,
 dispatch nodes in the runner's order and never repeat an unrecorded or completed dispatch.
 The calls of one process are such runs, also when they overlap in an executor's await.
 */
module PlaybookTheorems {
  import opened Common
  import opened PlaybookDag
  import opened PlaybookRun
  import opened PlaybookSafety

  // ---------------------------------------------------------------------------------
  // Any interleaving, either compare
  // ---------------------------------------------------------------------------------

  /** A runner between marking and recording holds a record with status RUNNING. */
  ghost predicate ActiveRunning(s: Sys) {
    forall w | Active(s.At(w)) :: s.At(w).record.status == Running
  }

  /** How often a checkpoint replaced a PLANNED row. */
  function PlannedLeft(log: seq<Event>): nat {
    if log == [] then 0 else
    PlannedLeft(log[..|log| - 1]) +
      if log[|log| - 1].Saved? && log[|log| - 1].before == Some(Planned) then 1 else 0
  }

  ghost predicate Loose(s: Sys) {
    && ActiveRunning(s)
    && PlannedLeft(s.log) <= (if s.row.Some? && s.row.value.status != Planned then 1 else 0)
  }

  /** What a step may do to the stored row, whoever takes it. */
  predicate RowMoves(row: Option<Record>, next: Option<Record>) {
    row.Some? ==>
      && next.Some? && next.value.context == row.value.context
      && (Terminal(row.value.status) ==> next == row)
      && (next != row ==> next.value.status != Planned)
  }

  lemma SaveCounts(s: Sys, who: nat, next: Record, pc: Pc)
    ensures PlannedLeft(s.Save(who, next, pc).log) ==
      PlannedLeft(s.log) + if s.row.Some? && s.row.value.status == Planned then 1 else 0
  {
    var e := Saved(if s.row.Some? then Some(s.row.value.status) else None, next);
    assert (s.log + [e])[..|s.log|] == s.log;
  }

  lemma LooseSave(s: Sys, who: nat, next: Record, pc: Pc)
    requires Loose(s) && (Active(pc) ==> pc.record.status == Running)
    requires s.row.Some? ==> next.status != Planned
    ensures Loose(s.Save(who, next, pc))
  {
    SaveCounts(s, who, next, pc);
    assert forall w :: s.Save(who, next, pc).At(w) == if w == who then pc else s.At(w);
  }

  lemma LooseMove(s: Sys, who: nat, pc: Pc)
    requires Loose(s) && (Active(pc) ==> pc.record.status == Running)
    ensures Loose(s.Move(who, pc))
  {
    assert forall w :: s.Move(who, pc).At(w) == if w == who then pc else s.At(w);
  }

  lemma LooseExecute(s: Sys, who: nat)
    requires Loose(s) && s.At(who).Marked?
    ensures
      var pc := s.At(who);
      Loose(s.Move(who, InFlight(pc.record, pc.asOf, pc.node)).(log := s.log + [Dispatched(pc.node, pc.resumed)]))
  {
    var pc := s.At(who);
    LooseMove(s, who, InFlight(pc.record, pc.asOf, pc.node));
    var log := s.log + [Dispatched(pc.node, pc.resumed)];
    assert log[..|log| - 1] == s.log;
    assert PlannedLeft(log) == PlannedLeft(s.log);
    var moved := s.Move(who, InFlight(pc.record, pc.asOf, pc.node));
    assert forall w :: moved.(log := log).At(w) == moved.At(w);
  }

  /** The step keeps both: nothing is lost, and the row only moves forward. */
  ghost predicate StaysLoose(s: Sys, s': Sys) {
    Loose(s') && RowMoves(s.row, s'.row)
  }

  lemma LooseAdvance(compare: Compare, s: Sys, who: nat)
    requires Loose(s)
    ensures StaysLoose(s, Apply(compare, s, Advance(who)))
  {
    if s.At(who).Holding? {
      var pc := s.At(who);
      AdvanceEffect(compare, s, who);
      LooseMove(s, who, Idle);
      if Acts(compare, s, who) {
        DecideCases(pc.record, pc.asOf);
        match Decide(pc.record, pc.asOf)
        case Checkpoint(next) => LooseSave(s, who, next, Idle);
        case Launch(node, resumed, next) => LooseSave(s, who, next, Marked(next, pc.asOf, node, resumed));
        case _ =>
      }
    }
  }

  lemma LooseReport(compare: Compare, s: Sys, who: nat, reply: Reply)
    requires Loose(s)
    ensures StaysLoose(s, Apply(compare, s, Report(who, reply)))
  {
    if Active(s.At(who)) {
      var pc := s.At(who);
      ReportEffect(compare, s, who, reply);
      LooseMove(s, who, Idle);
      if pc.node < |pc.record.states| && Replaces(compare, s.row, pc.record) {
        OutcomeFits(pc.record, pc.node, pc.asOf, reply, false);
        LooseSave(s, who, Outcomed(pc.record, pc.node, pc.asOf, reply), Idle);
      }
    }
  }

  lemma LooseFetch(compare: Compare, s: Sys, who: nat, context: Context, asOf: int)
    requires Loose(s)
    ensures StaysLoose(s, Apply(compare, s, Fetch(who, context, asOf)))
  {
    LooseMove(s, who, Creating(context, asOf));
    if s.row.Some? {
      LooseMove(s, who, Holding(s.row.value, asOf));
    }
  }

  lemma LooseInsert(compare: Compare, s: Sys, who: nat)
    requires Loose(s)
    ensures StaysLoose(s, Apply(compare, s, Insert(who)))
  {
    LooseMove(s, who, Idle);
    if s.At(who).Creating? && s.row.None? {
      var record := NewRecord(s.At(who).context, s.At(who).asOf);
      LooseSave(s, who, record, Holding(record, s.At(who).asOf));
    }
  }

  lemma LooseDispatch(compare: Compare, s: Sys, who: nat)
    requires Loose(s)
    ensures StaysLoose(s, Apply(compare, s, Execute(who)))
  {
    if s.At(who).Marked? {
      LooseExecute(s, who);
    }
  }

  lemma LooseCrash(compare: Compare, s: Sys, who: nat)
    requires Loose(s)
    ensures StaysLoose(s, Apply(compare, s, Crash(who)))
  {
    LooseMove(s, who, Idle);
  }

  lemma LooseStep(compare: Compare, s: Sys, act: Act)
    requires Loose(s)
    ensures StaysLoose(s, Apply(compare, s, act))
  {
    match act
    case Fetch(who, context, asOf) => LooseFetch(compare, s, who, context, asOf);
    case Insert(who) => LooseInsert(compare, s, who);
    case Advance(who) => LooseAdvance(compare, s, who);
    case Execute(who) => LooseDispatch(compare, s, who);
    case Report(who, reply) => LooseReport(compare, s, who, reply);
    case Crash(who) => LooseCrash(compare, s, who);
  }

  lemma {:induction false} RunsAreLoose(compare: Compare, acts: seq<Act>)
    ensures Loose(Run(compare, EMPTY, acts))
    decreases |acts|
  {
    if acts != [] {
      RunsAreLoose(compare, acts[..|acts| - 1]);
      LooseStep(compare, Run(compare, EMPTY, acts[..|acts| - 1]), acts[|acts| - 1]);
    }
  }

  /** Under any interleaving the planned state is left at most once. */
  lemma PlannedIsLeftOnce(compare: Compare, acts: seq<Act>)
    ensures PlannedLeft(Run(compare, EMPTY, acts).log) <= 1
  {
    RunsAreLoose(compare, acts);
  }

  /**
   Under any interleaving of stale runners and crashes, however the run goes on after
   `acts`: the pinned digests stay, and a terminal row stays as it is.
   */
  lemma {:induction false} StoredRowNeverGoesBack(compare: Compare, acts: seq<Act>, more: seq<Act>)
    ensures
      var row, later := Run(compare, EMPTY, acts).row, Run(compare, EMPTY, acts + more).row;
      row.Some? ==>
        && later.Some? && later.value.context == row.value.context
        && (Terminal(row.value.status) ==> later == row)
        && (row.value.status != Planned ==> later.value.status != Planned)
    decreases |more|
  {
    if more == [] {
      assert acts + more == acts;
    } else {
      var init := more[..|more| - 1];
      StoredRowNeverGoesBack(compare, acts, init);
      assert (acts + more)[..|acts + more| - 1] == acts + init;
      assert (acts + more)[|acts + more| - 1] == more[|more| - 1];
      RunsAreLoose(compare, acts + init);
      LooseStep(compare, Run(compare, EMPTY, acts + init), more[|more| - 1]);
    }
  }

  // ---------------------------------------------------------------------------------
  // Runs in which no stale record is acted on
  // ---------------------------------------------------------------------------------

  /** A first checkpoint is made from the record that is still stored. */
  ghost predicate CurrentAct(s: Sys, act: Act) {
    act.Advance? && s.At(act.who).Holding? ==> s.row == Some(s.At(act.who).record)
  }

  ghost predicate Current(acts: seq<Act>)
    decreases |acts|
  {
    acts == [] ||
    (Current(acts[..|acts| - 1])
     && CurrentAct(Run(StatusAndContext, EMPTY, acts[..|acts| - 1]), acts[|acts| - 1]))
  }

  /** The runs covered: every playbook is acyclic, and no stale record is acted on. */
  ghost predicate Covered(compare: Compare, acts: seq<Act>) {
    && (forall i | 0 <= i < |acts| :: ValidAct(acts[i]))
    && (compare == WholeRecord || Current(acts))
  }

  /** No write falls between another runner's fetch and its first checkpoint. */
  ghost predicate Quiet(s: Sys, act: Act) {
    Apply(StatusAndContext, s, act).row != s.row ==> forall w | w != act.who :: !s.At(w).Holding?
  }

  ghost predicate Undisturbed(acts: seq<Act>)
    decreases |acts|
  {
    acts == [] ||
    (Undisturbed(acts[..|acts| - 1])
     && Quiet(Run(StatusAndContext, EMPTY, acts[..|acts| - 1]), acts[|acts| - 1]))
  }

  /**
   What the coroutines of one process do: from the fetch to the first checkpoint a call
   never awaits anything, so nobody else acts in between; while one call awaits its
   executor any number of others may come and go.
   */
  ghost predicate Cooperative(acts: seq<Act>)
    decreases |acts|
  {
    acts == [] ||
    (Cooperative(acts[..|acts| - 1])
     && Alone(Run(StatusAndContext, EMPTY, acts[..|acts| - 1]), acts[|acts| - 1]))
  }

  /** No other call stands between its fetch and its first checkpoint. */
  ghost predicate Alone(s: Sys, act: Act) {
    forall w | w != act.who :: !s.At(w).Holding? && !s.At(w).Creating?
  }

  ghost predicate HoldersCurrent(s: Sys) {
    forall w | s.At(w).Holding? :: s.row == Some(s.At(w).record)
  }

  lemma HoldersStayCurrent(s: Sys, act: Act)
    requires HoldersCurrent(s) && Quiet(s, act)
    ensures HoldersCurrent(Apply(StatusAndContext, s, act))
  {
    var s' := Apply(StatusAndContext, s, act);
    forall w | s'.At(w).Holding? ensures s'.row == Some(s'.At(w).record) {
      assert w != act.who ==> s'.At(w) == s.At(w);
    }
  }

  lemma {:induction false} UndisturbedHolders(acts: seq<Act>)
    requires Undisturbed(acts)
    ensures HoldersCurrent(Run(StatusAndContext, EMPTY, acts)) && Current(acts)
    decreases |acts|
  {
    if acts != [] {
      UndisturbedHolders(acts[..|acts| - 1]);
      HoldersStayCurrent(Run(StatusAndContext, EMPTY, acts[..|acts| - 1]), acts[|acts| - 1]);
    }
  }

  /** Undisturbed runs, and the runs of one process, are among those covered. */
  lemma {:induction false} CooperativeRunsAreUndisturbed(acts: seq<Act>)
    requires Cooperative(acts)
    ensures Undisturbed(acts) && Current(acts)
    decreases |acts|
  {
    if acts != [] {
      CooperativeRunsAreUndisturbed(acts[..|acts| - 1]);
    }
    UndisturbedHolders(acts);
  }

  /** Recording an outcome never overwrites anything but the runner's own mark. */
  lemma ReportIsExact(s: Sys, act: Act, k: nat)
    requires Inv(s, k) && ActiveRunning(s) && act.Report?
    ensures Exact(StatusAndContext, s, act)
  {
    var pc := s.At(act.who);
    if Active(pc) && s.row.Some? {
      assert RunnerInv(pc, s.log, s.row.value, Schedule(s.row.value.context.Playbook(), {}), k);
    }
  }

  lemma {:induction false} CoveredKeepsInv(compare: Compare, acts: seq<Act>) returns (k: nat)
    requires Covered(compare, acts)
    ensures Inv(Run(compare, EMPTY, acts), k)
    decreases |acts|
  {
    if acts == [] {
      k := 0;
    } else {
      var before, act := acts[..|acts| - 1], acts[|acts| - 1];
      var s := Run(compare, EMPTY, before);
      var k0 := CoveredKeepsInv(compare, before);
      RunsAreLoose(compare, before);
      assert Exact(compare, s, act) by {
        if act.Report? && compare == StatusAndContext {
          ReportIsExact(s, act, k0);
        }
      }
      k := InvStep(compare, s, act, k0);
    }
  }

  lemma {:induction false} DisciplinedAt(log: seq<Event>, j: nat)
    requires Disciplined(log) && j < |log| && log[j].Dispatched?
    ensures MayDispatch(log[..j], log[j].node, log[j].resumed)
  {
    if j < |log| - 1 {
      DisciplinedAt(log[..|log| - 1], j);
      assert log[..|log| - 1][..j] == log[..j];
    }
  }

  /**
   Whatever was dispatched before: each earlier dispatch was recorded as paused or
   completed, each earlier dispatch of the same node was recorded as paused, the node was
   never recorded as completed, and the executor learns truthfully whether it resumes.
   So a dispatch with no recorded outcome ends all dispatching for the instance.
   */
  lemma DispatchDiscipline(compare: Compare, acts: seq<Act>, j: nat)
    requires Covered(compare, acts)
    requires j < |Run(compare, EMPTY, acts).log| && Run(compare, EMPTY, acts).log[j].Dispatched?
    ensures
      var log := Run(compare, EMPTY, acts).log;
      && (forall i | 0 <= i < j && log[i].Dispatched? ::
            || SavedAfter(log[..j], i, log[i].node, Paused)
            || SavedAfter(log[..j], i, log[i].node, Completed))
      && (forall i | 0 <= i < j && log[i].Dispatched? && log[i].node == log[j].node ::
            SavedAfter(log[..j], i, log[j].node, Paused))
      && !SavedAfter(log[..j], -1, log[j].node, Completed)
      && (log[j].resumed <==> DispatchedIn(log[..j], log[j].node))
  {
    var log := Run(compare, EMPTY, acts).log;
    var k := CoveredKeepsInv(compare, acts);
    DisciplinedAt(log, j);
    assert forall i | 0 <= i < j :: log[..j][i] == log[i];
  }

  ghost predicate LeastTopological(dag: Dag, order: seq<nat>) {
    Topological(dag, order) && forall other | Topological(dag, other) :: LexLe(order, other)
  }

  /** First dispatches follow the lexicographically least topological order. */
  lemma FirstDispatchesFollowLeastOrder(compare: Compare, acts: seq<Act>)
    requires Covered(compare, acts) && Run(compare, EMPTY, acts).row.Some?
    ensures
      var s := Run(compare, EMPTY, acts);
      exists order :: LeastTopological(s.row.value.context.Playbook(), order) && FirstDispatches(s.log) <= order
  {
    var s := Run(compare, EMPTY, acts);
    var k := CoveredKeepsInv(compare, acts);
    var order := Schedule(s.row.value.context.Playbook(), {});
    ScheduleIsLeastTopologicalOrder(s.row.value.context.Playbook());
    assert LeastTopological(s.row.value.context.Playbook(), order);
    assert FirstDispatches(s.log) <= order;
  }

  // ---------------------------------------------------------------------------------
  // The stored record
  // ---------------------------------------------------------------------------------

  ghost predicate Somewhere(record: Record, status: NodeStatus) {
    exists x: nat :: x < |record.states| && record.states[x] == status
  }

  predicate Everywhere(record: Record, status: NodeStatus) {
    forall x: nat | x < |record.states| :: record.states[x] == status
  }

  /** Node states respect the dependencies and the run status agrees with them. */
  ghost predicate SoundRecord(record: Record) {
    var states, deps := record.states, record.context.Playbook().deps;
    && |states| == |deps|
    && (forall x: nat, y: nat | x < |states| && y < |states|
          && states[x] in {NodeRunning, Paused} && states[y] in {NodeRunning, Paused} :: x == y)
    && (forall x: nat, d: nat {:trigger DependsOn(record.context.Playbook(), x, d)} |
          DependsOn(record.context.Playbook(), x, d) && states[x] != Pending ::
            d < |states| && states[d] == Completed)
    && (record.status == Planned ==> Everywhere(record, Pending))
    && (record.status == CompletedVerified ==> Everywhere(record, Completed))
    && (Somewhere(record, NodeRunning) ==> record.status == Running)
    && (record.status in {AwaitingApproval, AwaitingObservation} <==> Somewhere(record, Paused))
    && (record.status == PausedUncertain <==> Somewhere(record, Uncertain))
    && (record.status == ManualHandoff <==> Somewhere(record, HandedOff))
    && (record.status == CompensationRequired <==> Somewhere(record, NeedsCompensation))
  }

  lemma DependenciesCompleted(order: seq<nat>, record: Record, k: nat, x: nat, d: nat)
    requires RunnersOrder(record.context.Playbook(), order) && Shape(order, record, k)
    requires DependsOn(record.context.Playbook(), x, d) && record.states[x] != Pending
    ensures d < |record.states| && record.states[d] == Completed
  {
    OrderFacts(record.context.Playbook(), order);
    ScheduleCompletes(record.context.Playbook(), {});
    var i := StateAt(order, record, k, x);
    assert Before(order, i, d);
    var j :| 0 <= j < i && order[j] == d;
    assert StateFits(record.states[order[j]], j, k);
  }

  lemma LastDecides(order: seq<nat>, record: Record, k: nat, x: nat)
    requires RunnersOrder(record.context.Playbook(), order) && Shape(order, record, k)
    requires x < |record.states| && record.states[x] != Pending && record.states[x] != Completed
    ensures k > 0 && x == order[k - 1] && StatusFits(record.status, record.states[x], k == |order|)
  {
    var i := StateAt(order, record, k, x);
  }

  lemma StatusDecides(order: seq<nat>, record: Record, k: nat)
    requires RunnersOrder(record.context.Playbook(), order) && Shape(order, record, k)
    ensures record.status == Planned ==> Everywhere(record, Pending)
    ensures record.status == CompletedVerified ==> Everywhere(record, Completed)
    ensures record.status in {AwaitingApproval, AwaitingObservation} ==> Somewhere(record, Paused)
    ensures record.status == PausedUncertain ==> Somewhere(record, Uncertain)
    ensures record.status == ManualHandoff ==> Somewhere(record, HandedOff)
    ensures record.status == CompensationRequired ==> Somewhere(record, NeedsCompensation)
  {
    OrderFacts(record.context.Playbook(), order);
    if k > 0 {
      assert order[k - 1] < |record.states| && StateFits(record.states[order[k - 1]], k - 1, k);
    }
    forall x: nat | x < |record.states|
      ensures record.status == Planned ==> record.states[x] == Pending
      ensures record.status == CompletedVerified ==> record.states[x] == Completed
    {
      var i := StateAt(order, record, k, x);
    }
  }

  lemma ShapeIsSound(order: seq<nat>, record: Record, k: nat)
    requires RunnersOrder(record.context.Playbook(), order) && Shape(order, record, k)
    ensures SoundRecord(record)
  {
    forall x: nat | x < |record.states| && record.states[x] != Pending && record.states[x] != Completed
      ensures k > 0 && x == order[k - 1] && StatusFits(record.status, record.states[x], k == |order|)
    {
      LastDecides(order, record, k, x);
    }
    forall x: nat, d: nat | DependsOn(record.context.Playbook(), x, d) && record.states[x] != Pending
      ensures d < |record.states| && record.states[d] == Completed
    {
      DependenciesCompleted(order, record, k, x, d);
    }
    StatusDecides(order, record, k);
  }

  lemma AlwaysANextNode(order: seq<nat>, record: Record, k: nat, asOf: int)
    requires RunnersOrder(record.context.Playbook(), order) && Shape(order, record, k)
    ensures Decide(record, asOf) != NoSafeNext
  {
    if !Terminal(record.status) && NodesWith(record.states, NodeRunning) == NodesWith(record.states, Paused) == {}
      && Startable(record.context.Playbook(), record.states) == {} {
      NothingStartable(order, record, k);
    }
  }

  /** The stored record is always sound, and the "no safe next node" error cannot occur. */
  lemma StoredRecordIsSound(compare: Compare, acts: seq<Act>, asOf: int)
    requires Covered(compare, acts) && Run(compare, EMPTY, acts).row.Some?
    ensures SoundRecord(Run(compare, EMPTY, acts).row.value)
    ensures Decide(Run(compare, EMPTY, acts).row.value, asOf) != NoSafeNext
  {
    var record := Run(compare, EMPTY, acts).row.value;
    var k := CoveredKeepsInv(compare, acts);
    ShapeIsSound(Schedule(record.context.Playbook(), {}), record, k);
    AlwaysANextNode(Schedule(record.context.Playbook(), {}), record, k, asOf);
  }
}
