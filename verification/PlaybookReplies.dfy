/**
 What the records of a run tell about the executor's replies: how one reply shows in the
 record, that every recorded result was reported, and that a reply which is neither a
 completion nor a pause is the last thing that happens.
 */
module PlaybookReplies {
  import opened Common
  import opened PlaybookDag
  import opened PlaybookRun
  import opened PlaybookSafety
  import opened PlaybookTheorems

  // ---------------------------------------------------------------------------------
  // One checkpoint
  // ---------------------------------------------------------------------------------

  predicate IsPause(reply: Reply) {
    reply == Returned(PauseForApproval) || reply == Returned(PauseForObservation)
  }

  predicate IsUncertain(reply: Reply) {
    reply == Raised || reply == Returned(UncertainResult)
  }

  /** Same run; only the states and what a checkpoint stamps may differ. */
  predicate Succeeds(record: Record, next: Record, asOf: int) {
    && next.context == record.context && next.createdAt == record.createdAt && next.updatedAt == asOf
    && |next.states| == |record.states|
  }

  predicate OthersKeep(record: Record, next: Record, node: nat) {
    |next.states| == |record.states| && forall x: nat | x < |record.states| && x != node :: next.states[x] == record.states[x]
  }

  /** Every node status, run status and reason tells exactly which replies led to it. */
  predicate RecordsReply(marked: Record, next: Record, node: nat, reply: Reply, asOf: int) {
    && Succeeds(marked, next, asOf) && node < |next.states| && OthersKeep(marked, next, node)
    && (next.states[node] == Completed <==> reply == Returned(Done))
    && (next.states[node] == Paused <==> IsPause(reply))
    && (next.states[node] == Uncertain <==> IsUncertain(reply))
    && (next.states[node] == HandedOff <==> reply == Returned(HandOff))
    && (next.states[node] == NeedsCompensation <==> reply == Returned(ProposeCompensation))
    && StatusTellsReply(next.status, reply) && ReasonTellsReply(next.reason, reply)
  }

  predicate StatusTellsReply(status: RunStatus, reply: Reply) {
    && (status == Running <==> reply == Returned(Done))
    && (status == AwaitingApproval <==> reply == Returned(PauseForApproval))
    && (status == AwaitingObservation <==> reply == Returned(PauseForObservation))
    && (status == PausedUncertain <==> IsUncertain(reply))
    && (status == ManualHandoff <==> reply == Returned(HandOff))
    && (status == CompensationRequired <==> reply == Returned(ProposeCompensation))
  }

  predicate ReasonTellsReply(reason: Option<Reason>, reply: Reply) {
    && (reason == None <==> reply == Returned(Done))
    && (reason == Some(ExternalApprovalRequired) <==> reply == Returned(PauseForApproval))
    && (reason == Some(ProviderObservationPending) <==> reply == Returned(PauseForObservation))
    && (reason == Some(NodeExecutionUncertain) <==> reply == Raised)
    && (reason == Some(NodeResultUncertain) <==> reply == Returned(UncertainResult))
    && (reason == Some(ManualHandoffRequired) <==> reply == Returned(HandOff))
    && (reason == Some(SeparateCompensationPlanRequired) <==> reply == Returned(ProposeCompensation))
  }

  lemma OutcomeRecordsReply(marked: Record, node: nat, asOf: int, reply: Reply)
    requires node < |marked.states|
    ensures RecordsReply(marked, Outcomed(marked, node, asOf, reply), node, reply, asOf)
  {
  }

  /** A node that can be taken up: pending, with all its dependencies completed. */
  predicate Free(record: Record, node: nat) {
    && node < |record.states| == |record.context.Playbook().deps| && record.states[node] == Pending
    && forall d | d in record.context.Playbook().deps[node] :: d < |record.states| && record.states[d] == Completed
  }

  predicate Shows(record: Record, status: NodeStatus) {
    exists x: nat :: x < |record.states| && record.states[x] == status
  }

  /** The node a call takes: the first paused one, and only if none is paused the first free one. */
  ghost predicate IsNext(record: Record, node: nat) {
    && !Shows(record, NodeRunning) && node < |record.states|
    && (if Shows(record, Paused) then
          record.states[node] == Paused && forall x: nat | x < |record.states| && record.states[x] == Paused :: node <= x
        else
          Free(record, node) && forall x: nat | Free(record, x) :: node <= x)
  }

  predicate Marks(record: Record, next: Record, node: nat, asOf: int) {
    && Succeeds(record, next, asOf) && node < |next.states| && OthersKeep(record, next, node)
    && next.states[node] == NodeRunning && next.status == Running && next.reason == None
  }

  /** A node found running is parked, and nothing else changes. */
  predicate Parks(record: Record, next: Record, asOf: int) {
    && Shows(record, NodeRunning) && Succeeds(record, next, asOf)
    && (forall x: nat | x < |record.states| ::
          next.states[x] == if record.states[x] == NodeRunning then Uncertain else record.states[x])
    && next.status == PausedUncertain && next.reason == Some(ProcessInterruptedDuringNode)
  }

  predicate Finishes(record: Record, next: Record, asOf: int) {
    && (forall x: nat | x < |record.states| :: record.states[x] == Completed)
    && Succeeds(record, next, asOf) && next.states == record.states
    && next.status == CompletedVerified && next.reason == None
  }

  lemma NodesWithShows(record: Record, status: NodeStatus)
    ensures Shows(record, status) <==> NodesWith(record.states, status) != {}
  {
    if Shows(record, status) {
      var x: nat :| x < |record.states| && record.states[x] == status;
      assert x in NodesWith(record.states, status);
    }
  }

  lemma StartableIsFree(record: Record, x: nat)
    requires |record.states| == |record.context.Playbook().deps|
    ensures x in Startable(record.context.Playbook(), record.states) <==> Free(record, x)
  {
  }

  lemma LeastIsNext(record: Record, node: nat)
    requires |record.states| == |record.context.Playbook().deps| && !Shows(record, NodeRunning)
    requires
      var paused, startable := NodesWith(record.states, Paused), Startable(record.context.Playbook(), record.states);
      if paused != {} then node == Least(paused) else startable != {} && node == Least(startable)
    ensures IsNext(record, node)
  {
    NodesWithShows(record, Paused);
    if Shows(record, Paused) {
      forall x: nat | x < |record.states| && record.states[x] == Paused ensures node <= x {
        assert x in NodesWith(record.states, Paused);
      }
    } else {
      forall x: nat ensures x in Startable(record.context.Playbook(), record.states) <==> Free(record, x) {
        StartableIsFree(record, x);
      }
    }
  }

  /** A run that no call continues: it is complete, or a person has to look at it. */
  predicate Ended(status: RunStatus) {
    status == CompletedVerified || status == PausedUncertain || status == ManualHandoff || status == CompensationRequired
  }

  /** What a call decides, from what the record shows. */
  lemma DecideTells(record: Record, asOf: int)
    requires |record.states| == |record.context.Playbook().deps|
    ensures
      match Decide(record, asOf)
      case Return => Ended(record.status)
      case BadClock => !Ended(record.status) && asOf < record.createdAt
      case NoSafeNext =>
        && !Ended(record.status) && !Shows(record, NodeRunning) && !Shows(record, Paused)
        && (forall x :: !Free(record, x)) && exists x: nat :: x < |record.states| && record.states[x] != Completed
      case Checkpoint(next) =>
        !Ended(record.status) && record.createdAt <= asOf && (Parks(record, next, asOf) || Finishes(record, next, asOf))
      case Launch(node, resumed, next) =>
        && !Ended(record.status) && record.createdAt <= asOf
        && IsNext(record, node) && Marks(record, next, node, asOf) && (resumed <==> record.states[node] == Paused)
  {
    DecideCases(record, asOf);
    NodesWithShows(record, NodeRunning);
    NodesWithShows(record, Paused);
    forall x: nat ensures x in Startable(record.context.Playbook(), record.states) <==> Free(record, x) {
      StartableIsFree(record, x);
    }
    if Decide(record, asOf).Launch? {
      LeastIsNext(record, Decide(record, asOf).node);
    }
  }

  // ---------------------------------------------------------------------------------
  // Every recorded result was reported
  // ---------------------------------------------------------------------------------

  /** The replies that lead to this node status. */
  predicate Explains(reply: Reply, status: NodeStatus) {
    match status
    case Completed => reply == Returned(Done)
    case Paused => IsPause(reply)
    case HandedOff => reply == Returned(HandOff)
    case NeedsCompensation => reply == Returned(ProposeCompensation)
    case _ => false
  }

  predicate IsResult(status: NodeStatus) {
    status == Completed || status == Paused || status == HandedOff || status == NeedsCompensation
  }

  /** Step `i` of the run reported this result of the node, whose executor had been called. */
  predicate ReportedAt(compare: Compare, acts: seq<Act>, i: nat, node: nat, status: NodeStatus) {
    i < |acts| && acts[i].Report? && Explains(acts[i].reply, status) &&
    var pc := Run(compare, EMPTY, acts[..i]).At(acts[i].who);
    pc.InFlight? && pc.node == node
  }

  ghost predicate WasReported(compare: Compare, acts: seq<Act>, node: nat, status: NodeStatus) {
    exists i: nat :: ReportedAt(compare, acts, i, node, status)
  }

  ghost predicate Explained(compare: Compare, acts: seq<Act>, record: Record) {
    forall x: nat | x < |record.states| && IsResult(record.states[x]) :: WasReported(compare, acts, x, record.states[x])
  }

  predicate Held(pc: Pc) {
    pc.Holding? || Active(pc)
  }

  ghost predicate AllExplained(compare: Compare, acts: seq<Act>, s: Sys) {
    && (s.row.Some? ==> Explained(compare, acts, s.row.value))
    && forall w | Held(s.At(w)) :: Explained(compare, acts, s.At(w).record)
  }

  lemma ExplainedLater(compare: Compare, acts: seq<Act>, act: Act, record: Record)
    requires Explained(compare, acts, record)
    ensures Explained(compare, acts + [act], record)
  {
    forall x: nat | x < |record.states| && IsResult(record.states[x])
      ensures WasReported(compare, acts + [act], x, record.states[x])
    {
      var i: nat :| ReportedAt(compare, acts, i, x, record.states[x]);
      assert (acts + [act])[..i] == acts[..i];
      assert ReportedAt(compare, acts + [act], i, x, record.states[x]);
    }
  }

  /** A record with no result that the explained one did not show. */
  lemma NothingNew(compare: Compare, acts: seq<Act>, record: Record, next: Record)
    requires Explained(compare, acts, record) && |next.states| == |record.states|
    requires forall x: nat | x < |next.states| && IsResult(next.states[x]) :: next.states[x] == record.states[x]
    ensures Explained(compare, acts, next)
  {
  }

  lemma ReportExplains(compare: Compare, acts: seq<Act>, who: nat, reply: Reply)
    requires
      var pc := Run(compare, EMPTY, acts).At(who);
      Active(pc) && pc.node < |pc.record.states| && (pc.Marked? ==> reply == Raised) && Explained(compare, acts, pc.record)
    ensures
      var pc := Run(compare, EMPTY, acts).At(who);
      Explained(compare, acts + [Report(who, reply)], Outcomed(pc.record, pc.node, pc.asOf, reply))
  {
    var pc := Run(compare, EMPTY, acts).At(who);
    var longer, next := acts + [Report(who, reply)], Outcomed(pc.record, pc.node, pc.asOf, reply);
    ExplainedLater(compare, acts, Report(who, reply), pc.record);
    OutcomeRecordsReply(pc.record, pc.node, pc.asOf, reply);
    forall x: nat | x < |next.states| && IsResult(next.states[x]) ensures WasReported(compare, longer, x, next.states[x]) {
      if x == pc.node {
        assert longer[..|acts|] == acts;
        assert ReportedAt(compare, longer, |acts|, x, next.states[x]);
      } else {
        assert next.states[x] == pc.record.states[x];
      }
    }
  }

  lemma DecisionExplained(compare: Compare, acts: seq<Act>, record: Record, asOf: int)
    requires Explained(compare, acts, record) && |record.states| == |record.context.Playbook().deps|
    ensures
      match Decide(record, asOf)
      case Checkpoint(next) => Explained(compare, acts, next)
      case Launch(_, _, next) => Explained(compare, acts, next)
      case _ => true
  {
    DecideTells(record, asOf);
    match Decide(record, asOf)
    case Checkpoint(next) => NothingNew(compare, acts, record, next);
    case Launch(_, _, next) => NothingNew(compare, acts, record, next);
    case _ =>
  }

  /** The records a step writes or hands to its runner are explained. */
  lemma StepExplained(compare: Compare, acts: seq<Act>, act: Act)
    requires AllExplained(compare, acts, Run(compare, EMPTY, acts))
    ensures
      var s, s' := Run(compare, EMPTY, acts), Apply(compare, Run(compare, EMPTY, acts), act);
      && (s'.row.Some? ==> s'.row == s.row || Explained(compare, acts + [act], s'.row.value))
      && (Held(s'.At(act.who)) ==> Explained(compare, acts + [act], s'.At(act.who).record))
  {
    var s := Run(compare, EMPTY, acts);
    var pc := s.At(act.who);
    if Held(pc) {
      ExplainedLater(compare, acts, act, pc.record);
    }
    if s.row.Some? {
      ExplainedLater(compare, acts, act, s.row.value);
    }
    if act.Advance? && pc.Holding? {
      AdvanceEffect(compare, s, act.who);
      if Acts(compare, s, act.who) {
        DecisionExplained(compare, acts + [act], pc.record, pc.asOf);
      }
    } else if act.Report? && Active(pc) {
      ReportEffect(compare, s, act.who, act.reply);
      if pc.node < |pc.record.states| && (pc.Marked? ==> act.reply == Raised) {
        ReportExplains(compare, acts, act.who, act.reply);
      }
    }
  }

  lemma OthersKeepTheirPlace(compare: Compare, s: Sys, act: Act)
    ensures forall w | w != act.who :: Apply(compare, s, act).At(w) == s.At(w)
  {
  }

  lemma {:induction false} RunsAreExplained(compare: Compare, acts: seq<Act>)
    ensures AllExplained(compare, acts, Run(compare, EMPTY, acts))
    decreases |acts|
  {
    if acts != [] {
      var before, act := acts[..|acts| - 1], acts[|acts| - 1];
      var s, s' := Run(compare, EMPTY, before), Run(compare, EMPTY, acts);
      RunsAreExplained(compare, before);
      StepExplained(compare, before, act);
      OthersKeepTheirPlace(compare, s, act);
      assert acts == before + [act];
      if s.row.Some? {
        ExplainedLater(compare, before, act, s.row.value);
      }
      forall w | Held(s'.At(w)) ensures Explained(compare, acts, s'.At(w).record) {
        if w != act.who {
          ExplainedLater(compare, before, act, s.At(w).record);
        }
      }
    }
  }

  /**
   However runners overlap, act on stale records or die: whatever result a stored record
   shows, some step reported it of exactly that node, whose executor had been called. So a
   node is only ever stored as completed because its executor returned completion.
   */
  lemma EveryResultWasReported(compare: Compare, acts: seq<Act>, x: nat)
    requires Run(compare, EMPTY, acts).row.Some? && x < |Run(compare, EMPTY, acts).row.value.states|
    ensures
      var status := Run(compare, EMPTY, acts).row.value.states[x];
      IsResult(status) ==> exists i: nat :: ReportedAt(compare, acts, i, x, status)
  {
    RunsAreExplained(compare, acts);
    var status := Run(compare, EMPTY, acts).row.value.states[x];
    assert IsResult(status) ==> WasReported(compare, acts, x, status);
  }

  // ---------------------------------------------------------------------------------
  // The last reply
  // ---------------------------------------------------------------------------------

  /** A terminal row with nobody between marking and recording. */
  ghost predicate Quiescent(s: Sys) {
    s.row.Some? && Terminal(s.row.value.status) && forall w :: !Active(s.At(w))
  }

  /** Over a terminal row a first checkpoint is never made. */
  lemma TerminalKeepsRow(compare: Compare, s: Sys, who: nat)
    requires s.row.Some? && Terminal(s.row.value.status) && s.At(who).Holding?
    ensures Apply(compare, s, Advance(who)) == s.Move(who, Idle)
  {
    AdvanceEffect(compare, s, who);
    if Acts(compare, s, who) {
      DecideCases(s.At(who).record, s.At(who).asOf);
    }
  }

  lemma QuiescentStays(compare: Compare, s: Sys, act: Act)
    requires Quiescent(s)
    ensures
      var s' := Apply(compare, s, act);
      Quiescent(s') && s'.row == s.row && s'.log == s.log
  {
    var s' := Apply(compare, s, act);
    assert !Active(s.At(act.who));
    if act.Advance? && s.At(act.who).Holding? {
      TerminalKeepsRow(compare, s, act.who);
    }
    OthersKeepTheirPlace(compare, s, act);
    assert s'.row == s.row && s'.log == s.log && !Active(s'.At(act.who));
  }

  lemma {:induction false} QuiescentForever(compare: Compare, acts: seq<Act>, more: seq<Act>)
    requires Quiescent(Run(compare, EMPTY, acts))
    ensures
      var s, s' := Run(compare, EMPTY, acts), Run(compare, EMPTY, acts + more);
      Quiescent(s') && s'.row == s.row && s'.log == s.log
    decreases |more|
  {
    if more == [] {
      assert acts + more == acts;
    } else {
      var init := more[..|more| - 1];
      QuiescentForever(compare, acts, init);
      assert (acts + more)[..|acts + more| - 1] == acts + init;
      QuiescentStays(compare, Run(compare, EMPTY, acts + init), more[|more| - 1]);
    }
  }

  lemma LastReplyIsTerminal(compare: Compare, s: Sys, who: nat, reply: Reply)
    requires s.row.Some? && s.At(who).InFlight? && InCharge(s.At(who), s.row.value)
    requires reply != Returned(Done) && !IsPause(reply)
    ensures
      var s' := Apply(compare, s, Report(who, reply));
      s'.row.Some? && Terminal(s'.row.value.status) && s'.At(who) == Idle
  {
    var pc := s.At(who);
    OutcomeRecordsReply(pc.record, pc.node, pc.asOf, reply);
    ReportEffect(compare, s, who, reply);
  }

  lemma LastReplyQuiets(compare: Compare, s: Sys, k: nat, who: nat, reply: Reply)
    requires Inv(s, k) && s.At(who).InFlight? && reply != Returned(Done) && !IsPause(reply)
    ensures Quiescent(Apply(compare, s, Report(who, reply)))
  {
    assert RunnerInv(s.At(who), s.log, s.row.value, Schedule(s.row.value.context.Playbook(), {}), k);
    assert forall w: nat | w != who :: !Active(s.At(w));
    LastReplyIsTerminal(compare, s, who, reply);
    OthersKeepTheirPlace(compare, s, Report(who, reply));
  }

  /**
   A reply that is neither a completion nor a pause is the last thing that happens: however
   the run goes on, nothing is dispatched and nothing is written any more.
   */
  lemma NothingFollowsABadReply(compare: Compare, acts: seq<Act>, who: nat, reply: Reply, more: seq<Act>)
    requires Covered(compare, acts) && Run(compare, EMPTY, acts).At(who).InFlight?
    requires reply != Returned(Done) && !IsPause(reply)
    ensures
      var s := Run(compare, EMPTY, acts + [Report(who, reply)]);
      var s' := Run(compare, EMPTY, acts + [Report(who, reply)] + more);
      s.row.Some? && Terminal(s.row.value.status) && s'.row == s.row && s'.log == s.log
  {
    var longer := acts + [Report(who, reply)];
    assert longer[..|acts|] == acts;
    var k := CoveredKeepsInv(compare, acts);
    LastReplyQuiets(compare, Run(compare, EMPTY, acts), k, who, reply);
    QuiescentForever(compare, longer, more);
  }
}
