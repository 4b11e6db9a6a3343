/**
 Every write waits for its exact approval: the validator's transitive closure of the
 dependencies, its check on write nodes, and what that check means for every run.
 */
module PlaybookApprovals {
  import opened Common
  import opened PlaybookDag
  import opened PlaybookRun
  import opened PlaybookSafety
  import opened PlaybookTheorems

  /** What the check looks at in a node. */
  datatype Role = Approval(contract: nat) | Write(contract: nat) | OtherRole

  // ---------------------------------------------------------------------------------
  // Transitive dependencies
  // ---------------------------------------------------------------------------------

  /** Each node of the path depends on the next. */
  ghost predicate Path(dag: Dag, path: seq<nat>) {
    |path| > 0 && forall i | 0 <= i < |path| - 1 :: DependsOn(dag, path[i], path[i + 1])
  }

  /** `node` depends on `d`, directly or through others. */
  ghost predicate Needs(dag: Dag, node: nat, d: nat) {
    exists path :: |path| > 1 && Path(dag, path) && path[0] == node && path[|path| - 1] == d
  }

  lemma NeedsDirectly(dag: Dag, node: nat, d: nat)
    requires DependsOn(dag, node, d)
    ensures Needs(dag, node, d)
  {
    assert Path(dag, [node, d]);
  }

  lemma NeedsFurther(dag: Dag, node: nat, d: nat, e: nat)
    requires Needs(dag, node, d) && DependsOn(dag, d, e)
    ensures Needs(dag, node, e)
  {
    var path :| |path| > 1 && Path(dag, path) && path[0] == node && path[|path| - 1] == d;
    assert Path(dag, path + [e]);
    assert (path + [e])[0] == node && (path + [e])[|path|] == e;
  }

  /** A set that holds what `node` depends on and what its own elements depend on holds all it needs. */
  lemma {:induction false} ClosedHoldsAll(dag: Dag, node: nat, found: set<nat>, path: seq<nat>)
    requires forall d | DependsOn(dag, node, d) :: d in found
    requires forall x, d {:trigger DependsOn(dag, x, d)} | x in found && DependsOn(dag, x, d) :: d in found
    requires |path| > 1 && Path(dag, path) && path[0] == node
    ensures path[|path| - 1] in found
  {
    assert DependsOn(dag, path[|path| - 2], path[|path| - 1]);
    if |path| > 2 {
      ClosedHoldsAll(dag, node, found, path[..|path| - 1]);
    }
  }

  /** What the loop has found, and what it still has to look at. */
  ghost predicate Searching(dag: Dag, node: nat, found: set<nat>, pending: multiset<nat>) {
    && found <= dag.Nodes()
    && (forall d | d in pending :: d in dag.Nodes())
    && (forall d | d in found || d in pending :: Needs(dag, node, d))
    && (forall d | DependsOn(dag, node, d) :: d in found || d in pending)
    && (forall x, d {:trigger DependsOn(dag, x, d)} | x in found && DependsOn(dag, x, d) :: d in found || d in pending)
  }

  lemma SearchStarts(dag: Dag, node: nat)
    requires dag.Closed() && node < |dag.deps|
    ensures Searching(dag, node, {}, multiset(dag.deps[node]))
  {
    forall d | d in dag.deps[node] ensures Needs(dag, node, d) {
      NeedsDirectly(dag, node, d);
    }
  }

  lemma SearchGoesOn(dag: Dag, node: nat, found: set<nat>, pending: multiset<nat>, x: nat)
    requires dag.Closed() && x in pending && x !in found && Searching(dag, node, found, pending)
    ensures x < |dag.deps|
    ensures Searching(dag, node, found + {x}, pending - multiset{x} + multiset(dag.deps[x]))
  {
    forall d | d in dag.deps[x] ensures Needs(dag, node, d) {
      NeedsFurther(dag, node, x, d);
    }
  }

  /** `_transitive_dependencies`: a work list that may hold a node more than once. */
  method TransitiveDependencies(dag: Dag, node: nat) returns (found: set<nat>)
    requires dag.Closed() && node < |dag.deps|
    ensures forall d :: d in found <==> Needs(dag, node, d)
  {
    found := {};
    var pending := multiset(dag.deps[node]);
    SearchStarts(dag, node);
    while pending != multiset{}
      invariant Searching(dag, node, found, pending)
      decreases |dag.Nodes() - found|, |pending|
    {
      var dependency :| dependency in pending;
      if dependency in found {
        pending := pending - multiset{dependency};
        continue;
      }
      SearchGoesOn(dag, node, found, pending, dependency);
      SubsetSize(dag.Nodes() - (found + {dependency}), dag.Nodes() - found);
      found, pending := found + {dependency}, pending - multiset{dependency} + multiset(dag.deps[dependency]);
    }
    forall d | Needs(dag, node, d) ensures d in found {
      var path :| |path| > 1 && Path(dag, path) && path[0] == node && path[|path| - 1] == d;
      ClosedHoldsAll(dag, node, found, path);
    }
  }

  // ---------------------------------------------------------------------------------
  // The validator's check on writes
  // ---------------------------------------------------------------------------------

  function ApprovalsFor(roles: seq<Role>, contract: nat): set<nat> {
    set x: nat | x < |roles| && roles[x] == Approval(contract)
  }

  /** Every write has an approval for its contract, and needs all of them. */
  ghost predicate WritesAreApproved(dag: Dag, roles: seq<Role>) {
    forall x: nat | x < |roles| && roles[x].Write? ::
      && ApprovalsFor(roles, roles[x].contract) != {}
      && forall d | d in ApprovalsFor(roles, roles[x].contract) :: Needs(dag, x, d)
  }

  method CheckWrites(dag: Dag, roles: seq<Role>) returns (ok: bool)
    requires dag.Closed() && |roles| == |dag.deps|
    ensures ok <==> WritesAreApproved(dag, roles)
  {
    for x := 0 to |roles|
      invariant forall y: nat | y < x && roles[y].Write? ::
        && ApprovalsFor(roles, roles[y].contract) != {}
        && forall d | d in ApprovalsFor(roles, roles[y].contract) :: Needs(dag, y, d)
    {
      if roles[x].Write? {
        var approvals := ApprovalsFor(roles, roles[x].contract);
        var needed := TransitiveDependencies(dag, x);
        if approvals == {} || !(approvals <= needed) {
          return false;
        }
      }
    }
    return true;
  }

  // ---------------------------------------------------------------------------------
  // Over every run, whoever overlaps
  // ---------------------------------------------------------------------------------

  /** Every node that has started has all its dependencies completed. */
  ghost predicate Grounded(record: Record) {
    && |record.states| == |record.context.Playbook().deps|
    && forall x: nat, d: nat {:trigger DependsOn(record.context.Playbook(), x, d)} |
         DependsOn(record.context.Playbook(), x, d) && record.states[x] != Pending ::
           d < |record.states| && record.states[d] == Completed
  }

  /** The record was written by some checkpoint. */
  ghost predicate Logged(log: seq<Event>, record: Record) {
    exists i :: 0 <= i < |log| && log[i].Saved? && log[i].record == record
  }

  ghost predicate Sourced(s: Sys, record: Record) {
    s.row.Some? && record.context == s.row.value.context && Grounded(record) && Logged(s.log, record)
  }

  /** A runner that stands before its first checkpoint, or between marking and recording. */
  ghost predicate SoundPc(s: Sys, pc: Pc) {
    && (pc.Holding? || Active(pc) ==> Sourced(s, pc.record))
    && (Active(pc) ==> pc.node < |pc.record.states| && pc.record.states[pc.node] == NodeRunning)
  }

  ghost predicate AllSourced(s: Sys) {
    (s.row.Some? ==> Sourced(s, s.row.value)) && forall w :: SoundPc(s, s.At(w))
  }

  lemma LoggedLater(log: seq<Event>, later: seq<Event>, record: Record)
    requires Logged(log, record) && log <= later
    ensures Logged(later, record)
  {
    var i :| 0 <= i < |log| && log[i].Saved? && log[i].record == record;
    assert later[i] == log[i];
  }

  lemma SourcedLater(s: Sys, s': Sys, record: Record)
    requires Sourced(s, record) && s.log <= s'.log
    requires s'.row.Some? && s'.row.value.context == s.row.value.context
    ensures Sourced(s', record)
  {
    LoggedLater(s.log, s'.log, record);
  }

  /** Moving one runner to a sound position. */
  lemma MoveSourced(s: Sys, who: nat, pc: Pc)
    requires AllSourced(s) && SoundPc(s, pc)
    ensures AllSourced(s.Move(who, pc))
  {
    var s' := s.Move(who, pc);
    forall w: nat ensures SoundPc(s', s'.At(w)) {
      assert s'.At(w) == if w == who then pc else s.At(w);
      assert SoundPc(s, s'.At(w));
    }
  }

  /** A checkpoint of a grounded record. */
  lemma SaveSourced(s: Sys, who: nat, next: Record, pc: Pc)
    requires AllSourced(s) && Grounded(next) && (s.row.Some? ==> next.context == s.row.value.context)
    requires pc == Idle || ((pc.Holding? || pc.Marked?) && pc.record == next)
    requires pc.Marked? ==> pc.node < |next.states| && next.states[pc.node] == NodeRunning
    ensures AllSourced(s.Save(who, next, pc))
  {
    var s' := s.Save(who, next, pc);
    assert s'.log[|s.log|].record == next;
    assert Sourced(s', next);
    forall w: nat ensures SoundPc(s', s'.At(w)) {
      if w != who {
        assert s'.At(w) == s.At(w) && SoundPc(s, s.At(w));
        if s.At(w).Holding? || Active(s.At(w)) {
          SourcedLater(s, s', s.At(w).record);
        }
      } else {
        assert s'.At(w) == pc;
      }
    }
  }

  /** What one call decides is grounded again. */
  lemma DecisionGrounded(record: Record, asOf: int)
    requires Grounded(record)
    ensures
      match Decide(record, asOf)
      case Checkpoint(next) => next.context == record.context && Grounded(next)
      case Launch(node, _, next) =>
        next.context == record.context && Grounded(next) && node < |next.states| && next.states[node] == NodeRunning
      case _ => true
  {
    DecideCases(record, asOf);
    if Decide(record, asOf).Launch? {
      MarkGrounded(record, Decide(record, asOf).node, asOf);
    }
  }

  lemma MarkGrounded(record: Record, node: nat, asOf: int)
    requires Grounded(record) && node < |record.states|
    requires record.states[node] == Paused || node in Startable(record.context.Playbook(), record.states)
    ensures Grounded(MarkedRecord(record, node, asOf))
  {
    var next := MarkedRecord(record, node, asOf);
    forall x: nat, d: nat | DependsOn(record.context.Playbook(), x, d) && next.states[x] != Pending
      ensures d < |next.states| && next.states[d] == Completed
    {
      if x == node && record.states[node] == Pending {
        assert d in NodesWith(record.states, Completed);
      }
    }
  }

  lemma OutcomeGrounded(record: Record, node: nat, asOf: int, reply: Reply)
    requires Grounded(record) && node < |record.states| && record.states[node] == NodeRunning
    ensures Grounded(Outcomed(record, node, asOf, reply))
  {
    OutcomeFits(record, node, asOf, reply, false);
    assert forall x: nat, d: nat {:trigger DependsOn(record.context.Playbook(), x, d)} |
      DependsOn(record.context.Playbook(), x, d) && record.states[x] != Pending :: d != node;
  }

  lemma AdvanceSourced(compare: Compare, s: Sys, who: nat)
    requires AllSourced(s) && s.At(who).Holding?
    ensures AllSourced(Apply(compare, s, Advance(who)))
  {
    var pc := s.At(who);
    assert SoundPc(s, pc);
    AdvanceEffect(compare, s, who);
    MoveSourced(s, who, Idle);
    DecisionGrounded(pc.record, pc.asOf);
    if Acts(compare, s, who) {
      match Decide(pc.record, pc.asOf)
      case Checkpoint(next) => SaveSourced(s, who, next, Idle);
      case Launch(node, resumed, next) => SaveSourced(s, who, next, Marked(next, pc.asOf, node, resumed));
      case _ =>
    }
  }

  lemma ReportSourced(compare: Compare, s: Sys, who: nat, reply: Reply)
    requires AllSourced(s) && Active(s.At(who))
    ensures AllSourced(Apply(compare, s, Report(who, reply)))
  {
    var pc := s.At(who);
    assert SoundPc(s, pc);
    ReportEffect(compare, s, who, reply);
    MoveSourced(s, who, Idle);
    OutcomeGrounded(pc.record, pc.node, pc.asOf, reply);
    SaveSourced(s, who, Outcomed(pc.record, pc.node, pc.asOf, reply), Idle);
  }

  lemma ExecuteSourced(s: Sys, who: nat)
    requires AllSourced(s) && s.At(who).Marked?
    ensures
      var pc := s.At(who);
      AllSourced(s.Move(who, InFlight(pc.record, pc.asOf, pc.node)).(log := s.log + [Dispatched(pc.node, pc.resumed)]))
  {
    var pc := s.At(who);
    var moved := InFlight(pc.record, pc.asOf, pc.node);
    var s' := s.Move(who, moved).(log := s.log + [Dispatched(pc.node, pc.resumed)]);
    assert SoundPc(s, pc);
    SourcedLater(s, s', s.row.value);
    forall w: nat ensures SoundPc(s', s'.At(w)) {
      assert SoundPc(s, s.At(w));
      assert s'.At(w) == if w == who then moved else s.At(w);
      if s.At(w).Holding? || Active(s.At(w)) {
        SourcedLater(s, s', s.At(w).record);
      }
    }
  }

  lemma SourcedStep(compare: Compare, s: Sys, act: Act)
    requires AllSourced(s)
    ensures AllSourced(Apply(compare, s, act))
  {
    match act
    case Fetch(who, context, asOf) =>
      MoveSourced(s, who, Creating(context, asOf));
      if s.row.Some? {
        MoveSourced(s, who, Holding(s.row.value, asOf));
      }
    case Insert(who) =>
      MoveSourced(s, who, Idle);
      if s.At(who).Creating? && s.row.None? {
        var record := NewRecord(s.At(who).context, s.At(who).asOf);
        SaveSourced(s, who, record, Holding(record, s.At(who).asOf));
      }
    case Advance(who) =>
      if s.At(who).Holding? {
        AdvanceSourced(compare, s, who);
      }
    case Execute(who) =>
      if s.At(who).Marked? {
        ExecuteSourced(s, who);
      }
    case Report(who, reply) =>
      if Active(s.At(who)) {
        ReportSourced(compare, s, who, reply);
      }
    case Crash(who) => MoveSourced(s, who, Idle);
  }

  lemma {:induction false} RunsAreSourced(compare: Compare, acts: seq<Act>)
    ensures AllSourced(Run(compare, EMPTY, acts))
    decreases |acts|
  {
    if acts != [] {
      RunsAreSourced(compare, acts[..|acts| - 1]);
      SourcedStep(compare, Run(compare, EMPTY, acts[..|acts| - 1]), acts[|acts| - 1]);
    }
  }

  /** In a grounded record everything a started node needs is completed. */
  lemma {:induction false} NeededIsCompleted(record: Record, path: seq<nat>)
    requires Grounded(record) && |path| > 1 && Path(record.context.Playbook(), path)
    requires path[0] < |record.states| && record.states[path[0]] != Pending
    ensures path[|path| - 1] < |record.states| && record.states[path[|path| - 1]] == Completed
    decreases |path|
  {
    assert DependsOn(record.context.Playbook(), path[|path| - 2], path[|path| - 1]);
    if |path| > 2 {
      NeededIsCompleted(record, path[..|path| - 1]);
    }
  }

  /** Whatever a dispatched node needs has been recorded as completed before. */
  ghost predicate NeedsMet(dag: Dag, log: seq<Event>, node: nat) {
    forall d | Needs(dag, node, d) :: SavedAfter(log, -1, d, Completed)
  }

  ghost predicate AllNeedsMet(dag: Dag, log: seq<Event>) {
    forall j: nat | j < |log| && log[j].Dispatched? :: NeedsMet(dag, log[..j], log[j].node)
  }

  lemma MarkedNeedsAreMet(s: Sys, who: nat)
    requires AllSourced(s) && s.At(who).Marked?
    ensures s.row.Some? && NeedsMet(s.row.value.context.Playbook(), s.log, s.At(who).node)
  {
    var pc := s.At(who);
    assert SoundPc(s, pc);
    var dag := s.row.value.context.Playbook();
    forall d | Needs(dag, pc.node, d) ensures SavedAfter(s.log, -1, d, Completed) {
      var path :| |path| > 1 && Path(dag, path) && path[0] == pc.node && path[|path| - 1] == d;
      NeededIsCompleted(pc.record, path);
      var i :| 0 <= i < |s.log| && s.log[i].Saved? && s.log[i].record == pc.record;
      assert SavedIn(s.log[i], d, Completed);
    }
  }

  lemma NeedsStayMet(dag: Dag, log: seq<Event>, e: Event)
    requires AllNeedsMet(dag, log) && (e.Dispatched? ==> NeedsMet(dag, log, e.node))
    ensures AllNeedsMet(dag, log + [e])
  {
    var longer := log + [e];
    forall j: nat | j < |longer| && longer[j].Dispatched? ensures NeedsMet(dag, longer[..j], longer[j].node) {
      if j < |log| {
        assert longer[..j] == log[..j] && longer[j] == log[j];
      } else {
        assert longer[..j] == log;
      }
    }
  }

  /** A step appends at most one event, and a dispatch only from a mark. */
  lemma StepLogs(compare: Compare, s: Sys, act: Act)
    ensures
      var log := Apply(compare, s, act).log;
      || log == s.log
      || (act.Execute? && s.At(act.who).Marked? && log == s.log + [Dispatched(s.At(act.who).node, s.At(act.who).resumed)])
      || (|log| == |s.log| + 1 && log[|s.log|].Saved? && log == s.log + [log[|s.log|]])
  {
  }

  lemma NeedsMetStep(compare: Compare, s: Sys, act: Act, dag: Dag)
    requires AllSourced(s) && AllNeedsMet(dag, s.log)
    requires s.row.Some? ==> s.row.value.context.Playbook() == dag
    ensures AllNeedsMet(dag, Apply(compare, s, act).log)
  {
    StepLogs(compare, s, act);
    var log := Apply(compare, s, act).log;
    if log != s.log {
      if log[|s.log|].Dispatched? {
        MarkedNeedsAreMet(s, act.who);
      }
      NeedsStayMet(dag, s.log, log[|s.log|]);
    }
  }

  lemma {:induction false} RunsMeetNeeds(compare: Compare, acts: seq<Act>, dag: Dag)
    requires Run(compare, EMPTY, acts).row.Some? ==> Run(compare, EMPTY, acts).row.value.context.Playbook() == dag
    ensures AllNeedsMet(dag, Run(compare, EMPTY, acts).log)
    decreases |acts|
  {
    if acts != [] {
      var before, act := acts[..|acts| - 1], acts[|acts| - 1];
      var s := Run(compare, EMPTY, before);
      RunsAreLoose(compare, before);
      LooseStep(compare, s, act);
      RunsAreSourced(compare, before);
      RunsMeetNeeds(compare, before, dag);
      NeedsMetStep(compare, s, act, dag);
    }
  }

  /**
   However many runners overlap, act on stale records or die: on a playbook whose writes are
   approved no write is handed to its executor before every approval for its contract, of
   which there is one at least, has been recorded as completed.
   */
  lemma ApprovalComesFirst(compare: Compare, acts: seq<Act>, roles: seq<Role>, j: nat)
    requires Run(compare, EMPTY, acts).row.Some?
    requires WritesAreApproved(Run(compare, EMPTY, acts).row.value.context.Playbook(), roles)
    requires
      var log := Run(compare, EMPTY, acts).log;
      j < |log| && log[j].Dispatched? && log[j].node < |roles| && roles[log[j].node].Write?
    ensures
      var log := Run(compare, EMPTY, acts).log;
      var approvals := ApprovalsFor(roles, roles[log[j].node].contract);
      approvals != {} && forall d | d in approvals :: SavedAfter(log[..j], -1, d, Completed)
  {
    var dag := Run(compare, EMPTY, acts).row.value.context.Playbook();
    RunsMeetNeeds(compare, acts, dag);
    assert NeedsMet(dag, Run(compare, EMPTY, acts).log[..j], Run(compare, EMPTY, acts).log[j].node);
  }
}
