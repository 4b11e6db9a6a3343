/**
 What every run of the durable playbook machine keeps, provided no stale checkpoint
 replaces a newer one: the exact shape of the stored record, the dispatch discipline, and
 the order of first dispatches. Runs of one runner at a time are of this kind, and so are
 all runs under a whole-record compare.
 */
module PlaybookSafety {
  import opened Common
  import opened PlaybookDag
  import opened PlaybookRun

  // ---------------------------------------------------------------------------------
  // The shape of a reachable record
  // ---------------------------------------------------------------------------------

  ghost predicate RunnersOrder(dag: Dag, order: seq<nat>) {
    Acyclic(dag) && order == Schedule(dag, {})
  }

  /** With `k` nodes started, node number `i` of the order is in this state. */
  predicate StateFits(state: NodeStatus, i: nat, k: nat) {
    if i + 1 < k then state == Completed
    else if i + 1 == k then state != Pending
    else state == Pending
  }

  /** The run status a record shows when its last started node is in state `last`. */
  predicate StatusFits(status: RunStatus, last: NodeStatus, all: bool) {
    match last
    case Pending => false
    case NodeRunning => status == Running
    case Paused => status == AwaitingApproval || status == AwaitingObservation
    case Completed => status == Running || (all && status == CompletedVerified)
    case Uncertain => status == PausedUncertain
    case HandedOff => status == ManualHandoff
    case NeedsCompensation => status == CompensationRequired
  }

  /**
   Exactly the first `k` nodes of the runner's order have been started; all of them but
   the last are completed, and the run status agrees with the last.
   */
  ghost predicate Shape(order: seq<nat>, record: Record, k: nat) {
    && |record.states| == |record.context.Playbook().deps| == |order| && k <= |order|
    && (forall i | 0 <= i < |order| ::
          order[i] < |order| && StateFits(record.states[order[i]], i, k))
    && (if k == 0 then
          record.status == Planned || (|order| == 0 && record.status == CompletedVerified)
        else StatusFits(record.status, record.states[order[k - 1]], k == |order|))
  }

  // ---------------------------------------------------------------------------------
  // What the log shows
  // ---------------------------------------------------------------------------------

  predicate SavedIn(e: Event, node: nat, status: NodeStatus) {
    e.Saved? && node < |e.record.states| && e.record.states[node] == status
  }

  /** After position `i` a checkpoint recorded `node` in state `status`. */
  predicate SavedAfter(log: seq<Event>, i: int, node: nat, status: NodeStatus) {
    exists k :: i < k < |log| && 0 <= k && SavedIn(log[k], node, status)
  }

  predicate DispatchedIn(log: seq<Event>, node: nat) {
    exists i :: 0 <= i < |log| && log[i].Dispatched? && log[i].node == node
  }

  /**
   `node` may be dispatched after `log`: every earlier dispatch has a recorded outcome
   that is a pause or a completion, every earlier dispatch of `node` itself was recorded
   as paused, `node` was never recorded as completed, and the executor is told it is
   resuming exactly when it was called before.
   */
  ghost predicate MayDispatch(log: seq<Event>, node: nat, resumed: bool) {
    && (forall i | 0 <= i < |log| && log[i].Dispatched? ::
          || SavedAfter(log, i, log[i].node, Paused)
          || SavedAfter(log, i, log[i].node, Completed))
    && (forall i | 0 <= i < |log| && log[i].Dispatched? && log[i].node == node ::
          SavedAfter(log, i, node, Paused))
    && !SavedAfter(log, -1, node, Completed)
    && (resumed <==> DispatchedIn(log, node))
  }

  /** Every dispatch in the log was allowed by what came before it. */
  ghost predicate Disciplined(log: seq<Event>) {
    log == [] ||
    var before, last := log[..|log| - 1], log[|log| - 1];
    Disciplined(before) && (last.Dispatched? ==> MayDispatch(before, last.node, last.resumed))
  }

  /** The nodes dispatched at least once, by their first dispatch. */
  function FirstDispatches(log: seq<Event>): seq<nat> {
    if log == [] then [] else
    var before, last := FirstDispatches(log[..|log| - 1]), log[|log| - 1];
    if last.Dispatched? && last.node !in before then before + [last.node] else before
  }

  // ---------------------------------------------------------------------------------
  // The invariant
  // ---------------------------------------------------------------------------------

  /** Each dispatched node has started, and a recorded state of it is in the log. */
  ghost predicate Accounted(log: seq<Event>, states: seq<NodeStatus>) {
    && (forall i | 0 <= i < |log| && log[i].Dispatched? ::
          && log[i].node < |states| && states[log[i].node] != Pending
          && (states[log[i].node] == Paused ==> SavedAfter(log, i, log[i].node, Paused))
          && (states[log[i].node] == Completed ==> SavedAfter(log, i, log[i].node, Completed)))
    && (forall x: nat | x < |states| && (states[x] == Paused || states[x] == Completed) ::
          DispatchedIn(log, x))
    && forall x: nat | x < |states| && SavedAfter(log, -1, x, Completed) :: states[x] == Completed
  }

  /** The first dispatches are the started nodes, save one that was only marked. */
  predicate FirstInOrder(log: seq<Event>, order: seq<nat>, states: seq<NodeStatus>, k: nat)
    requires k <= |order| && forall i | 0 <= i < |order| :: order[i] < |states|
  {
    || FirstDispatches(log) == order[..k]
    || (k > 0 && FirstDispatches(log) == order[..k - 1]
        && (states[order[k - 1]] == NodeRunning || states[order[k - 1]] == Uncertain))
  }

  predicate Active(pc: Pc) {
    pc.Marked? || pc.InFlight?
  }

  /** A runner between marking and recording holds the stored record, or has been parked. */
  predicate InCharge(pc: Pc, stored: Record)
    requires Active(pc)
  {
    && pc.record.context == stored.context
    && pc.node < |pc.record.states| == |stored.states| && pc.record.states[pc.node] == NodeRunning
    && (pc.record == stored ||
        (Terminal(stored.status) && stored.states[pc.node] == Uncertain))
  }

  /** The stored record and the log agree. */
  ghost predicate RecordInv(log: seq<Event>, stored: Record, order: seq<nat>, k: nat) {
    && RunnersOrder(stored.context.Playbook(), order) && Shape(order, stored, k)
    && Accounted(log, stored.states)
    && FirstInOrder(log, order, stored.states, k)
  }

  /** What holds of a runner that is about to call the executor, or is waiting for it. */
  ghost predicate RunnerInv(pc: Pc, log: seq<Event>, stored: Record, order: seq<nat>, k: nat) {
    Active(pc) ==>
      && k <= |order| && InCharge(pc, stored)
      && (pc.Marked? ==> MayDispatch(log, pc.node, pc.resumed))
      && (if pc.Marked? && !pc.resumed then k > 0 && FirstDispatches(log) == order[..k - 1]
          else FirstDispatches(log) == order[..k] && DispatchedIn(log, pc.node))
  }

  /** At most one runner stands between marking a node and recording its outcome. */
  ghost predicate OneActive(s: Sys) {
    forall a, b | Active(s.At(a)) && Active(s.At(b)) :: a == b
  }

  ghost predicate StoredInv(s: Sys, stored: Record, order: seq<nat>, k: nat) {
    && RecordInv(s.log, stored, order, k)
    && OneActive(s)
    && forall who :: RunnerInv(s.At(who), s.log, stored, order, k)
  }

  ghost predicate Inv(s: Sys, k: nat) {
    && Disciplined(s.log)
    && (forall who | s.At(who).Creating? :: Acyclic(s.At(who).context.Playbook()))
    && (s.row.None? ==> s.log == [] && forall who :: !Active(s.At(who)) && !s.At(who).Holding?)
    && (s.row.Some? ==> StoredInv(s, s.row.value, Schedule(s.row.value.context.Playbook(), {}), k))
  }

  // ---------------------------------------------------------------------------------
  // The runner's order and the frontier of a record
  // ---------------------------------------------------------------------------------

  lemma OrderFacts(dag: Dag, order: seq<nat>)
    requires RunnersOrder(dag, order)
    ensures |order| == |dag.deps| && Distinct(order)
    ensures forall i | 0 <= i < |order| :: order[i] < |order|
    ensures forall x: nat | x < |order| :: x in order
  {
    ScheduleCompletes(dag, {});
    ScheduleLength(dag);
    forall i | 0 <= i < |order| ensures order[i] < |order| { assert order[i] in order; }
  }

  lemma StateAt(order: seq<nat>, record: Record, k: nat, x: nat) returns (i: nat)
    requires RunnersOrder(record.context.Playbook(), order) && Shape(order, record, k)
    requires x < |record.states|
    ensures i < |order| && order[i] == x && StateFits(record.states[x], i, k)
  {
    OrderFacts(record.context.Playbook(), order);
    assert x in order;
    i :| 0 <= i < |order| && order[i] == x;
  }

  lemma FrontierStates(order: seq<nat>, record: Record, k: nat)
    requires RunnersOrder(record.context.Playbook(), order) && Shape(order, record, k)
    requires !Terminal(record.status)
    ensures |order| == |record.context.Playbook().deps|
    ensures k == 0 || (order[k - 1] < |record.states| && record.states[order[k - 1]] in {NodeRunning, Paused, Completed})
    ensures forall x: nat | x < |record.states| ::
      record.states[x] == NodeRunning || record.states[x] == Paused ==> k > 0 && x == order[k - 1]
    ensures k == 0 || record.states[order[k - 1]] == Completed ==>
      && (forall x: nat | x < |record.states| :: record.states[x] == Completed <==> x in Elements(order[..k]))
      && (forall x: nat | x < |record.states| :: record.states[x] == Pending <==> x !in Elements(order[..k]))
      && (forall x | x in Elements(order[..k]) :: x < |record.states|)
  {
    var states := record.states;
    OrderFacts(record.context.Playbook(), order);
    if k > 0 {
      assert StatusFits(record.status, states[order[k - 1]], k == |order|);
      assert StateFits(states[order[k - 1]], k - 1, k);
    }
    forall x: nat | x < |states|
      ensures states[x] == NodeRunning || states[x] == Paused ==> k > 0 && x == order[k - 1]
      ensures k == 0 || states[order[k - 1]] == Completed ==> (states[x] == Completed <==> x in order[..k])
      ensures k == 0 || states[order[k - 1]] == Completed ==> (states[x] == Pending <==> x !in order[..k])
    {
      var i := StateAt(order, record, k, x);
      if i < k {
        assert order[..k][i] == x;
      } else {
        forall j | 0 <= j < k ensures order[..k][j] != x { assert order[j] != order[i]; }
      }
    }
  }

  /** A record that is neither terminal nor running either waits on its last node or has completed it. */
  lemma Frontier(order: seq<nat>, record: Record, k: nat)
    requires RunnersOrder(record.context.Playbook(), order) && Shape(order, record, k)
    requires !Terminal(record.status)
    ensures k > 0 && record.states[order[k - 1]] == NodeRunning ==>
      NodesWith(record.states, NodeRunning) != {}
    ensures k > 0 && record.states[order[k - 1]] == Paused ==>
      NodesWith(record.states, NodeRunning) == {} && NodesWith(record.states, Paused) == {order[k - 1]}
    ensures k == 0 || record.states[order[k - 1]] == Completed ==>
      && NodesWith(record.states, NodeRunning) == NodesWith(record.states, Paused) == {}
      && NodesWith(record.states, Completed) == Elements(order[..k])
      && Startable(record.context.Playbook(), record.states) == Ready(record.context.Playbook(), Elements(order[..k]))
    ensures k == 0 || record.states[order[k - 1]] in {NodeRunning, Paused, Completed}
  {
    var states := record.states;
    FrontierStates(order, record, k);
    if k == 0 || states[order[k - 1]] == Completed {
      assert NodesWith(states, Completed) == Elements(order[..k]);
      assert Startable(record.context.Playbook(), states) == Ready(record.context.Playbook(), Elements(order[..k]));
    } else {
      assert states[order[k - 1]] == NodeRunning ==> order[k - 1] in NodesWith(states, NodeRunning);
    }
  }

  // ---------------------------------------------------------------------------------
  // One more event
  // ---------------------------------------------------------------------------------

  lemma Appended(log: seq<Event>, e: Event)
    ensures forall i: int, node, status {:trigger SavedAfter(log + [e], i, node, status)} ::
      SavedAfter(log + [e], i, node, status) <==>
        SavedAfter(log, i, node, status) || (i < |log| && SavedIn(e, node, status))
    ensures forall node {:trigger DispatchedIn(log + [e], node)} ::
      DispatchedIn(log + [e], node) <==> DispatchedIn(log, node) || (e.Dispatched? && e.node == node)
  {
    var longer := log + [e];
    forall i: int, node, status
      ensures SavedAfter(longer, i, node, status) <==>
        SavedAfter(log, i, node, status) || (i < |log| && SavedIn(e, node, status))
    {
      if SavedAfter(log, i, node, status) {
        var k :| i < k < |log| && 0 <= k && SavedIn(log[k], node, status);
        assert SavedIn(longer[k], node, status);
      }
      if i < |log| && SavedIn(e, node, status) {
        assert SavedIn(longer[|log|], node, status);
      }
      if SavedAfter(longer, i, node, status) {
        var k :| i < k < |longer| && 0 <= k && SavedIn(longer[k], node, status);
        if k < |log| {
          assert SavedIn(log[k], node, status);
        }
      }
    }
    forall node
      ensures DispatchedIn(longer, node) <==> DispatchedIn(log, node) || (e.Dispatched? && e.node == node)
    {
      if DispatchedIn(log, node) {
        var i :| 0 <= i < |log| && log[i].Dispatched? && log[i].node == node;
        assert longer[i].Dispatched? && longer[i].node == node;
      }
      if e.Dispatched? && e.node == node {
        assert longer[|log|].Dispatched? && longer[|log|].node == node;
      }
    }
  }

  /** The state changes a checkpoint can make: never to pending, never away from completed. */
  ghost predicate Moves(log: seq<Event>, states: seq<NodeStatus>, next: seq<NodeStatus>) {
    && |states| == |next|
    && forall x: nat | x < |states| ::
         || next[x] == states[x]
         || (states[x] != Completed && next[x] != Pending
             && (next[x] == Paused || next[x] == Completed ==> DispatchedIn(log, x)))
  }

  lemma SaveAccounts(log: seq<Event>, states: seq<NodeStatus>, before: Option<RunStatus>, next: Record)
    requires Accounted(log, states) && Moves(log, states, next.states)
    ensures Accounted(log + [Saved(before, next)], next.states)
  {
    var e := Saved(before, next);
    Appended(log, e);
    var longer := log + [e];
    forall i | 0 <= i < |longer| && longer[i].Dispatched?
      ensures
        && longer[i].node < |next.states| && next.states[longer[i].node] != Pending
        && (next.states[longer[i].node] == Paused ==> SavedAfter(longer, i, longer[i].node, Paused))
        && (next.states[longer[i].node] == Completed ==> SavedAfter(longer, i, longer[i].node, Completed))
    {
      assert longer[i] == log[i];
      assert SavedIn(e, longer[i].node, next.states[longer[i].node]);
    }
    forall x: nat | x < |next.states| && SavedAfter(longer, -1, x, Completed)
      ensures next.states[x] == Completed
    {
    }
  }

  lemma DispatchAccounts(log: seq<Event>, states: seq<NodeStatus>, node: nat, resumed: bool)
    requires Accounted(log, states) && node < |states|
    requires states[node] == NodeRunning || states[node] == Uncertain
    ensures Accounted(log + [Dispatched(node, resumed)], states)
  {
    var e := Dispatched(node, resumed);
    Appended(log, e);
    var longer := log + [e];
    forall i | 0 <= i < |longer| && longer[i].Dispatched?
      ensures
        && longer[i].node < |states| && states[longer[i].node] != Pending
        && (states[longer[i].node] == Paused ==> SavedAfter(longer, i, longer[i].node, Paused))
        && (states[longer[i].node] == Completed ==> SavedAfter(longer, i, longer[i].node, Completed))
    {
      if i < |log| {
        assert longer[i] == log[i];
      }
    }
  }

  /** A checkpoint that records nothing about `node` being completed keeps its permission. */
  lemma SaveKeepsPermission(log: seq<Event>, e: Event, node: nat, resumed: bool)
    requires MayDispatch(log, node, resumed) && e.Saved? && !SavedIn(e, node, Completed)
    ensures MayDispatch(log + [e], node, resumed)
  {
    Appended(log, e);
    var longer := log + [e];
    assert forall i | 0 <= i < |longer| && longer[i].Dispatched? :: longer[i] == log[i];
  }

  /** A record with no node running gives permission to the node it takes next. */
  lemma Permission(log: seq<Event>, states: seq<NodeStatus>, node: nat)
    requires Accounted(log, states)
    requires forall x: nat | x < |states| :: states[x] in {Pending, Paused, Completed}
    requires node < |states| && (states[node] == Pending || states[node] == Paused)
    ensures MayDispatch(log, node, states[node] == Paused)
  {
    if DispatchedIn(log, node) {
      var i :| 0 <= i < |log| && log[i].Dispatched? && log[i].node == node;
    }
  }

  lemma LogGrows(log: seq<Event>, e: Event)
    ensures (log + [e])[..|log|] == log
    ensures FirstDispatches(log + [e]) ==
      if e.Dispatched? && e.node !in FirstDispatches(log) then FirstDispatches(log) + [e.node]
      else FirstDispatches(log)
    ensures Disciplined(log) && (e.Dispatched? ==> MayDispatch(log, e.node, e.resumed)) ==>
      Disciplined(log + [e])
  {
    assert (log + [e])[..|log|] == log;
  }

  // ---------------------------------------------------------------------------------
  // How the shape moves
  // ---------------------------------------------------------------------------------

  /** The last started node changes state. */
  lemma LastChanges(order: seq<nat>, record: Record, k: nat, next: Record)
    requires RunnersOrder(record.context.Playbook(), order) && Shape(order, record, k) && k > 0
    requires next.context == record.context
    requires |next.states| == |record.states|
    requires next.states == record.states[order[k - 1] := next.states[order[k - 1]]]
    requires StatusFits(next.status, next.states[order[k - 1]], k == |order|)
    ensures Shape(order, next, k)
  {
    OrderFacts(record.context.Playbook(), order);
    forall i | 0 <= i < |order|
      ensures order[i] < |order| && StateFits(next.states[order[i]], i, k)
    {
      if i != k - 1 {
        assert order[i] != order[k - 1];
      }
    }
  }

  /** Node number `k` starts. */
  lemma OneMoreStarts(order: seq<nat>, record: Record, k: nat, next: Record)
    requires RunnersOrder(record.context.Playbook(), order) && Shape(order, record, k) && k < |order|
    requires k > 0 ==> record.states[order[k - 1]] == Completed
    requires next.context == record.context && next.status == Running
    requires next.states == record.states[order[k] := NodeRunning]
    ensures Shape(order, next, k + 1)
  {
    OrderFacts(record.context.Playbook(), order);
    forall i | 0 <= i < |order|
      ensures order[i] < |order| && StateFits(next.states[order[i]], i, k + 1)
    {
      if i != k {
        assert order[i] != order[k];
      }
    }
  }

  /** Parking changes only the last started node. */
  lemma ParkChangesLast(order: seq<nat>, record: Record, k: nat)
    requires RunnersOrder(record.context.Playbook(), order) && Shape(order, record, k)
    requires NodesWith(record.states, NodeRunning) != {}
    ensures k > 0 && record.states[order[k - 1]] == NodeRunning
    ensures ParkRunning(record.states) == record.states[order[k - 1] := Uncertain]
  {
    OrderFacts(record.context.Playbook(), order);
    var x :| x in NodesWith(record.states, NodeRunning);
    var i := StateAt(order, record, k, x);
    forall y: nat | y < |record.states| && record.states[y] == NodeRunning ensures y == order[k - 1] {
      var j := StateAt(order, record, k, y);
    }
  }

  // ---------------------------------------------------------------------------------
  // One step of one runner
  // ---------------------------------------------------------------------------------

  /** A checkpoint write, if `act` makes one, replaces exactly the record its runner holds. */
  ghost predicate Exact(compare: Compare, s: Sys, act: Act) {
    act.Advance? || act.Report? ==>
      var pc := s.At(act.who);
      (if act.Advance? then pc.Holding? else Active(pc)) && Replaces(compare, s.row, pc.record) ==>
        s.row == Some(pc.record)
  }

  ghost predicate ValidAct(act: Act) {
    act.Fetch? ==> Acyclic(act.context.Playbook())
  }

  /** Moving one runner to a passive position keeps everything else. */
  lemma PassiveMove(s: Sys, k: nat, who: nat, pc: Pc)
    requires Inv(s, k) && !Active(pc)
    requires pc.Creating? ==> Acyclic(pc.context.Playbook())
    requires pc.Holding? ==> s.row.Some?
    ensures Inv(s.Move(who, pc), k)
  {
    var s' := s.Move(who, pc);
    assert forall w :: s'.At(w) == if w == who then pc else s.At(w);
  }

  /** What a checkpoint write needs so that the record and the log go on agreeing. */
  ghost predicate Writable(s: Sys, next: Record, k': nat) {
    var order := Schedule(next.context.Playbook(), {});
    && s.row.Some? && next.context == s.row.value.context
    && Shape(order, next, k') && Moves(s.log, s.row.value.states, next.states)
    && FirstInOrder(s.log, order, next.states, k')
  }

  lemma SaveRecord(s: Sys, k: nat, before: Option<RunStatus>, next: Record, k': nat)
    requires Inv(s, k) && Writable(s, next, k')
    ensures RecordInv(s.log + [Saved(before, next)], next, Schedule(next.context.Playbook(), {}), k')
  {
    LogGrows(s.log, Saved(before, next));
    SaveAccounts(s.log, s.row.value.states, before, next);
  }

  lemma SaveRunner(pc: Pc, log: seq<Event>, before: Option<RunStatus>, next: Record,
                   order: seq<nat>, k: nat)
    requires RunnerInv(pc, log, next, order, k)
    ensures RunnerInv(pc, log + [Saved(before, next)], next, order, k)
  {
    LogGrows(log, Saved(before, next));
    Appended(log, Saved(before, next));
    if pc.Marked? {
      SaveKeepsPermission(log, Saved(before, next), pc.node, pc.resumed);
    }
  }

  lemma SaveRunners(s: Sys, who: nat, next: Record, pc: Pc, order: seq<nat>, k: nat)
    requires forall w | w != who :: RunnerInv(s.At(w), s.log, next, order, k)
    requires RunnerInv(pc, s.log, next, order, k)
    ensures forall w :: RunnerInv(s.Save(who, next, pc).At(w), s.Save(who, next, pc).log, next, order, k)
  {
    var s' := s.Save(who, next, pc);
    var before := if s.row.Some? then Some(s.row.value.status) else None;
    forall w: nat ensures RunnerInv(s'.At(w), s'.log, next, order, k) {
      SaveRunner(if w == who then pc else s.At(w), s.log, before, next, order, k);
    }
  }

  /** After a write only the writer can be where nobody else may be. */
  lemma SaveLeavesOneActive(s: Sys, who: nat, next: Record, pc: Pc)
    requires OneActive(s) && !pc.Creating? && !pc.InFlight?
    requires forall w | s.At(w).Creating? :: Acyclic(s.At(w).context.Playbook())
    requires pc.Marked? ==> forall w | w != who :: !Active(s.At(w))
    ensures OneActive(s.Save(who, next, pc))
    ensures forall w | s.Save(who, next, pc).At(w).Creating? :: Acyclic(s.Save(who, next, pc).At(w).context.Playbook())
  {
    var s' := s.Save(who, next, pc);
    assert forall w :: s'.At(w) == if w == who then pc else s.At(w);
  }

  /** A checkpoint write by `who`: what must hold of the record for the invariant to go on. */
  lemma SaveStep(s: Sys, k: nat, who: nat, next: Record, pc: Pc, k': nat)
    requires Inv(s, k) && Writable(s, next, k')
    requires !pc.Creating? && !pc.InFlight?
    requires pc.Marked? ==> forall w | w != who :: !Active(s.At(w))
    requires forall w | w != who ::
      RunnerInv(s.At(w), s.log, next, Schedule(next.context.Playbook(), {}), k')
    requires RunnerInv(pc, s.log, next, Schedule(next.context.Playbook(), {}), k')
    ensures Inv(s.Save(who, next, pc), k')
  {
    var order := Schedule(next.context.Playbook(), {});
    var before := Some(s.row.value.status);
    var s' := s.Save(who, next, pc);
    LogGrows(s.log, Saved(before, next));
    SaveRecord(s, k, before, next, k');
    SaveRunners(s, who, next, pc, order, k');
    SaveLeavesOneActive(s, who, next, pc);
    assert StoredInv(s', next, order, k');
  }

  lemma NewRecordFits(context: Context, asOf: int)
    requires Acyclic(context.Playbook())
    ensures RecordInv([Saved(None, NewRecord(context, asOf))], NewRecord(context, asOf),
                      Schedule(context.Playbook(), {}), 0)
  {
    var record, order := NewRecord(context, asOf), Schedule(context.Playbook(), {});
    OrderFacts(context.Playbook(), order);
    var log := [Saved(None, record)];
    assert log[..0] == [] && order[..0] == [];
    assert FirstDispatches([]) == [] == FirstDispatches(log);
    forall x: nat | x < |record.states| ensures !SavedAfter(log, -1, x, Completed) {
      assert !SavedIn(log[0], x, Completed);
    }
  }

  lemma InsertStep(s: Sys, k: nat, who: nat)
    requires Inv(s, k) && s.row.None? && s.At(who).Creating?
    ensures
      var record := NewRecord(s.At(who).context, s.At(who).asOf);
      Inv(s.Save(who, record, Holding(record, s.At(who).asOf)), 0)
  {
    var record := NewRecord(s.At(who).context, s.At(who).asOf);
    var s' := s.Save(who, record, Holding(record, s.At(who).asOf));
    assert [] + [Saved(None, record)] == [Saved(None, record)] == s'.log;
    NewRecordFits(s.At(who).context, s.At(who).asOf);
    LogGrows([], Saved(None, record));
    assert forall w :: s'.At(w) == if w == who then Holding(record, s.At(who).asOf) else s.At(w);
    assert forall w :: !Active(s'.At(w));
    assert StoredInv(s', record, Schedule(record.context.Playbook(), {}), 0);
  }

  lemma ActiveRuns(s: Sys, k: nat, who: nat)
    requires Inv(s, k) && s.row.Some?
    ensures Active(s.At(who)) && !Terminal(s.row.value.status) ==>
      s.At(who).node in NodesWith(s.row.value.states, NodeRunning)
  {
  }

  lemma AllDispatched(s: Sys, k: nat)
    requires Inv(s, k) && s.row.Some?
    requires !Terminal(s.row.value.status) && NodesWith(s.row.value.states, NodeRunning) == {}
    ensures FirstDispatches(s.log) == Schedule(s.row.value.context.Playbook(), {})[..k]
  {
    var record, order := s.row.value, Schedule(s.row.value.context.Playbook(), {});
    Frontier(order, record, k);
  }

  lemma NoneActive(s: Sys, k: nat)
    requires Inv(s, k) && s.row.Some? && !Terminal(s.row.value.status)
    requires NodesWith(s.row.value.states, NodeRunning) == {}
    ensures forall w :: !Active(s.At(w))
    ensures FirstDispatches(s.log) == Schedule(s.row.value.context.Playbook(), {})[..k]
  {
    forall w: nat ensures !Active(s.At(w)) {
      ActiveRuns(s, k, w);
    }
    AllDispatched(s, k);
  }

  lemma ParkStep(s: Sys, k: nat, who: nat, asOf: int)
    requires Inv(s, k) && s.row.Some? && s.At(who).Holding?
    requires !Terminal(s.row.value.status) && NodesWith(s.row.value.states, NodeRunning) != {}
    ensures Inv(s.Save(who, ParkedRecord(s.row.value, asOf), Idle), k)
  {
    var next := ParkedRecord(s.row.value, asOf);
    var record, order := s.row.value, Schedule(next.context.Playbook(), {});
    ParkChangesLast(order, record, k);
    LastChanges(order, record, k, next);
    forall w | w != who && Active(s.At(w)) ensures InCharge(s.At(w), next) {
      assert InCharge(s.At(w), record);
    }
    SaveStep(s, k, who, next, Idle, k);
  }

  /** Every started node but the last is completed, so an unfinished record has a next node. */
  lemma NothingStartable(order: seq<nat>, record: Record, k: nat)
    requires RunnersOrder(record.context.Playbook(), order) && Shape(order, record, k)
    requires !Terminal(record.status)
    requires NodesWith(record.states, NodeRunning) == NodesWith(record.states, Paused) == {}
    requires Startable(record.context.Playbook(), record.states) == {}
    ensures k == |order| && (k > 0 ==> record.states[order[k - 1]] == Completed)
    ensures forall x: nat | x < |record.states| :: record.states[x] == Completed
  {
    Frontier(order, record, k);
    NextInOrder(record.context.Playbook(), order, k);
    forall x: nat | x < |record.states| ensures record.states[x] == Completed {
      var i := StateAt(order, record, k, x);
    }
  }

  /** A checkpoint write while no runner is between marking and recording. */
  lemma SaveAlone(s: Sys, k: nat, who: nat, next: Record, pc: Pc, k': nat)
    requires Inv(s, k) && Writable(s, next, k')
    requires !pc.Creating? && !pc.InFlight?
    requires !Terminal(s.row.value.status) && NodesWith(s.row.value.states, NodeRunning) == {}
    requires RunnerInv(pc, s.log, next, Schedule(next.context.Playbook(), {}), k')
    ensures Inv(s.Save(who, next, pc), k')
  {
    NoneActive(s, k);
    SaveStep(s, k, who, next, pc, k');
  }

  lemma CompleteWrites(s: Sys, k: nat, asOf: int)
    requires Inv(s, k) && s.row.Some? && !Terminal(s.row.value.status)
    requires NodesWith(s.row.value.states, NodeRunning) == NodesWith(s.row.value.states, Paused) == {}
    requires Startable(s.row.value.context.Playbook(), s.row.value.states) == {}
    ensures Writable(s, CompletedRecord(s.row.value, asOf), k)
  {
    var record, next := s.row.value, CompletedRecord(s.row.value, asOf);
    var order := Schedule(next.context.Playbook(), {});
    NothingStartable(order, record, k);
    if k > 0 {
      assert next.states == record.states[order[k - 1] := next.states[order[k - 1]]];
      LastChanges(order, record, k, next);
    }
  }

  lemma CompleteStep(s: Sys, k: nat, who: nat, asOf: int)
    requires Inv(s, k) && s.row.Some? && !Terminal(s.row.value.status)
    requires NodesWith(s.row.value.states, NodeRunning) == NodesWith(s.row.value.states, Paused) == {}
    requires Startable(s.row.value.context.Playbook(), s.row.value.states) == {}
    ensures Inv(s.Save(who, CompletedRecord(s.row.value, asOf), Idle), k)
  {
    CompleteWrites(s, k, asOf);
    SaveAlone(s, k, who, CompletedRecord(s.row.value, asOf), Idle, k);
  }

  lemma OnlySettled(order: seq<nat>, record: Record, k: nat)
    requires RunnersOrder(record.context.Playbook(), order) && Shape(order, record, k)
    requires !Terminal(record.status) && NodesWith(record.states, NodeRunning) == {}
    ensures forall x: nat | x < |record.states| :: record.states[x] in {Pending, Paused, Completed}
  {
    forall x: nat | x < |record.states| ensures record.states[x] in {Pending, Paused, Completed} {
      var i := StateAt(order, record, k, x);
      assert x !in NodesWith(record.states, NodeRunning);
    }
  }

  lemma ResumeWrites(s: Sys, k: nat, node: nat, asOf: int)
    requires Inv(s, k) && s.row.Some? && !Terminal(s.row.value.status)
    requires NodesWith(s.row.value.states, NodeRunning) == {}
    requires NodesWith(s.row.value.states, Paused) != {}
    requires node == Least(NodesWith(s.row.value.states, Paused))
    ensures node < |s.row.value.states| && s.row.value.states[node] == Paused
    ensures Writable(s, MarkedRecord(s.row.value, node, asOf), k)
    ensures FirstDispatches(s.log) == Schedule(s.row.value.context.Playbook(), {})[..k]
    ensures DispatchedIn(s.log, node)
  {
    var record, order := s.row.value, Schedule(s.row.value.context.Playbook(), {});
    Frontier(order, record, k);
    assert k > 0 && node == order[k - 1];
    AllDispatched(s, k);
    LastChanges(order, record, k, MarkedRecord(record, node, asOf));
  }

  lemma ResumeStep(s: Sys, k: nat, who: nat, node: nat, asOf: int)
    requires Inv(s, k) && s.row.Some? && !Terminal(s.row.value.status)
    requires NodesWith(s.row.value.states, NodeRunning) == {}
    requires NodesWith(s.row.value.states, Paused) != {}
    requires node == Least(NodesWith(s.row.value.states, Paused))
    ensures
      var next := MarkedRecord(s.row.value, node, asOf);
      Inv(s.Save(who, next, Marked(next, asOf, node, true)), k)
  {
    var record := s.row.value;
    ResumeWrites(s, k, node, asOf);
    OnlySettled(Schedule(record.context.Playbook(), {}), record, k);
    Permission(s.log, record.states, node);
    var next := MarkedRecord(record, node, asOf);
    SaveAlone(s, k, who, next, Marked(next, asOf, node, true), k);
  }

  /** The least startable node is the next one in the runner's order. */
  lemma StartsNext(order: seq<nat>, record: Record, k: nat)
    requires RunnersOrder(record.context.Playbook(), order) && Shape(order, record, k)
    requires !Terminal(record.status)
    requires NodesWith(record.states, NodeRunning) == NodesWith(record.states, Paused) == {}
    requires Startable(record.context.Playbook(), record.states) != {}
    ensures k < |order| && order[k] < |record.states| && record.states[order[k]] == Pending
    ensures Least(Startable(record.context.Playbook(), record.states)) == order[k]
    ensures k > 0 ==> record.states[order[k - 1]] == Completed
  {
    Frontier(order, record, k);
    NextInOrder(record.context.Playbook(), order, k);
  }

  lemma StartWrites(s: Sys, k: nat, node: nat, asOf: int)
    requires Inv(s, k) && s.row.Some? && !Terminal(s.row.value.status)
    requires NodesWith(s.row.value.states, NodeRunning) == NodesWith(s.row.value.states, Paused) == {}
    requires Startable(s.row.value.context.Playbook(), s.row.value.states) != {}
    requires node == Least(Startable(s.row.value.context.Playbook(), s.row.value.states))
    ensures node < |s.row.value.states| && s.row.value.states[node] == Pending
    ensures Writable(s, MarkedRecord(s.row.value, node, asOf), k + 1)
    ensures k < |Schedule(s.row.value.context.Playbook(), {})|
    ensures FirstDispatches(s.log) == Schedule(s.row.value.context.Playbook(), {})[..k]
  {
    var record, order := s.row.value, Schedule(s.row.value.context.Playbook(), {});
    StartsNext(order, record, k);
    AllDispatched(s, k);
    OneMoreStarts(order, record, k, MarkedRecord(record, node, asOf));
  }

  lemma StartStep(s: Sys, k: nat, who: nat, node: nat, asOf: int)
    requires Inv(s, k) && s.row.Some? && !Terminal(s.row.value.status)
    requires NodesWith(s.row.value.states, NodeRunning) == NodesWith(s.row.value.states, Paused) == {}
    requires Startable(s.row.value.context.Playbook(), s.row.value.states) != {}
    requires node == Least(Startable(s.row.value.context.Playbook(), s.row.value.states))
    ensures
      var next := MarkedRecord(s.row.value, node, asOf);
      Inv(s.Save(who, next, Marked(next, asOf, node, false)), k + 1)
  {
    var record := s.row.value;
    StartWrites(s, k, node, asOf);
    OnlySettled(Schedule(record.context.Playbook(), {}), record, k);
    Permission(s.log, record.states, node);
    var next := MarkedRecord(record, node, asOf);
    SaveAlone(s, k, who, next, Marked(next, asOf, node, false), k + 1);
  }

  lemma RunningIsLast(order: seq<nat>, record: Record, k: nat, node: nat)
    requires RunnersOrder(record.context.Playbook(), order) && Shape(order, record, k)
    requires node < |record.states|
    requires record.states[node] == NodeRunning || record.states[node] == Uncertain
    ensures k > 0 && node == order[k - 1]
  {
    var i := StateAt(order, record, k, node);
  }

  lemma {:induction false} FirstDispatchesAreDispatched(log: seq<Event>, node: nat)
    ensures node in FirstDispatches(log) <==> DispatchedIn(log, node)
  {
    if log != [] {
      var before, last := log[..|log| - 1], log[|log| - 1];
      FirstDispatchesAreDispatched(before, node);
      Appended(before, last);
      assert log == before + [last];
    }
  }

  lemma FirstGrows(log: seq<Event>, order: seq<nat>, k: nat, node: nat, resumed: bool)
    requires 0 < k <= |order| && node == order[k - 1]
    requires resumed <==> DispatchedIn(log, node)
    requires FirstDispatches(log) == if resumed then order[..k] else order[..k - 1]
    ensures FirstDispatches(log + [Dispatched(node, resumed)]) == order[..k]
  {
    LogGrows(log, Dispatched(node, resumed));
    FirstDispatchesAreDispatched(log, node);
    assert order[..k] == order[..k - 1] + [order[k - 1]];
  }

  lemma DispatchRecord(log: seq<Event>, stored: Record, order: seq<nat>, k: nat, pc: Pc)
    requires RecordInv(log, stored, order, k) && RunnerInv(pc, log, stored, order, k) && pc.Marked?
    ensures RecordInv(log + [Dispatched(pc.node, pc.resumed)], stored, order, k)
    ensures FirstDispatches(log + [Dispatched(pc.node, pc.resumed)]) == order[..k]
    ensures DispatchedIn(log + [Dispatched(pc.node, pc.resumed)], pc.node)
  {
    RunningIsLast(order, stored, k, pc.node);
    DispatchAccounts(log, stored.states, pc.node, pc.resumed);
    FirstGrows(log, order, k, pc.node, pc.resumed);
    Appended(log, Dispatched(pc.node, pc.resumed));
  }

  lemma ExecuteStep(s: Sys, k: nat, who: nat)
    requires Inv(s, k) && s.At(who).Marked?
    ensures
      var pc := s.At(who);
      Inv(s.Move(who, InFlight(pc.record, pc.asOf, pc.node)).(log := s.log + [Dispatched(pc.node, pc.resumed)]), k)
  {
    var pc := s.At(who);
    var e := Dispatched(pc.node, pc.resumed);
    var moved := InFlight(pc.record, pc.asOf, pc.node);
    var s' := s.Move(who, moved).(log := s.log + [e]);
    var stored := s.row.value;
    var order := Schedule(stored.context.Playbook(), {});
    assert RunnerInv(pc, s.log, stored, order, k);
    DispatchRecord(s.log, stored, order, k, pc);
    LogGrows(s.log, e);
    assert forall w :: s'.At(w) == if w == who then moved else s.At(w);
    assert OneActive(s');
    assert forall w: nat | w != who :: !Active(s'.At(w));
    assert RunnerInv(moved, s'.log, stored, order, k);
    assert StoredInv(s', stored, order, k);
  }

  lemma OutcomeFits(record: Record, node: nat, asOf: int, reply: Reply, all: bool)
    requires node < |record.states|
    ensures
      var next := Outcomed(record, node, asOf, reply);
      && next.context == record.context
      && next.states == record.states[node := next.states[node]]
      && next.states[node] in {Completed, Paused, Uncertain, HandedOff, NeedsCompensation}
      && StatusFits(next.status, next.states[node], all)
      && (reply == Raised ==> next.states[node] == Uncertain)
  {
  }

  lemma ReportWrites(s: Sys, k: nat, pc: Pc, asOf: int, reply: Reply)
    requires Inv(s, k) && s.row.Some? && Active(pc) && s.row == Some(pc.record)
    requires RunnerInv(pc, s.log, s.row.value, Schedule(s.row.value.context.Playbook(), {}), k)
    requires pc.Marked? ==> reply == Raised
    ensures pc.node < |pc.record.states|
    ensures Writable(s, Outcomed(pc.record, pc.node, asOf, reply), k)
  {
    var record, order := s.row.value, Schedule(s.row.value.context.Playbook(), {});
    RunningIsLast(order, record, k, pc.node);
    OutcomeFits(record, pc.node, asOf, reply, k == |order|);
    LastChanges(order, record, k, Outcomed(record, pc.node, asOf, reply));
  }

  lemma ReportStep(s: Sys, k: nat, who: nat, asOf: int, reply: Reply)
    requires Inv(s, k) && Active(s.At(who)) && s.row == Some(s.At(who).record)
    requires s.At(who).Marked? ==> reply == Raised
    ensures s.At(who).node < |s.At(who).record.states|
    ensures Inv(s.Save(who, Outcomed(s.At(who).record, s.At(who).node, asOf, reply), Idle), k)
  {
    var pc := s.At(who);
    assert RunnerInv(pc, s.log, s.row.value, Schedule(s.row.value.context.Playbook(), {}), k);
    ReportWrites(s, k, pc, asOf, reply);
    assert forall w: nat | w != who :: !Active(s.At(w));
    SaveStep(s, k, who, Outcomed(pc.record, pc.node, asOf, reply), Idle, k);
  }

  /** The situations in which a call parks, completes, resumes or starts. */
  lemma DecideCases(record: Record, asOf: int)
    requires |record.states| == |record.context.Playbook().deps|
    ensures
      var running, paused := NodesWith(record.states, NodeRunning), NodesWith(record.states, Paused);
      var startable := Startable(record.context.Playbook(), record.states);
      match Decide(record, asOf)
      case Checkpoint(next) =>
        && !Terminal(record.status)
        && (if running != {} then next == ParkedRecord(record, asOf)
            else paused == {} && startable == {} && next == CompletedRecord(record, asOf))
      case Launch(node, resumed, next) =>
        && !Terminal(record.status) && running == {}
        && node < |record.states| && next == MarkedRecord(record, node, asOf)
        && (resumed <==> paused != {})
        && (if paused != {} then node == Least(paused) else startable != {} && node == Least(startable))
      case _ => true
  {
  }

  lemma ParkOrComplete(s: Sys, k: nat, who: nat, asOf: int)
    requires Inv(s, k) && s.row.Some? && s.At(who) == Holding(s.row.value, asOf)
    requires |s.row.value.states| == |s.row.value.context.Playbook().deps|
    requires Decide(s.row.value, asOf).Checkpoint?
    ensures Inv(s.Save(who, Decide(s.row.value, asOf).next, Idle), k)
  {
    DecideCases(s.row.value, asOf);
    if NodesWith(s.row.value.states, NodeRunning) != {} {
      ParkStep(s, k, who, asOf);
    } else {
      CompleteStep(s, k, who, asOf);
    }
  }

  ghost function Launched(s: Sys, who: nat, asOf: int): Sys
    requires s.row.Some? && |s.row.value.states| == |s.row.value.context.Playbook().deps|
    requires Decide(s.row.value, asOf).Launch?
  {
    var Launch(node, resumed, next) := Decide(s.row.value, asOf);
    s.Save(who, next, Marked(next, asOf, node, resumed))
  }

  lemma Resumes(s: Sys, k: nat, who: nat, asOf: int)
    requires Inv(s, k) && s.row.Some?
    requires |s.row.value.states| == |s.row.value.context.Playbook().deps|
    requires Decide(s.row.value, asOf).Launch? && Decide(s.row.value, asOf).resumed
    ensures Inv(Launched(s, who, asOf), k)
  {
    DecideCases(s.row.value, asOf);
    ResumeStep(s, k, who, Decide(s.row.value, asOf).node, asOf);
  }

  lemma Starts(s: Sys, k: nat, who: nat, asOf: int)
    requires Inv(s, k) && s.row.Some?
    requires |s.row.value.states| == |s.row.value.context.Playbook().deps|
    requires Decide(s.row.value, asOf).Launch? && !Decide(s.row.value, asOf).resumed
    ensures Inv(Launched(s, who, asOf), k + 1)
  {
    DecideCases(s.row.value, asOf);
    StartStep(s, k, who, Decide(s.row.value, asOf).node, asOf);
  }

  predicate Acts(compare: Compare, s: Sys, who: nat) {
    s.At(who).Holding? &&
    var record := s.At(who).record;
    Replaces(compare, s.row, record) && |record.states| == |record.context.Playbook().deps|
  }

  lemma AdvanceEffect(compare: Compare, s: Sys, who: nat)
    requires s.At(who).Holding?
    ensures !Acts(compare, s, who) ==> Apply(compare, s, Advance(who)) == s.Move(who, Idle)
    ensures Acts(compare, s, who) ==>
      var pc := s.At(who);
      Apply(compare, s, Advance(who)) == match Decide(pc.record, pc.asOf)
        case Checkpoint(next) => s.Save(who, next, Idle)
        case Launch(node, resumed, next) => s.Save(who, next, Marked(next, pc.asOf, node, resumed))
        case _ => s.Move(who, Idle)
  {
  }

  /** A first checkpoint made from the stored record. */
  lemma FreshStep(s: Sys, who: nat, asOf: int, k: nat) returns (k': nat)
    requires Inv(s, k) && s.row.Some? && s.At(who) == Holding(s.row.value, asOf)
    requires |s.row.value.states| == |s.row.value.context.Playbook().deps|
    ensures
      match Decide(s.row.value, asOf)
      case Checkpoint(next) => Inv(s.Save(who, next, Idle), k')
      case Launch(_, _, _) => Inv(Launched(s, who, asOf), k')
      case _ => true
  {
    k' := k;
    match Decide(s.row.value, asOf)
    case Checkpoint(_) => ParkOrComplete(s, k, who, asOf);
    case Launch(_, resumed, _) =>
      if resumed {
        Resumes(s, k, who, asOf);
      } else {
        Starts(s, k, who, asOf);
        k' := k + 1;
      }
    case _ =>
  }

  lemma AdvanceStep(compare: Compare, s: Sys, who: nat, k: nat) returns (k': nat)
    requires Inv(s, k) && Exact(compare, s, Advance(who)) && s.At(who).Holding?
    ensures Inv(Apply(compare, s, Advance(who)), k')
  {
    k' := k;
    AdvanceEffect(compare, s, who);
    PassiveMove(s, k, who, Idle);
    if Acts(compare, s, who) {
      var asOf := s.At(who).asOf;
      assert s.At(who) == Holding(s.row.value, asOf);
      if Decide(s.row.value, asOf).Checkpoint? || Decide(s.row.value, asOf).Launch? {
        k' := FreshStep(s, who, asOf, k);
      }
    }
  }

  lemma ReportEffect(compare: Compare, s: Sys, who: nat, reply: Reply)
    requires Active(s.At(who))
    ensures
      var pc, next := s.At(who), Apply(compare, s, Report(who, reply));
      if pc.node < |pc.record.states| && Replaces(compare, s.row, pc.record) && (pc.Marked? ==> reply == Raised) then
        next == s.Save(who, Outcomed(pc.record, pc.node, pc.asOf, reply), Idle)
      else
        next == s || next == s.Move(who, Idle)
  {
  }

  lemma ReportAct(compare: Compare, s: Sys, who: nat, reply: Reply, k: nat)
    requires Inv(s, k) && Exact(compare, s, Report(who, reply)) && Active(s.At(who))
    ensures Inv(Apply(compare, s, Report(who, reply)), k)
  {
    var pc := s.At(who);
    ReportEffect(compare, s, who, reply);
    PassiveMove(s, k, who, Idle);
    if Replaces(compare, s.row, pc.record) && (pc.Marked? ==> reply == Raised) {
      ReportStep(s, k, who, pc.asOf, reply);
    }
  }

  lemma FetchStep(compare: Compare, s: Sys, act: Act, k: nat)
    requires Inv(s, k) && ValidAct(act) && act.Fetch?
    ensures Inv(Apply(compare, s, act), k)
  {
    if s.row.None? {
      PassiveMove(s, k, act.who, Creating(act.context, act.asOf));
    } else {
      PassiveMove(s, k, act.who, Holding(s.row.value, act.asOf));
    }
  }

  lemma InsertAct(compare: Compare, s: Sys, who: nat, k: nat) returns (k': nat)
    requires Inv(s, k)
    ensures Inv(Apply(compare, s, Insert(who)), k')
  {
    k' := k;
    if s.At(who).Creating? {
      if s.row.None? {
        InsertStep(s, k, who);
        k' := 0;
      } else {
        PassiveMove(s, k, who, Idle);
      }
    }
  }

  lemma AdvanceAct(compare: Compare, s: Sys, who: nat, k: nat) returns (k': nat)
    requires Inv(s, k) && Exact(compare, s, Advance(who))
    ensures Inv(Apply(compare, s, Advance(who)), k')
  {
    k' := k;
    if s.At(who).Holding? {
      k' := AdvanceStep(compare, s, who, k);
    }
  }

  lemma ExecuteAct(compare: Compare, s: Sys, who: nat, k: nat)
    requires Inv(s, k)
    ensures Inv(Apply(compare, s, Execute(who)), k)
  {
    if s.At(who).Marked? {
      ExecuteStep(s, k, who);
    }
  }

  lemma ReportOrNot(compare: Compare, s: Sys, who: nat, reply: Reply, k: nat)
    requires Inv(s, k) && Exact(compare, s, Report(who, reply))
    ensures Inv(Apply(compare, s, Report(who, reply)), k)
  {
    if Active(s.At(who)) {
      ReportAct(compare, s, who, reply, k);
    }
  }

  lemma CrashAct(compare: Compare, s: Sys, who: nat, k: nat)
    requires Inv(s, k)
    ensures Inv(Apply(compare, s, Crash(who)), k)
  {
    PassiveMove(s, k, who, Idle);
  }

  /** Every step keeps the invariant, as long as no stale record is written over a newer one. */
  lemma InvStep(compare: Compare, s: Sys, act: Act, k: nat) returns (k': nat)
    requires Inv(s, k) && ValidAct(act) && Exact(compare, s, act)
    ensures Inv(Apply(compare, s, act), k')
  {
    k' := k;
    match act
    case Fetch(_, _, _) => FetchStep(compare, s, act, k);
    case Insert(who) => k' := InsertAct(compare, s, who, k);
    case Advance(who) => k' := AdvanceAct(compare, s, who, k);
    case Execute(who) => ExecuteAct(compare, s, who, k);
    case Report(who, reply) => ReportOrNot(compare, s, who, reply, k);
    case Crash(who) => CrashAct(compare, s, who, k);
  }
}
