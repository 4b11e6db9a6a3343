/**
 The durable store and the runner themselves: tables and calls that update them in place,
 proved to do exactly what the step machine of `PlaybookRun` does.
 */
module PlaybookRunner {
  import opened Common
  import opened PlaybookDag
  import opened PlaybookReplies
  import opened PlaybookRun
  import opened PlaybookTheorems
  import opened PlaybookSafety

  datatype Refusal =
    | ManifestChanged | PlaybookAbsent | DigestsDiffer      // the trusted inputs do not fit
    | ContextChanged | CheckpointChanged                     // the stored row does not fit
    | NoSafeNextNode | InvalidCheckpoint

  datatype StepResult = Stored(record: Record) | Refused(why: Refusal) | Died

  /** A verified manifest: its digest and its playbooks, which its validator found acyclic. */
  datatype Manifest = Manifest(digest: nat, playbooks: map<nat, PlaybookSpec>) {
    ghost predicate Verified() {
      forall id | id in playbooks :: Acyclic(playbooks[id].dag)
    }
  }

  /** The context pins exactly this manifest, its playbook of that name and the digests the playbook pins. */
  predicate Pins(verified: Manifest, context: Context) {
    context.playbookId in verified.playbooks &&
    var playbook := verified.playbooks[context.playbookId];
    context == context.(manifest := verified.digest, spec := playbook,
                        contracts := playbook.contracts, effects := playbook.effects)
  }

  function ValidatedPlaybook(verified: Manifest, context: Context): (refusal: Option<Refusal>)
    ensures refusal.None? <==> Pins(verified, context)
    ensures refusal == Some(ManifestChanged) <==> verified.digest != context.manifest
    ensures refusal == Some(PlaybookAbsent) <==>
      verified.digest == context.manifest && context.playbookId !in verified.playbooks
    ensures refusal.None? && verified.Verified() ==> Acyclic(context.Playbook())
  {
    if verified.digest != context.manifest then Some(ManifestChanged)
    else if context.playbookId !in verified.playbooks then Some(PlaybookAbsent)
    else
      var playbook := verified.playbooks[context.playbookId];
      if playbook != context.spec || playbook.contracts != context.contracts
        || playbook.effects != context.effects
      then Some(DigestsDiffer)
      else None
  }

  // ---------------------------------------------------------------------------------
  // A call as a sequence of machine steps
  // ---------------------------------------------------------------------------------

  /** All steps of one call, when nothing interrupts it. */
  function CallActs(context: Context, asOf: int, known: bool, reply: Reply): (acts: seq<Act>)
    ensures |acts| == if known then 5 else 4
  {
    [Fetch(0, context, asOf), Insert(0), Advance(0)]
    + (if known then [Execute(0), Report(0, reply)] else [Report(0, Raised)])
  }

  /** A call whose process dies after `alive` of its steps; a call that ends dies idle. */
  function StepActs(context: Context, asOf: int, known: bool, reply: Reply, alive: nat): seq<Act> {
    var acts := CallActs(context, asOf, known, reply);
    (if alive < |acts| then acts[..alive] else acts) + [Crash(0)]
  }

  lemma RunOne(s: Sys, acts: seq<Act>, act: Act)
    ensures Run(StatusAndContext, s, acts + [act]) ==
      Apply(StatusAndContext, Run(StatusAndContext, s, acts), act)
  {
    assert (acts + [act])[..|acts|] == acts;
  }

  lemma {:induction false} RunAppend(s: Sys, acts: seq<Act>, more: seq<Act>)
    ensures Run(StatusAndContext, s, acts + more) ==
      Run(StatusAndContext, Run(StatusAndContext, s, acts), more)
    decreases |more|
  {
    if more == [] {
      assert acts + more == acts;
    } else {
      var init, last := more[..|more| - 1], more[|more| - 1];
      RunAppend(s, acts, init);
      assert acts + more == (acts + init) + [last];
      RunOne(s, acts + init, last);
    }
  }

  /** An idle process ignores everything but a new call. */
  lemma {:induction false} IdleIgnores(s: Sys, acts: seq<Act>)
    requires s.At(0) == Idle
    requires forall i | 0 <= i < |acts| :: acts[i].who == 0 && !acts[i].Fetch?
    ensures
      var s' := Run(StatusAndContext, s, acts);
      s'.row == s.row && s'.log == s.log && s'.At(0) == Idle
    decreases |acts|
  {
    if acts != [] {
      IdleIgnores(s, acts[..|acts| - 1]);
    }
  }

  ghost predicate SoloAct(act: Act, instance: nat) {
    act.who == 0 && ValidAct(act) && (act.Fetch? ==> act.context.instance == instance)
  }

  /** The steps so far are those of one process at a time on this instance. */
  ghost predicate Solo(acts: seq<Act>, instance: nat) {
    forall i | 0 <= i < |acts| :: SoloAct(acts[i], instance)
  }

  ghost predicate OthersIdle(s: Sys) {
    forall w | w != 0 :: s.At(w) == Idle
  }

  lemma OthersStayIdle(s: Sys, act: Act)
    requires OthersIdle(s) && act.who == 0
    ensures OthersIdle(Apply(StatusAndContext, s, act))
  {
    var s' := Apply(StatusAndContext, s, act);
    forall w: nat | w != 0 ensures s'.At(w) == Idle {
      assert s'.At(w) == s.At(w);
    }
  }

  lemma {:induction false} SoloLeavesOthersIdle(acts: seq<Act>, instance: nat)
    requires Solo(acts, instance)
    ensures OthersIdle(Run(StatusAndContext, EMPTY, acts))
    decreases |acts|
  {
    if acts != [] {
      SoloLeavesOthersIdle(acts[..|acts| - 1], instance);
      assert SoloAct(acts[|acts| - 1], instance);
      OthersStayIdle(Run(StatusAndContext, EMPTY, acts[..|acts| - 1]), acts[|acts| - 1]);
    }
  }

  lemma {:induction false} SoloIsCooperative(acts: seq<Act>, instance: nat)
    requires Solo(acts, instance)
    ensures Cooperative(acts)
    decreases |acts|
  {
    if acts != [] {
      SoloIsCooperative(acts[..|acts| - 1], instance);
      SoloLeavesOthersIdle(acts[..|acts| - 1], instance);
      assert SoloAct(acts[|acts| - 1], instance);
    }
  }

  /** What every call leaves behind about one instance. */
  ghost predicate SafeInstance(row: Option<Record>, log: seq<Event>) {
    && Disciplined(log) && PlannedLeft(log) <= 1
    && (row.Some? ==>
          && SoundRecord(row.value)
          && exists order ::
               LeastTopological(row.value.context.Playbook(), order) && FirstDispatches(log) <= order)
  }

  lemma SoloIsSafe(acts: seq<Act>, instance: nat)
    requires Solo(acts, instance)
    ensures
      var s := Run(StatusAndContext, EMPTY, acts);
      SafeInstance(s.row, s.log)
  {
    var s := Run(StatusAndContext, EMPTY, acts);
    SoloIsCooperative(acts, instance);
    CooperativeRunsAreUndisturbed(acts);
    assert forall i | 0 <= i < |acts| :: SoloAct(acts[i], instance);
    var k := CoveredKeepsInv(StatusAndContext, acts);
    PlannedIsLeftOnce(StatusAndContext, acts);
    if s.row.Some? {
      StoredRecordIsSound(StatusAndContext, acts, 0);
      FirstDispatchesFollowLeastOrder(StatusAndContext, acts);
    }
  }

  /** Between calls: this row, this log, and the process idle. */
  ghost predicate Leaves(s: Sys, row: Option<Record>, log: seq<Event>) {
    s.row == row && s.log == log && s.At(0) == Idle
  }

  // ---------------------------------------------------------------------------------
  // The store
  // ---------------------------------------------------------------------------------

  class DurablePlaybookStore {
    var rows: map<nat, Record>
    ghost var logs: map<nat, seq<Event>>
    ghost var history: map<nat, seq<Act>>

    constructor ()
      ensures Valid() && rows == map[]
    {
      rows, logs, history := map[], map[], map[];
    }

    ghost function History(instance: nat): seq<Act>
      reads this
    {
      if instance in history then history[instance] else []
    }

    /** Row and log of an instance are what the step machine leaves after its history. */
    ghost predicate Linked(instance: nat)
      reads this
    {
      && Solo(History(instance), instance)
      && Leaves(Run(StatusAndContext, EMPTY, History(instance)), Row(instance), Log(instance))
    }

    ghost predicate Valid()
      reads this
    {
      forall instance :: Linked(instance)
    }

    function Row(instance: nat): Option<Record>
      reads this
    {
      if instance in rows then Some(rows[instance]) else None
    }

    ghost function Log(instance: nat): seq<Event>
      reads this
    {
      if instance in logs then logs[instance] else []
    }

    /** The record lists a state for every node of its playbook. */
    static predicate Shaped(row: Option<Record>) {
      row.Some? ==> |row.value.states| == |row.value.context.Playbook().deps|
    }

    method Get(instance: nat) returns (row: Option<Record>)
      ensures row == Row(instance)
    {
      row := if instance in rows then Some(rows[instance]) else None;
    }

    /** Fetches the row of an instance, inserting a planned one when there is none. */
    method Ensure(context: Context, asOf: int) returns (r: StepResult)
      modifies this`rows, this`logs
      ensures old(Row(context.instance)).Some? && old(Row(context.instance)).value.context != context ==>
        r == Refused(ContextChanged) && rows == old(rows) && logs == old(logs)
      ensures old(Row(context.instance)).Some? && old(Row(context.instance)).value.context == context ==>
        r == Stored(old(Row(context.instance)).value) && rows == old(rows) && logs == old(logs)
      ensures old(Row(context.instance)).None? ==>
        && r == Stored(NewRecord(context, asOf))
        && rows == old(rows)[context.instance := r.record]
        && logs == old(logs)[context.instance := old(Log(context.instance)) + [Saved(None, r.record)]]
    {
      var existing := Get(context.instance);
      if existing.Some? {
        if existing.value.context != context {
          return Refused(ContextChanged);
        }
        return Stored(existing.value);
      }
      var record := NewRecord(context, asOf);
      logs := logs[context.instance := Log(context.instance) + [Saved(None, record)]];
      rows := rows[context.instance := record];
      return Stored(record);
    }

    /** Writes a checkpoint if the row still shows the status and context it was read with. */
    method Replace(current: Record, updated: Record) returns (r: StepResult)
      requires current.context == updated.context
      modifies this`rows, this`logs
      ensures Replaces(StatusAndContext, old(Row(current.context.instance)), current) ==>
        && r == Stored(updated)
        && rows == old(rows)[current.context.instance := updated]
        && logs == old(logs)[current.context.instance :=
             old(Log(current.context.instance)) + [Saved(Some(current.status), updated)]]
      ensures !Replaces(StatusAndContext, old(Row(current.context.instance)), current) ==>
        r == Refused(CheckpointChanged) && rows == old(rows) && logs == old(logs)
      ensures r == Stored(updated) <==>
        current.context.instance in old(rows) && old(rows[current.context.instance]).context == current.context
        && old(rows[current.context.instance]).status == current.status
    {
      var instance := current.context.instance;
      if instance !in rows || rows[instance].status != current.status
        || rows[instance].context != current.context {
        return Refused(CheckpointChanged);
      }
      logs := logs[instance := Log(instance) + [Saved(Some(current.status), updated)]];
      rows := rows[instance := updated];
      return Stored(updated);
    }

    /** Records in the ghost history what has just been done to one instance. */
    ghost method Note(instance: nat, acts: seq<Act>)
      requires forall i | i != instance :: Linked(i)
      requires Solo(History(instance), instance) && Solo(acts, instance)
      requires Leaves(Run(StatusAndContext, EMPTY, History(instance) + acts), Row(instance), Log(instance))
      modifies this`history
      ensures history == old(history)[instance := old(History(instance)) + acts]
      ensures Valid()
    {
      var was := History(instance);
      history := history[instance := was + acts];
      forall i: nat ensures Linked(i) {
        if i == instance {
          assert History(i) == was + acts;
        } else {
          assert History(i) == old(History(i)) && old(Linked(i));
        }
      }
    }

    /** What the theorems about whole histories say of a valid store. */
    lemma InstanceIsSafe(instance: nat)
      requires Valid()
      ensures SafeInstance(Row(instance), Log(instance)) && Shaped(Row(instance))
    {
      assert Linked(instance);
      SoloIsSafe(History(instance), instance);
    }

    twostate lemma OthersStayLinked(instance: nat)
      requires old(Valid()) && history == old(history)
      requires SameElsewhere(old(rows), rows, instance) && SameElsewhere(old(logs), logs, instance)
      ensures forall i | i != instance :: Linked(i)
    {
      forall i: nat | i != instance ensures Linked(i) {
        assert old(Linked(i)) && Row(i) == old(Row(i)) && Log(i) == old(Log(i)) && History(i) == old(History(i));
      }
    }

    /** The executor is called; nothing is stored. */
    ghost method Dispatch(instance: nat, node: nat, resumed: bool)
      modifies this`logs
      ensures logs == old(logs)[instance := old(Log(instance)) + [Dispatched(node, resumed)]]
    {
      logs := logs[instance := Log(instance) + [Dispatched(node, resumed)]];
    }
  }

  // ---------------------------------------------------------------------------------
  // Choosing the next checkpoint
  // ---------------------------------------------------------------------------------

  predicate Ascending(ids: seq<nat>) {
    forall i, j | 0 <= i < j < |ids| :: ids[i] < ids[j]
  }

  lemma AscendsFurther(ids: seq<nat>, x: nat)
    requires Ascending(ids) && forall y | y in ids :: y < x
    ensures Ascending(ids + [x])
  {
    assert forall i | 0 <= i < |ids| :: ids[i] in ids;
  }

  /** The node IDs in a given state, in ID order. */
  method Where(states: seq<NodeStatus>, status: NodeStatus) returns (ids: seq<nat>)
    ensures Ascending(ids)
    ensures forall x: nat :: x in ids <==> x in NodesWith(states, status)
  {
    ids := [];
    for x := 0 to |states|
      invariant Ascending(ids) && forall y | y in ids :: y < x
      invariant forall y: nat :: y in ids <==> y < x && states[y] == status
    {
      if states[x] == status {
        AscendsFurther(ids, x);
        ids := ids + [x];
      }
    }
  }

  /** The pending nodes whose dependencies are all completed, in ID order. */
  method StartableNodes(dag: Dag, states: seq<NodeStatus>) returns (ids: seq<nat>)
    requires |states| == |dag.deps|
    ensures Ascending(ids)
    ensures forall x: nat :: x in ids <==> x in Startable(dag, states)
  {
    ids := [];
    for x := 0 to |states|
      invariant Ascending(ids) && forall y | y in ids :: y < x
      invariant forall y: nat :: y in ids <==> y < x && y in Startable(dag, states)
    {
      if states[x] == Pending && forall d | d in dag.deps[x] :: d < |states| && states[d] == Completed {
        AscendsFurther(ids, x);
        ids := ids + [x];
      }
    }
  }

  method MarkUncertain(states: seq<NodeStatus>, running: seq<nat>) returns (parked: seq<NodeStatus>)
    requires forall x: nat :: x in running <==> x in NodesWith(states, NodeRunning)
    ensures parked == ParkRunning(states)
  {
    parked := states;
    for i := 0 to |running|
      invariant |parked| == |states|
      invariant forall x: nat | x < |states| ::
        parked[x] == if x in running[..i] then Uncertain else states[x]
    {
      assert running[i] in running;
      parked := parked[running[i] := Uncertain];
    }
    assert running[..|running|] == running;
    forall x: nat | x < |states| ensures parked[x] == ParkRunning(states)[x] {
      assert x in running <==> x in NodesWith(states, NodeRunning);
    }
  }

  /** The body of a call up to its first checkpoint. */
  method Choose(record: Record, asOf: int) returns (d: Decision)
    requires |record.states| == |record.context.Playbook().deps|
    ensures d == Decide(record, asOf)
  {
    if record.status in {PausedUncertain, ManualHandoff, CompensationRequired, CompletedVerified} {
      return Return;
    }
    var running := Where(record.states, NodeRunning);
    if running != [] {
      assert running[0] in NodesWith(record.states, NodeRunning);
      var parked := MarkUncertain(record.states, running);
      return Stamp(record.(status := PausedUncertain, states := parked, updatedAt := asOf,
                           reason := Some(ProcessInterruptedDuringNode)), record, asOf);
    }
    assert NodesWith(record.states, NodeRunning) == {};
    var candidates := Where(record.states, Paused);
    ghost var paused := candidates;
    if candidates == [] {
      candidates := StartableNodes(record.context.Playbook(), record.states);
      assert NodesWith(record.states, Paused) == {} by {
        assert forall x: nat :: x in NodesWith(record.states, Paused) <==> x in paused;
      }
    } else {
      assert candidates[0] in NodesWith(record.states, Paused);
    }
    ghost var possible := if paused != [] then NodesWith(record.states, Paused)
                          else Startable(record.context.Playbook(), record.states);
    assert forall x: nat :: x in candidates <==> x in possible;
    if candidates == [] {
      assert possible == {};
      if forall x: nat | x < |record.states| :: record.states[x] == Completed {
        return Stamp(record.(status := CompletedVerified, updatedAt := asOf, reason := None), record, asOf);
      }
      return NoSafeNext;
    }
    assert candidates[0] in possible;
    assert Least(possible) in candidates;
    var node := candidates[0];
    assert node == Least(possible);
    if asOf < record.createdAt {
      return BadClock;
    }
    return Launch(node, record.states[node] == Paused,
      record.(status := Running, states := record.states[node := NodeRunning], updatedAt := asOf, reason := None));
  }

  // ---------------------------------------------------------------------------------
  // One call, step by step
  // ---------------------------------------------------------------------------------

  /** Everything that determines one call: its inputs, the executor and when the process dies. */
  datatype Call = Call(context: Context, asOf: int, known: bool, reply: Reply, alive: nat) {
    function Acts(): seq<Act> {
      CallActs(context, asOf, known, reply)
    }

    function Steps(): seq<Act> {
      StepActs(context, asOf, known, reply, alive)
    }

    /** The machine after the first `n` steps of this call. */
    ghost function Stage(s0: Sys, n: nat): Sys
      requires n <= |Acts()|
    {
      Run(StatusAndContext, s0, Acts()[..n])
    }
  }

  lemma NextStage(call: Call, s0: Sys, n: nat)
    requires n < |call.Acts()|
    ensures call.Stage(s0, n + 1) == Apply(StatusAndContext, call.Stage(s0, n), call.Acts()[n])
  {
    assert call.Acts()[..n + 1][..n] == call.Acts()[..n];
  }

  /** What is left of a call after its first `n` steps. */
  lemma CallSplits(call: Call, n: nat) returns (rest: seq<Act>)
    requires 1 <= n <= |call.Acts()| && n <= call.alive
    ensures call.Steps() == call.Acts()[..n] + rest
    ensures forall i | 0 <= i < |rest| :: rest[i].who == 0 && !rest[i].Fetch?
    ensures n == call.alive ==> rest == [] + [Crash(0)]
  {
    var acts := call.Acts();
    var last := if call.alive < |acts| then call.alive else |acts|;
    rest := acts[n..last] + [Crash(0)];
    assert acts[..last] == acts[..n] + acts[n..last];
    assert forall i | 1 <= i < |acts| :: acts[i].who == 0 && !acts[i].Fetch?;
  }

  /** Once the process is idle, or dies, the rest of the call leaves row and log alone. */
  lemma CallEnds(call: Call, s0: Sys, n: nat)
    requires 1 <= n <= |call.Acts()| && n <= call.alive
    requires n == call.alive || call.Stage(s0, n).At(0) == Idle
    ensures Leaves(Run(StatusAndContext, s0, call.Steps()), call.Stage(s0, n).row, call.Stage(s0, n).log)
  {
    var rest := CallSplits(call, n);
    var s := call.Stage(s0, n);
    RunAppend(s0, call.Acts()[..n], rest);
    if n == call.alive {
      RunOne(s, [], Crash(0));
    } else {
      IdleIgnores(s, rest);
    }
  }

  lemma StepsAreSolo(call: Call)
    requires Acyclic(call.context.Playbook())
    ensures Solo(call.Steps(), call.context.instance)
  {
    var acts := call.Acts();
    assert forall i | 0 <= i < |acts| :: SoloAct(acts[i], call.context.instance);
  }

  lemma EndsAtOnce(call: Call, s0: Sys)
    requires call.alive == 0 && s0.At(0) == Idle
    ensures Leaves(Run(StatusAndContext, s0, call.Steps()), s0.row, s0.log)
  {
    var steps := call.Steps();
    assert |steps| == 1 && steps[0] == Crash(0);
    assert steps[..0] == [];
  }

  lemma EndsAfterFetching(call: Call, s0: Sys)
    requires call.alive == 1 && s0.At(0) == Idle
    ensures Leaves(Run(StatusAndContext, s0, call.Steps()), s0.row, s0.log)
  {
    NextStage(call, s0, 0);
    CallEnds(call, s0, 1);
  }

  lemma EndsBeforeWriting(call: Call, s0: Sys)
    requires call.alive < 2 && s0.At(0) == Idle
    ensures Leaves(Run(StatusAndContext, s0, call.Steps()), s0.row, s0.log)
  {
    if call.alive == 0 {
      EndsAtOnce(call, s0);
    } else {
      EndsAfterFetching(call, s0);
    }
  }

  /** What fetching and inserting make of the machine. */
  lemma AfterEnsure(call: Call, s0: Sys)
    requires s0.At(0) == Idle
    ensures
      var s := call.Stage(s0, 2);
      if s0.row.None? then
        var record := NewRecord(call.context, call.asOf);
        s.row == Some(record) && s.log == s0.log + [Saved(None, record)] && s.At(0) == Holding(record, call.asOf)
      else if s0.row.value.context != call.context then
        Leaves(s, s0.row, s0.log)
      else
        s.row == s0.row && s.log == s0.log && s.At(0) == Holding(s0.row.value, call.asOf)
  {
    NextStage(call, s0, 0);
    NextStage(call, s0, 1);
  }

  lemma AlwaysSafe(acts: seq<Act>, instance: nat, asOf: int)
    requires Solo(acts, instance) && Run(StatusAndContext, EMPTY, acts).row.Some?
    ensures
      var record := Run(StatusAndContext, EMPTY, acts).row.value;
      |record.states| == |record.context.Playbook().deps| && Decide(record, asOf) != NoSafeNext
  {
    SoloIsCooperative(acts, instance);
    CooperativeRunsAreUndisturbed(acts);
    assert forall i | 0 <= i < |acts| :: SoloAct(acts[i], instance);
    StoredRecordIsSound(StatusAndContext, acts, asOf);
  }

  lemma NewRecordProceeds(context: Context, asOf: int)
    requires Acyclic(context.Playbook())
    ensures Decide(NewRecord(context, asOf), asOf) != NoSafeNext
  {
    NewRecordFits(context, asOf);
    AlwaysANextNode(Schedule(context.Playbook(), {}), NewRecord(context, asOf), 0, asOf);
  }

  /** What the first checkpoint makes of the machine. */
  lemma AfterAdvance(call: Call, s0: Sys, record: Record)
    requires |record.states| == |record.context.Playbook().deps|
    requires call.Stage(s0, 2).row == Some(record)
    requires call.Stage(s0, 2).At(0) == Holding(record, call.asOf)
    ensures
      var before, s := call.Stage(s0, 2), call.Stage(s0, 3);
      match Decide(record, call.asOf)
      case Checkpoint(next) =>
        Leaves(s, Some(next), before.log + [Saved(Some(record.status), next)])
      case Launch(node, resumed, next) =>
        && s.row == Some(next) && s.log == before.log + [Saved(Some(record.status), next)]
        && s.At(0) == Marked(next, call.asOf, node, resumed)
      case _ => Leaves(s, before.row, before.log)
  {
    NextStage(call, s0, 2);
    AdvanceEffect(StatusAndContext, call.Stage(s0, 2), 0);
  }

  /** What dispatching and recording make of the machine. */
  lemma AfterExecute(call: Call, s0: Sys, running: Record, node: nat, resumed: bool)
    requires node < |running.states| && call.Stage(s0, 3).row == Some(running)
    requires call.Stage(s0, 3).At(0) == Marked(running, call.asOf, node, resumed)
    ensures call.known ==>
      var before, s := call.Stage(s0, 3), call.Stage(s0, 4);
      s.row == before.row && s.log == before.log + [Dispatched(node, resumed)]
    ensures
      var before, s := call.Stage(s0, |call.Acts()| - 1), call.Stage(s0, |call.Acts()|);
      var next := Outcomed(running, node, call.asOf, if call.known then call.reply else Raised);
      Leaves(s, Some(next), before.log + [Saved(Some(running.status), next)])
  {
    NextStage(call, s0, 3);
    if call.known {
      NextStage(call, s0, 4);
    }
  }

  // ---------------------------------------------------------------------------------
  // The runner
  // ---------------------------------------------------------------------------------

  ghost predicate SameElsewhere<V>(before: map<nat, V>, after: map<nat, V>, instance: nat) {
    forall i | i != instance :: (i in before <==> i in after) && (i in before ==> before[i] == after[i])
  }

  /** What a call with validated inputs returns, given the row it finds. */
  function Answer(call: Call, row: Option<Record>): StepResult
    requires row.Some? ==> |row.value.states| == |row.value.context.Playbook().deps|
  {
    if call.alive < 2 then Died
    else if row.Some? && row.value.context != call.context then Refused(ContextChanged)
    else
      AnswerFrom(call, if row.Some? then row.value else NewRecord(call.context, call.asOf))
  }

  function AnswerFrom(call: Call, record: Record): StepResult
    requires |record.states| == |record.context.Playbook().deps|
  {
    if call.alive == 2 then Died
    else match Decide(record, call.asOf)
      case Return => Stored(record)
      case BadClock => Refused(InvalidCheckpoint)
      case NoSafeNext => Refused(NoSafeNextNode)
      case Checkpoint(next) => Stored(next)
      case Launch(node, _, next) => AnswerAfter(call, next, node)
  }

  function AnswerAfter(call: Call, running: Record, node: nat): StepResult {
    if call.alive == 3 || node >= |running.states| then Died
    else if !call.known then Stored(Outcomed(running, node, call.asOf, Raised))
    else if call.alive == 4 then Died
    else Stored(Outcomed(running, node, call.asOf, call.reply))
  }

  predicate IsFresh(record: Record, context: Context, asOf: int) {
    && record.context == context && record.status == Planned && record.reason == None
    && record.createdAt == record.updatedAt == asOf && |record.states| == |context.Playbook().deps|
    && forall x: nat | x < |record.states| :: record.states[x] == Pending
  }

  /** A node is marked, its executor called if there is one, and what it replied is recorded. */
  ghost predicate Takes(call: Call, start: Record, log: seq<Event>, node: nat, marked: Record, end: Record, log1: seq<Event>) {
    var mark, done := Saved(Some(start.status), marked), Saved(Some(Running), end);
    && IsNext(start, node) && Marks(start, marked, node, call.asOf)
    && RecordsReply(marked, end, node, if call.known then call.reply else Raised, call.asOf)
    && log1 == log + if call.known then [mark, Dispatched(node, start.states[node] == Paused), done] else [mark, done]
  }

  /**
   What a call that returns has done, from the row it found: nothing to a row of another
   context, to a terminal one, or before the record's creation; otherwise it parked a
   running node, finished the run, or took the next node and recorded the reply to it.
   */
  ghost predicate CallTells(call: Call, row0: Option<Record>, log0: seq<Event>, row: Option<Record>, log: seq<Event>, r: StepResult) {
    if row0.Some? && row0.value.context != call.context then
      r == Refused(ContextChanged) && row == row0 && log == log0
    else
      exists start, found ::
        && (if row0.Some? then start == row0.value && found == log0
            else IsFresh(start, call.context, call.asOf) && found == log0 + [Saved(None, start)])
        && row.Some? && WorksFrom(call, start, found, row.value, log, r)
  }

  ghost predicate WorksFrom(call: Call, start: Record, found: seq<Event>, end: Record, log: seq<Event>, r: StepResult) {
    if Terminal(start.status) then r == Stored(start) && end == start && log == found
    else if call.asOf < start.createdAt then r == Refused(InvalidCheckpoint) && end == start && log == found
    else
      && r == Stored(end)
      && (|| ((Parks(start, end, call.asOf) || Finishes(start, end, call.asOf)) && log == found + [Saved(Some(start.status), end)])
          || exists node, marked :: Takes(call, start, found, node, marked, end, log))
  }

  /** The launched node is taken, marked and its reply recorded as told. */
  lemma LaunchTakes(call: Call, start: Record, found: seq<Event>, log: seq<Event>)
    requires |start.states| == |start.context.Playbook().deps| && Decide(start, call.asOf).Launch?
    requires
      var Launch(node, resumed, marked) := Decide(start, call.asOf);
      node < |marked.states| &&
      var end := Outcomed(marked, node, call.asOf, if call.known then call.reply else Raised);
      var mark, done := Saved(Some(start.status), marked), Saved(Some(Running), end);
      log == found + if call.known then [mark, Dispatched(node, resumed), done] else [mark, done]
    ensures
      var Launch(node, _, marked) := Decide(start, call.asOf);
      var end := Outcomed(marked, node, call.asOf, if call.known then call.reply else Raised);
      Takes(call, start, found, node, marked, end, log)
  {
    var Launch(node, _, marked) := Decide(start, call.asOf);
    DecideTells(start, call.asOf);
    OutcomeRecordsReply(marked, node, call.asOf, if call.known then call.reply else Raised);
  }

  lemma LaunchIsTold(call: Call, s0: Sys, start: Record, found: seq<Event>)
    requires call.alive >= 2 && |start.states| == |start.context.Playbook().deps|
    requires call.Stage(s0, 2).row == Some(start) && call.Stage(s0, 2).log == found
    requires call.Stage(s0, 2).At(0) == Holding(start, call.asOf)
    requires Decide(start, call.asOf).Launch? && AnswerFrom(call, start) != Died
    ensures
      var s := Run(StatusAndContext, s0, call.Steps());
      s.row.Some? && WorksFrom(call, start, found, s.row.value, s.log, AnswerFrom(call, start))
  {
    var Launch(node, resumed, marked) := Decide(start, call.asOf);
    DecideCases(start, call.asOf);
    AfterAdvance(call, s0, start);
    AfterExecute(call, s0, marked, node, resumed);
    CallEnds(call, s0, |call.Acts()|);
    var end := Outcomed(marked, node, call.asOf, if call.known then call.reply else Raised);
    LaunchLog(call, s0, found, marked, node, resumed, Saved(Some(start.status), marked), Saved(Some(Running), end));
    LaunchTakes(call, start, found, call.Stage(s0, |call.Acts()|).log);
  }

  lemma LaunchLog(call: Call, s0: Sys, found: seq<Event>, marked: Record, node: nat, resumed: bool, mark: Event, done: Event)
    requires node < |marked.states| && call.Stage(s0, 3).row == Some(marked) && call.Stage(s0, 3).log == found + [mark]
    requires call.Stage(s0, 3).At(0) == Marked(marked, call.asOf, node, resumed)
    requires call.Stage(s0, |call.Acts()|).log == call.Stage(s0, |call.Acts()| - 1).log + [done]
    ensures call.Stage(s0, |call.Acts()|).log ==
      found + if call.known then [mark, Dispatched(node, resumed), done] else [mark, done]
  {
    AfterExecute(call, s0, marked, node, resumed);
  }

  lemma WorkIsTold(call: Call, s0: Sys, start: Record, found: seq<Event>)
    requires call.alive >= 2 && |start.states| == |start.context.Playbook().deps|
    requires call.Stage(s0, 2).row == Some(start) && call.Stage(s0, 2).log == found
    requires call.Stage(s0, 2).At(0) == Holding(start, call.asOf)
    requires AnswerFrom(call, start) != Died && AnswerFrom(call, start) != Refused(NoSafeNextNode)
    ensures
      var s := Run(StatusAndContext, s0, call.Steps());
      s.row.Some? && WorksFrom(call, start, found, s.row.value, s.log, AnswerFrom(call, start))
  {
    if Decide(start, call.asOf).Launch? {
      LaunchIsTold(call, s0, start, found);
    } else {
      DecideTells(start, call.asOf);
      AfterAdvance(call, s0, start);
      CallEnds(call, s0, 3);
    }
  }

  lemma NewRecordIsFresh(context: Context, asOf: int)
    ensures IsFresh(NewRecord(context, asOf), context, asOf)
  {
  }

  /** The machine and the answer do what is told of a call. */
  lemma CallIsTold(call: Call, s0: Sys)
    requires s0.At(0) == Idle && (s0.row.Some? ==> |s0.row.value.states| == |s0.row.value.context.Playbook().deps|)
    requires Answer(call, s0.row) != Died && Answer(call, s0.row) != Refused(NoSafeNextNode)
    ensures
      var s := Run(StatusAndContext, s0, call.Steps());
      CallTells(call, s0.row, s0.log, s.row, s.log, Answer(call, s0.row))
  {
    AfterEnsure(call, s0);
    if s0.row.Some? && s0.row.value.context != call.context {
      CallEnds(call, s0, 2);
    } else {
      NewRecordIsFresh(call.context, call.asOf);
      var start := if s0.row.Some? then s0.row.value else NewRecord(call.context, call.asOf);
      WorkIsTold(call, s0, start, call.Stage(s0, 2).log);
    }
  }

  lemma StepExtendsLog(s: Sys, act: Act)
    ensures s.log <= Apply(StatusAndContext, s, act).log
  {
  }

  lemma {:induction false} StepsExtendLog(s: Sys, acts: seq<Act>, more: seq<Act>)
    ensures Run(StatusAndContext, s, acts).log <= Run(StatusAndContext, s, acts + more).log
    decreases |more|
  {
    if more == [] {
      assert acts + more == acts;
    } else {
      StepsExtendLog(s, acts, more[..|more| - 1]);
      assert (acts + more)[..|acts + more| - 1] == acts + more[..|more| - 1];
      StepExtendsLog(Run(StatusAndContext, s, acts + more[..|more| - 1]), more[|more| - 1]);
    }
  }

  lemma StepsOf(call: Call)
    ensures call.Steps() == (if call.alive < |call.Acts()| then call.Acts()[..call.alive] else call.Acts()) + [Crash(0)]
    ensures call.(alive := 5).Steps() == call.Acts() + [Crash(0)]
  {
  }

  lemma CrashKeepsLog(s: Sys, acts: seq<Act>)
    ensures Run(StatusAndContext, s, acts + [Crash(0)]).log == Run(StatusAndContext, s, acts).log
  {
    RunOne(s, acts, Crash(0));
  }

  /** Wherever a process dies, its call has left a beginning of what the whole call leaves in the log. */
  lemma CutOffLeavesABeginning(call: Call, s0: Sys)
    ensures Run(StatusAndContext, s0, call.Steps()).log <= Run(StatusAndContext, s0, call.(alive := 5).Steps()).log
  {
    StepsOf(call);
    CrashKeepsLog(s0, call.Acts());
    if call.alive < |call.Acts()| {
      var made, rest := call.Acts()[..call.alive], call.Acts()[call.alive..];
      CrashKeepsLog(s0, made);
      StepsExtendLog(s0, made, rest);
      assert made + rest == call.Acts();
    }
  }

  /** A call dies only where its process does. */
  lemma OnlyTheCrashKills(call: Call, row: Option<Record>)
    requires row.Some? ==> |row.value.states| == |row.value.context.Playbook().deps|
    requires Answer(call, row) == Died
    ensures call.alive < |call.Acts()|
  {
    if call.alive >= 2 {
      DecideCases(if row.Some? then row.value else NewRecord(call.context, call.asOf), call.asOf);
    }
  }

  lemma AnswerWithNextNode(call: Call, row: Option<Record>)
    requires row.Some? ==> |row.value.states| == |row.value.context.Playbook().deps|
    requires Decide(if row.Some? then row.value else NewRecord(call.context, call.asOf), call.asOf) != NoSafeNext
    ensures Answer(call, row) != Refused(NoSafeNextNode) && Answer(call, row) != Refused(CheckpointChanged)
  {
  }

  /** With an acyclic playbook no call meets the "no safe next node" error. */
  lemma AnswerIsSafe(call: Call, history: seq<Act>)
    requires Solo(history, call.context.instance) && Acyclic(call.context.Playbook())
    ensures
      var row := Run(StatusAndContext, EMPTY, history).row;
      (row.Some? ==> |row.value.states| == |row.value.context.Playbook().deps|)
      && Answer(call, row) != Refused(NoSafeNextNode) && Answer(call, row) != Refused(CheckpointChanged)
  {
    if Run(StatusAndContext, EMPTY, history).row.Some? {
      AlwaysSafe(history, call.context.instance, call.asOf);
    }
    NewRecordProceeds(call.context, call.asOf);
    AnswerWithNextNode(call, Run(StatusAndContext, EMPTY, history).row);
  }

  class EffectfulPlaybookRunner {
    const store: DurablePlaybookStore

    constructor (store: DurablePlaybookStore)
      ensures this.store == store
    {
      this.store := store;
    }

    /** Nothing but the row and log of one instance has changed. */
    twostate predicate OnlyTouches(instance: nat)
      reads store
    {
      && store.history == old(store.history)
      && SameElsewhere(old(store.rows), store.rows, instance)
      && SameElsewhere(old(store.logs), store.logs, instance)
    }

    /** The store shows the machine state `s` for this instance. */
    ghost predicate Shows(instance: nat, s: Sys)
      reads store
    {
      s.row == store.Row(instance) && s.log == store.Log(instance)
    }

    /** The executor is called and its outcome recorded, unless the process dies. */
    method ExecuteNode(call: Call, running: Record, node: nat, resumed: bool, ghost s0: Sys) returns (r: StepResult)
      requires call.alive >= 3 && node < |running.states| && running.context == call.context
      requires Shows(call.context.instance, call.Stage(s0, 3))
      requires call.Stage(s0, 3).At(0) == Marked(running, call.asOf, node, resumed)
      requires store.Row(call.context.instance) == Some(running)
      modifies store`rows, store`logs
      ensures OnlyTouches(call.context.instance)
      ensures Leaves(Run(StatusAndContext, s0, call.Steps()),
                     store.Row(call.context.instance), store.Log(call.context.instance))
      ensures r == AnswerAfter(call, running, node)
      ensures r.Stored? ==> store.Row(call.context.instance) == Some(r.record)
    {
      ghost var instance := call.context.instance;
      if call.alive == 3 {
        CallEnds(call, s0, 3);
        return Died;
      }
      AfterExecute(call, s0, running, node, resumed);
      if !call.known {
        r := store.Replace(running, Outcomed(running, node, call.asOf, Raised));
        CallEnds(call, s0, 4);
        return;
      }
      store.Dispatch(instance, node, resumed);
      if call.alive == 4 {
        CallEnds(call, s0, 4);
        return Died;
      }
      r := store.Replace(running, Outcomed(running, node, call.asOf, call.reply));
      CallEnds(call, s0, 5);
    }

    /** The mark is durable before the executor is called. */
    method MarkAndExecute(call: Call, record: Record, launch: Decision, ghost s0: Sys) returns (r: StepResult)
      requires call.alive >= 3 && record.context == call.context && launch.Launch?
      requires launch.node < |record.states| && launch.next == MarkedRecord(record, launch.node, call.asOf)
      requires call.Stage(s0, 3).row == Some(launch.next)
      requires call.Stage(s0, 3).log == store.Log(call.context.instance) + [Saved(Some(record.status), launch.next)]
      requires call.Stage(s0, 3).At(0) == Marked(launch.next, call.asOf, launch.node, launch.resumed)
      requires store.Row(call.context.instance) == Some(record)
      modifies store`rows, store`logs
      ensures OnlyTouches(call.context.instance)
      ensures Leaves(Run(StatusAndContext, s0, call.Steps()),
                     store.Row(call.context.instance), store.Log(call.context.instance))
      ensures r == AnswerAfter(call, launch.next, launch.node)
      ensures r.Stored? ==> store.Row(call.context.instance) == Some(r.record)
    {
      r := store.Replace(record, launch.next);
      r := ExecuteNode(call, launch.next, launch.node, launch.resumed, s0);
    }

    /** From the fetched record on. */
    method Proceed(call: Call, record: Record, ghost s0: Sys) returns (r: StepResult)
      requires call.alive >= 2 && |record.states| == |record.context.Playbook().deps|
      requires record.context == call.context
      requires Shows(call.context.instance, call.Stage(s0, 2))
      requires call.Stage(s0, 2).At(0) == Holding(record, call.asOf)
      requires store.Row(call.context.instance) == Some(record)
      modifies store`rows, store`logs
      ensures OnlyTouches(call.context.instance)
      ensures Leaves(Run(StatusAndContext, s0, call.Steps()),
                     store.Row(call.context.instance), store.Log(call.context.instance))
      ensures r.Stored? ==> store.Row(call.context.instance) == Some(r.record)
      ensures r == AnswerFrom(call, record)
    {
      if call.alive == 2 {
        CallEnds(call, s0, 2);
        return Died;
      }
      AfterAdvance(call, s0, record);
      DecideCases(record, call.asOf);
      var decision := Choose(record, call.asOf);
      match decision {
        case Return =>
          CallEnds(call, s0, 3);
          r := Stored(record);
        case BadClock =>
          CallEnds(call, s0, 3);
          r := Refused(InvalidCheckpoint);
        case NoSafeNext =>
          CallEnds(call, s0, 3);
          r := Refused(NoSafeNextNode);
        case Checkpoint(next) =>
          r := store.Replace(record, next);
          CallEnds(call, s0, 3);
        case Launch(_, _, _) =>
          r := MarkAndExecute(call, record, decision, s0);
      }
    }

    /** A call with validated inputs, on a process in machine state `s0` between calls. */
    method Perform(call: Call, ghost s0: Sys) returns (r: StepResult)
      requires Leaves(s0, store.Row(call.context.instance), store.Log(call.context.instance))
      requires store.Shaped(store.Row(call.context.instance))
      modifies store`rows, store`logs
      ensures OnlyTouches(call.context.instance)
      ensures Leaves(Run(StatusAndContext, s0, call.Steps()),
                     store.Row(call.context.instance), store.Log(call.context.instance))
      ensures r.Stored? ==> store.Row(call.context.instance) == Some(r.record)
      ensures r == Answer(call, old(store.Row(call.context.instance)))
    {
      if call.alive < 2 {
        EndsBeforeWriting(call, s0);
        return Died;
      }
      AfterEnsure(call, s0);
      r := store.Ensure(call.context, call.asOf);
      if r.Stored? {
        r := Proceed(call, r.record, s0);
      } else {
        CallEnds(call, s0, 2);
      }
    }

    /** A call with validated inputs, recorded in the history of its instance. */
    method Recorded(call: Call) returns (r: StepResult)
      requires store.Valid() && Acyclic(call.context.Playbook()) && store.Shaped(store.Row(call.context.instance))
      modifies store
      ensures store.Valid()
      ensures SameElsewhere(old(store.rows), store.rows, call.context.instance)
      ensures SameElsewhere(old(store.logs), store.logs, call.context.instance)
      ensures SameElsewhere(old(store.history), store.history, call.context.instance)
      ensures store.History(call.context.instance) == old(store.History(call.context.instance)) + call.Steps()
      ensures r.Stored? ==> store.Row(call.context.instance) == Some(r.record)
      ensures r == Answer(call, old(store.Row(call.context.instance)))
      ensures r != Refused(NoSafeNextNode) && r != Refused(CheckpointChanged)
      ensures r == Died ==> call.alive < |call.Acts()|
      ensures r == Died || CallTells(call, old(store.Row(call.context.instance)), old(store.Log(call.context.instance)),
                                     store.Row(call.context.instance), store.Log(call.context.instance), r)
    {
      ghost var instance := call.context.instance;
      ghost var history := store.History(instance);
      assert store.Linked(instance);
      AnswerIsSafe(call, history);
      if Answer(call, store.Row(instance)) == Died {
        OnlyTheCrashKills(call, store.Row(instance));
      } else {
        CallIsTold(call, Run(StatusAndContext, EMPTY, history));
      }
      r := Perform(call, Run(StatusAndContext, EMPTY, history));
      StepsAreSolo(call);
      store.OthersStayLinked(instance);
      RunAppend(EMPTY, history, call.Steps());
      store.Note(instance, call.Steps());
    }

    /**
     One call of `step`. Whatever happens inside it, the store afterwards is what the step
     machine makes of the call's steps up to the crash; other instances are untouched; and
     what the log and the row of this instance show is safe.
     */
    method Step(verified: Manifest, call: Call) returns (r: StepResult)
      requires store.Valid() && verified.Verified()
      modifies store
      ensures store.Valid()
      ensures SameElsewhere(old(store.rows), store.rows, call.context.instance)
      ensures SameElsewhere(old(store.logs), store.logs, call.context.instance)
      ensures SameElsewhere(old(store.history), store.history, call.context.instance)
      ensures store.History(call.context.instance) == old(store.History(call.context.instance)) +
        if ValidatedPlaybook(verified, call.context).Some? then [] else call.Steps()
      ensures Leaves(Run(StatusAndContext, EMPTY, store.History(call.context.instance)),
                     store.Row(call.context.instance), store.Log(call.context.instance))
      ensures SafeInstance(store.Row(call.context.instance), store.Log(call.context.instance))
      ensures r.Stored? ==> store.Row(call.context.instance) == Some(r.record)
      ensures store.Shaped(old(store.Row(call.context.instance)))
      ensures r == (if ValidatedPlaybook(verified, call.context).Some?
                    then Refused(ValidatedPlaybook(verified, call.context).value)
                    else Answer(call, old(store.Row(call.context.instance))))
      ensures r != Refused(NoSafeNextNode) && r != Refused(CheckpointChanged)
      ensures r == Died ==> call.alive < |call.Acts()|
      // What a call that returns has done, told from the row it found and the executor's reply.
      ensures r == Died || !Pins(verified, call.context)
        || CallTells(call, old(store.Row(call.context.instance)), old(store.Log(call.context.instance)),
                     store.Row(call.context.instance), store.Log(call.context.instance), r)
    {
      ghost var instance := call.context.instance;
      store.InstanceIsSafe(instance);
      assert store.Linked(instance);
      var refusal := ValidatedPlaybook(verified, call.context);
      if refusal.Some? {
        return Refused(refusal.value);
      }
      r := Recorded(call);
      store.InstanceIsSafe(instance);
      assert store.Linked(instance);
    }
  }
}
