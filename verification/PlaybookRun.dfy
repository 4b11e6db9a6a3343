/**
 The durable effectful playbook run: what one call decides, how a checkpoint replaces the
 stored row, and the steps any number of runners take against one row, each of which can
 crash between any two durable writes.

 Digests are injective, so a digest is represented by what it digests: two contexts have
 the same digest exactly when they are equal.
 */
module PlaybookRun {
  import opened Common
  import opened PlaybookDag

  datatype RunStatus =
    | Planned | Running | AwaitingApproval | AwaitingObservation
    | PausedUncertain | ManualHandoff | CompensationRequired | CompletedVerified

  datatype NodeStatus =
    | Pending | NodeRunning | Paused | Completed
    | Uncertain | HandedOff | NeedsCompensation

  datatype Outcome =
    | Done | PauseForApproval | PauseForObservation
    | UncertainResult | HandOff | ProposeCompensation

  /** What came back from the executor call. */
  datatype Reply = Returned(outcome: Outcome) | Raised

  datatype Reason =
    | ProcessInterruptedDuringNode | NodeExecutionUncertain | ExternalApprovalRequired
    | ProviderObservationPending | NodeResultUncertain | ManualHandoffRequired
    | SeparateCompensationPlanRequired

  /** One playbook of a signed manifest: its graph and the digests it pins itself. */
  datatype PlaybookSpec = PlaybookSpec(dag: Dag, contracts: nat, effects: nat)

  /** The trusted digests pinned by a run; `others` stands for the policy, plan, contract and namespace. */
  datatype Context = Context(
    instance: nat, manifest: nat, playbookId: nat, spec: PlaybookSpec,
    contracts: nat, effects: nat, others: seq<nat>)
  {
    function Playbook(): Dag {
      spec.dag
    }
  }

  datatype Record = Record(
    context: Context, status: RunStatus, states: seq<NodeStatus>,
    createdAt: int, updatedAt: int, reason: Option<Reason>)

  predicate Terminal(status: RunStatus) {
    status in {PausedUncertain, ManualHandoff, CompensationRequired, CompletedVerified}
  }

  function NewRecord(context: Context, asOf: int): Record {
    Record(context, Planned, seq(|context.Playbook().deps|, _ => Pending), asOf, asOf, None)
  }

  // ---------------------------------------------------------------------------------
  // What one call decides
  // ---------------------------------------------------------------------------------

  function NodesWith(states: seq<NodeStatus>, status: NodeStatus): set<nat> {
    set x: nat | x < |states| && states[x] == status
  }

  /** Pending nodes all of whose dependencies are completed. */
  function Startable(dag: Dag, states: seq<NodeStatus>): set<nat> {
    set x: nat | x < |states| && x < |dag.deps| && states[x] == Pending
      && dag.deps[x] <= NodesWith(states, Completed)
  }

  function ParkRunning(states: seq<NodeStatus>): (parked: seq<NodeStatus>)
    ensures |parked| == |states|
    ensures forall i | 0 <= i < |states| ::
      parked[i] == if states[i] == NodeRunning then Uncertain else states[i]
  {
    seq(|states|, i requires 0 <= i < |states| =>
      if states[i] == NodeRunning then Uncertain else states[i])
  }

  datatype Decision =
    | Return
    | Checkpoint(next: Record)
    | Launch(node: nat, resumed: bool, next: Record)
    | NoSafeNext
    | BadClock

  /** A checkpoint earlier than the record's creation fails validation. */
  function Stamp(next: Record, record: Record, asOf: int): Decision {
    if asOf < record.createdAt then BadClock else Checkpoint(next)
  }

  function ParkedRecord(record: Record, asOf: int): Record {
    record.(status := PausedUncertain, states := ParkRunning(record.states), updatedAt := asOf,
            reason := Some(ProcessInterruptedDuringNode))
  }

  function CompletedRecord(record: Record, asOf: int): Record {
    record.(status := CompletedVerified, updatedAt := asOf, reason := None)
  }

  /** The record in which `node` is durably marked as running. */
  function MarkedRecord(record: Record, node: nat, asOf: int): Record
    requires node < |record.states|
  {
    record.(status := Running, states := record.states[node := NodeRunning], updatedAt := asOf, reason := None)
  }

  function Decide(record: Record, asOf: int): Decision
    requires |record.states| == |record.context.Playbook().deps|
  {
    var states := record.states;
    if Terminal(record.status) then
      Return
    else if NodesWith(states, NodeRunning) != {} then
      Stamp(ParkedRecord(record, asOf), record, asOf)
    else
      var paused := NodesWith(states, Paused);
      var candidates := if paused != {} then paused else Startable(record.context.Playbook(), states);
      if candidates != {} then
        var node := Least(candidates);
        if asOf < record.createdAt then BadClock
        else Launch(node, states[node] == Paused, MarkedRecord(record, node, asOf))
      else if forall x: nat | x < |states| :: states[x] == Completed then
        Stamp(CompletedRecord(record, asOf), record, asOf)
      else
        NoSafeNext
  }

  /** The table from executor outcomes to checkpoints; an exception counts as uncertain. */
  function Effects(reply: Reply): (NodeStatus, RunStatus, Option<Reason>) {
    match reply
    case Raised => (Uncertain, PausedUncertain, Some(NodeExecutionUncertain))
    case Returned(Done) => (Completed, Running, None)
    case Returned(PauseForApproval) => (Paused, AwaitingApproval, Some(ExternalApprovalRequired))
    case Returned(PauseForObservation) => (Paused, AwaitingObservation, Some(ProviderObservationPending))
    case Returned(UncertainResult) => (Uncertain, PausedUncertain, Some(NodeResultUncertain))
    case Returned(HandOff) => (HandedOff, ManualHandoff, Some(ManualHandoffRequired))
    case Returned(ProposeCompensation) =>
      (NeedsCompensation, CompensationRequired, Some(SeparateCompensationPlanRequired))
  }

  function Outcomed(running: Record, node: nat, asOf: int, reply: Reply): Record
    requires node < |running.states|
  {
    var (nodeStatus, runStatus, reason) := Effects(reply);
    running.(status := runStatus, states := running.states[node := nodeStatus],
             updatedAt := asOf, reason := reason)
  }

  // ---------------------------------------------------------------------------------
  // The stored row
  // ---------------------------------------------------------------------------------

  /** What `replace` compares: the source's two columns, or (hypothetically) the record. */
  datatype Compare = StatusAndContext | WholeRecord

  predicate Matches(compare: Compare, stored: Record, held: Record) {
    match compare
    case StatusAndContext => stored.status == held.status && stored.context == held.context
    case WholeRecord => stored == held
  }

  predicate Replaces(compare: Compare, row: Option<Record>, held: Record) {
    row.Some? && Matches(compare, row.value, held)
  }

  // ---------------------------------------------------------------------------------
  // Runners
  // ---------------------------------------------------------------------------------

  /** Durable writes and executor calls, in the order they happen. */
  datatype Event =
    | Saved(before: Option<RunStatus>, record: Record)
    | Dispatched(node: nat, resumed: bool)

  /** Where a runner stands inside its current call. */
  datatype Pc =
    | Idle
    | Creating(context: Context, asOf: int)
    | Holding(record: Record, asOf: int)
    | Marked(record: Record, asOf: int, node: nat, resumed: bool)
    | InFlight(record: Record, asOf: int, node: nat)

  datatype Sys = Sys(row: Option<Record>, pcs: map<nat, Pc>, log: seq<Event>) {
    function At(who: nat): Pc {
      if who in pcs then pcs[who] else Idle
    }

    function Move(who: nat, pc: Pc): Sys {
      this.(pcs := pcs[who := pc])
    }

    function Save(who: nat, next: Record, pc: Pc): Sys {
      var before := if row.Some? then Some(row.value.status) else None;
      Sys(Some(next), pcs[who := pc], log + [Saved(before, next)])
    }
  }

  datatype Act =
    | Fetch(who: nat, context: Context, asOf: int)
    | Insert(who: nat)
    | Advance(who: nat)
    | Execute(who: nat)
    | Report(who: nat, reply: Reply)
    | Crash(who: nat)

  /**
   One atomic step of one runner. Steps that do not fit the runner's position change
   nothing; refused writes and validation errors end the runner's call.
   */
  function Apply(compare: Compare, s: Sys, act: Act): Sys {
    match act
    case Fetch(who, context, asOf) =>
      if s.At(who) != Idle then s
      else if s.row.None? then s.Move(who, Creating(context, asOf))
      else if s.row.value.context != context then s
      else s.Move(who, Holding(s.row.value, asOf))
    case Insert(who) =>
      (match s.At(who)
       case Creating(context, asOf) =>
         if s.row.None? then
           var record := NewRecord(context, asOf);
           s.Save(who, record, Holding(record, asOf))
         else s.Move(who, Idle)
       case _ => s)
    case Advance(who) =>
      (match s.At(who)
       case Holding(record, asOf) =>
         // A record that does not list its playbook's nodes would end the call with a key error.
         if |record.states| != |record.context.Playbook().deps| then s.Move(who, Idle)
         else
           (match Decide(record, asOf)
            case Checkpoint(next) =>
              if Replaces(compare, s.row, record) then s.Save(who, next, Idle) else s.Move(who, Idle)
            case Launch(node, resumed, next) =>
              if Replaces(compare, s.row, record) then s.Save(who, next, Marked(next, asOf, node, resumed))
              else s.Move(who, Idle)
            case _ => s.Move(who, Idle))
       case _ => s)
    case Execute(who) =>
      (match s.At(who)
       case Marked(record, asOf, node, resumed) =>
         s.Move(who, InFlight(record, asOf, node)).(log := s.log + [Dispatched(node, resumed)])
       case _ => s)
    case Report(who, reply) =>
      (match s.At(who)
       case InFlight(record, asOf, node) =>
         if node < |record.states| && Replaces(compare, s.row, record) then
           s.Save(who, Outcomed(record, node, asOf, reply), Idle)
         else s.Move(who, Idle)
       // The executor registry has no such executor: parked without a call.
       case Marked(record, asOf, node, _) =>
         if reply.Raised? && node < |record.states| && Replaces(compare, s.row, record) then
           s.Save(who, Outcomed(record, node, asOf, Raised), Idle)
         else s
       case _ => s)
    case Crash(who) => s.Move(who, Idle)
  }

  function Run(compare: Compare, s: Sys, acts: seq<Act>): Sys
    decreases |acts|
  {
    if acts == [] then s else Apply(compare, Run(compare, s, acts[..|acts| - 1]), acts[|acts| - 1])
  }

  const EMPTY := Sys(None, map[], [])
}
