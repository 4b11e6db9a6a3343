/**
 The T1 write of three operational user fields: preflight, authorization gate, freshness,
 revalidation, recovery capsule, approval consumption, PATCH and verifying read.

 Between any two steps an adversary may change the user, the policy file, the compiled
 manifest and the clock, and the process may die; what a step meets is part of `World`.
 Every part reports what it does to one trace, and the theorems are about that trace.
 */
module OperationalProfile {
  import opened Approval
  import opened Authorization
  import opened Common
  import opened Effects
  import G = GraphClient
  import opened Plans
  import opened UserProfile

  // ---------------------------------------------------------------------------------
  // What the world answers
  // ---------------------------------------------------------------------------------

  /** A read of Graph: an answer, a security error raised on the way, or any other error. */
  datatype Fetch<+T> = Failed | Insecure | Answer(value: T)

  datatype RawField = Null | Text(value: string) | OtherType

  /** The synchronization flag: a list or an object cannot be looked up in a set at all. */
  datatype RawSync = RawTrue | RawFalse | RawNull | RawNumber(number: BooleanNumber) | RawUnhashable | RawOther

  datatype RawUser = RawUser(
    id: nat, userType: string, sync: RawSync, lastSync: string, immutableId: string,
    profile: map<Field, RawField>)

  /** One of the four privileged-role queries: its `value` list, if it is a list at all. */
  datatype RoleList = NotAList | Entries(count: nat)

  datatype World = World(
    manifestMatches: bool, contract: Contract, writeAllowed: bool, targetAllowed: bool,
    authorizedAt: int, principal: Fetch<nat>, user: Fetch<RawUser>, roles: seq<Fetch<RoleList>>,
    builtAt: int, preparedAt: int, requestedAt: int, validatedAt: int, freshAt: int,
    policyFile: Option<Policy>, contractAgain: Contract, reauthorizedAt: int, targetAllowedAgain: bool,
    userAgain: Fetch<RawUser>, rolesAgain: seq<Fetch<RoleList>>,
    capsuleStored: bool, userAfter: Fetch<RawUser>)

  datatype Settings = Settings(
    tenant: nat, namespace: nat, localTargets: set<nat>, policy: Policy, ttl: nat, brokerConfigured: bool)
  {
    predicate Complete() {
      policy.Complete()
    }
  }

  // ---------------------------------------------------------------------------------
  // How a call ends
  // ---------------------------------------------------------------------------------

  datatype Exit =
    | ExecutedVerified
    | Uncertain(postRead: bool)               // the PATCH may have committed, or could not be confirmed
    | RejectedBeforeEffect                    // Graph refused; the error carries a blocking record
    | DeniedByGovernance | BlockedPrecondition
    | StrongerModeNeeded | ApprovalInvalid | AwaitingApproval
    | PlanExpired | ContractChanged | UserChanged | ReplayRejected
    | OtherError                              // propagates without a record
    | Died

  // ---------------------------------------------------------------------------------
  // Reading the user
  // ---------------------------------------------------------------------------------

  function Cleaned(value: RawField): Option<string> {
    if value.Text? then Some(value.value) else None
  }

  function NonEmpty(text: string): Option<string> {
    if text == "" then None else Some(text)
  }

  /** A member, never synchronized from on premises. */
  predicate Fenced(s: Snapshot) {
    s.userType == "Member" && s.sync != SyncOn && s.lastSync.None? && s.immutableId.None?
  }

  /** The answer is about this user and has the right types. */
  predicate WellTyped(userId: nat, raw: RawUser) {
    && raw.id == userId && raw.sync != RawOther && raw.sync != RawUnhashable
    && forall f | f in raw.profile :: raw.profile[f] != OtherType
  }

  function SyncOf(sync: RawSync): Sync {
    match sync
    case RawTrue => SyncOn
    case RawFalse => SyncOff
    case RawNumber(number) => SyncNumber(number)
    case _ => SyncUnset
  }

  function SnapshotOf(userId: nat, raw: RawUser): Snapshot {
    Snapshot(userId, raw.userType, SyncOf(raw.sync),
             NonEmpty(raw.lastSync), NonEmpty(raw.immutableId),
             map f: Field | f in {Department, JobTitle, OfficeLocation} ::
               if f in raw.profile then Cleaned(raw.profile[f]) else None)
  }

  /** A reading that passed every check: the only kind the operation goes on with. */
  predicate Reads(userId: nat, fetched: Fetch<RawUser>, s: Snapshot) {
    fetched.Answer? && WellTyped(userId, fetched.value) && s == SnapshotOf(userId, fetched.value) && Fenced(s)
  }

  /** Why a reading is refused: a security error (true) or any other error (false). */
  function ReadTrouble(userId: nat, fetched: Fetch<RawUser>): Option<bool> {
    if fetched.Failed? || (fetched.Answer? && fetched.value.id == userId && fetched.value.sync == RawUnhashable) then Some(false)
    else if fetched.Insecure? || !WellTyped(userId, fetched.value) || !Fenced(SnapshotOf(userId, fetched.value)) then Some(true)
    else None
  }

  method ReadUser(userId: nat, fetched: Fetch<RawUser>, trace: Trace) returns (r: Result<Snapshot, bool>)
    modifies trace
    ensures r.Ok? ==> Reads(userId, fetched, r.value) && ReadTrouble(userId, fetched) == None
    ensures r.Err? ==> ReadTrouble(userId, fetched) == Some(r.error)
    ensures trace.events == old(trace.events) + if r.Ok? then [UserRead(r.value)] else []
  {
    if fetched.Failed? {
      return Err(false);
    }
    if fetched.Insecure? {
      return Err(true);
    }
    var raw := fetched.value;
    if raw.id != userId {
      return Err(true);
    }
    if raw.sync == RawUnhashable {
      return Err(false);
    }
    if raw.sync == RawOther {
      return Err(true);
    }
    var profile: map<Field, Option<string>> := map[];
    for i := 0 to |FIELDS|
      invariant profile.Keys == set f | f in FIELDS[..i]
      invariant forall f | f in profile ::
        profile[f] == (if f in raw.profile then Cleaned(raw.profile[f]) else None)
      invariant forall f | f in FIELDS[..i] && f in raw.profile :: raw.profile[f] != OtherType
    {
      var f := FIELDS[i];
      if f in raw.profile && raw.profile[f] == OtherType {
        return Err(true);
      }
      profile := profile[f := if f in raw.profile then Cleaned(raw.profile[f]) else None];
    }
    assert FIELDS[..|FIELDS|] == FIELDS;
    forall f: Field ensures f in FIELDS { AllFields(f); }
    var s := Snapshot(userId, raw.userType, SyncOf(raw.sync), NonEmpty(raw.lastSync), NonEmpty(raw.immutableId), profile);
    assert s.profile == SnapshotOf(userId, raw).profile;
    if s.userType != "Member" || s.sync == SyncOn || s.lastSync.Some? || s.immutableId.Some? {
      return Err(true);
    }
    trace.Add(UserRead(s));
    return Ok(s);
  }

  /**
   Exactly the answers that are read: about this user, a member with no trace of
   synchronization, a flag that is not true, and profile fields that are texts or null.
   */
  lemma UserIsReadExactly(userId: nat, fetched: Fetch<RawUser>)
    ensures ReadTrouble(userId, fetched) == None <==>
      fetched.Answer? &&
      var raw := fetched.value;
      && raw.id == userId && raw.userType == "Member" && raw.lastSync == "" && raw.immutableId == ""
      && (raw.sync == RawFalse || raw.sync == RawNull || raw.sync.RawNumber?)
      && forall f | f in raw.profile :: raw.profile[f] == Null || raw.profile[f].Text?
    ensures ReadTrouble(userId, fetched) == Some(false) <==>
      fetched.Failed? || (fetched.Answer? && fetched.value.id == userId && fetched.value.sync == RawUnhashable)
  {
  }

  /** A reading shows the answer as it is: every field, and the flag with its digest. */
  lemma ReadingIsFaithful(userId: nat, raw: RawUser, s: Snapshot)
    requires Reads(userId, Answer(raw), s)
    ensures s.userId == raw.id && s.userType == raw.userType && s.lastSync == s.immutableId == None
    ensures forall f: Field :: f in s.profile
    ensures forall f: Field, text :: s.profile[f] == Some(text) <==> f in raw.profile && raw.profile[f] == Text(text)
    ensures s.sync == SyncOff <==> raw.sync == RawFalse
    ensures s.sync == SyncUnset <==> raw.sync == RawNull
    ensures forall n :: s.sync == SyncNumber(n) <==> raw.sync == RawNumber(n)
  {
    forall f: Field
      ensures f in s.profile && s.profile[f] == if f in raw.profile then Cleaned(raw.profile[f]) else None
    {
      match f
      case Department =>
      case JobTitle =>
      case OfficeLocation =>
    }
  }

  /** A flag that counts as true where it is only tested for membership. */
  predicate Truthy(sync: RawSync) {
    sync == RawTrue || sync == RawNumber(IntOne) || sync == RawNumber(FloatOne)
  }

  /**
   The membership test lets numbers through, and the fence asks for the value true itself:
   a user whose flag is true, or equals it, is read exactly when the flag is a number and
   every other check passes.
   */
  lemma SyncedUserIsReadExactly(userId: nat, raw: RawUser)
    requires Truthy(raw.sync)
    ensures ReadTrouble(userId, Answer(raw)) == None <==>
      && raw.sync.RawNumber? && raw.id == userId && raw.userType == "Member"
      && raw.lastSync == "" && raw.immutableId == "" && forall f | f in raw.profile :: raw.profile[f] != OtherType
  {
  }

  /** All four role queries answered with an empty list. */
  predicate Unprivileged(roles: seq<Fetch<RoleList>>) {
    |roles| == 4 && forall i | 0 <= i < 4 :: roles[i] == Answer(Entries(0))
  }

  /** The first role query that fails or finds a role, and how. */
  function RolesTrouble(roles: seq<Fetch<RoleList>>): Option<bool> {
    if roles == [] then None
    else if roles[0].Failed? then Some(false)
    else if roles[0] != Answer(Entries(0)) then Some(true)
    else RolesTrouble(roles[1..])
  }

  lemma {:induction false} NoRolesTrouble(roles: seq<Fetch<RoleList>>)
    ensures RolesTrouble(roles) == None <==> forall i | 0 <= i < |roles| :: roles[i] == Answer(Entries(0))
  {
    if roles != [] {
      NoRolesTrouble(roles[1..]);
      assert forall i | 0 < i < |roles| :: roles[i] == roles[1..][i - 1];
    }
  }

  method EnsureNonPrivileged(userId: nat, roles: seq<Fetch<RoleList>>, trace: Trace) returns (trouble: Option<bool>)
    requires |roles| == 4
    modifies trace
    ensures trouble == RolesTrouble(roles)
    ensures trouble.None? <==> Unprivileged(roles)
    ensures trace.events == old(trace.events) + if trouble.None? then [RolesClear(userId)] else []
  {
    NoRolesTrouble(roles);
    for i := 0 to 4
      invariant RolesTrouble(roles) == RolesTrouble(roles[i..])
      invariant trace.events == old(trace.events)
    {
      assert roles[i..][0] == roles[i] && roles[i..][1..] == roles[i + 1..];
      if roles[i].Failed? {
        return Some(false);
      }
      if roles[i].Insecure? || roles[i].value.NotAList? || roles[i].value.count > 0 {
        return Some(true);
      }
    }
    trace.Add(RolesClear(userId));
    return None;
  }

  /** The Graph body: every supplied field with its text. */
  predicate Asks(params: Params, requested: map<Field, string>) {
    && requested.Keys == params.values.Keys
    && forall f | f in requested :: params.values[f] == Some(requested[f])
  }

  method RequestedFields(params: Params) returns (requested: Option<map<Field, string>>)
    ensures requested.Some? ==> Asks(params, requested.value)
    ensures requested.None? <==> exists f :: f in params.values && params.values[f].None?
  {
    var body: map<Field, string> := map[];
    for i := 0 to |FIELDS|
      invariant forall f :: f in body <==> f in FIELDS[..i] && f in params.values
      invariant forall f | f in body :: params.values[f] == Some(body[f])
    {
      var f := FIELDS[i];
      if f in params.values {
        if params.values[f].None? {
          return None;
        }
        body := body[f := params.values[f].value];
      }
    }
    assert FIELDS[..|FIELDS|] == FIELDS;
    forall f: Field ensures f in FIELDS { AllFields(f); }
    return Some(body);
  }

  predicate Confirms(s: Snapshot, requested: map<Field, string>) {
    forall f | f in requested :: f in s.profile && s.profile[f] == Some(requested[f])
  }

  /** The requested fields whose current value differs. */
  method EffectiveChanges(s: Snapshot, requested: map<Field, string>) returns (fields: set<Field>)
    ensures fields == set f | f in requested && !(f in s.profile && s.profile[f] == Some(requested[f]))
    ensures fields == {} <==> Confirms(s, requested)
  {
    fields := {};
    for i := 0 to |FIELDS|
      invariant forall f :: f in fields <==>
        f in FIELDS[..i] && f in requested && !(f in s.profile && s.profile[f] == Some(requested[f]))
    {
      var f := FIELDS[i];
      if f in requested && !(f in s.profile && s.profile[f] == Some(requested[f])) {
        fields := fields + {f};
      }
    }
    assert FIELDS[..|FIELDS|] == FIELDS;
    forall f: Field ensures f in FIELDS { AllFields(f); }
  }

  // ---------------------------------------------------------------------------------
  // Plans
  // ---------------------------------------------------------------------------------

  /** What preflight hands on. */
  datatype Ready = Ready(plan: Plan, mode: Mode, snapshot: Snapshot, requested: map<Field, string>, contract: Contract)

  function MeaningOf(s: Settings, p: Params, w: World, operator: nat, snapshot: Snapshot,
                     requested: map<Field, string>, changed: set<Field>): Meaning {
    Meaning(PlanId(s.namespace, w.contract.id, p.key), w.contract, s.policy, s.namespace, operator, p,
            snapshot, Impact(w.contract, requested.Keys), changed)
  }

  // ---------------------------------------------------------------------------------
  // What the recorded events of a call must show
  // ---------------------------------------------------------------------------------

  /**
   The requests sent at position `i` were prepared: before them the same call was authorized
   twice under one policy, read the same user state twice, found no role twice, stored the
   capsule of that state and of the values it sends to that user and, under an explicit plan, consumed a
   grant for a plan of this policy, state and values.
   */
  predicate PreparedAt(call: seq<Event>, i: nat)
    requires i < |call| && call[i].Sent?
  {
    && i >= 7
    && call[0].Authorized? && call[3].Authorized? && call[0].policy == call[3].policy && call[0].contract == call[3].contract
    && call[1].UserRead? && call[4] == call[1]
    && call[2] == call[5] == RolesClear(call[1].snapshot.userId)
    && call[6].CapsuleStored? && call[6].user == call[1].snapshot.userId && call[6].previous == call[1].snapshot.profile
    && call[i].payload == Fields(call[6].user, call[6].requested)
    && (call[0].mode == StandingPolicy || call[0].mode == ExplicitPlan)
    && (call[0].mode == ExplicitPlan ==>
          && i >= 8 && call[7].Consumed? && call[7].grant.Valid()
          && Covers(call[7].grant.plan.meaning, call[0].policy, call[0].contract, call[1].snapshot, call[6].requested))
  }

  /** The approved plan is for this policy, this contract, this user state and these values. */
  predicate Covers(meaning: Meaning, policy: Policy, contract: Contract, snapshot: Snapshot, requested: map<Field, string>) {
    && meaning.policy == policy && meaning.contract == contract && meaning.precondition == snapshot
    && meaning.parameters.userId == snapshot.userId && Asks(meaning.parameters, requested)
  }

  /**
   The policy's override for the contract, or else the contract itself, says what a call
   needs: under an explicit plan an approval for this policy and contract is consumed before
   every request, under standing policy none is, and under any other mode nothing is sent.
   */
  predicate FollowsMode(policy: Policy, contract: Contract, call: seq<Event>) {
    var mode := if contract.id in policy.overrides then policy.overrides[contract.id] else contract.mode;
    && (mode == ExplicitPlan ==> forall i: nat | i < |call| && call[i].Sent? :: ApprovedBefore(policy, contract, call, i))
    && (mode == StandingPolicy ==> forall i: nat | i < |call| :: !call[i].Consumed?)
    && (mode != StandingPolicy && mode != ExplicitPlan ==> forall i: nat | i < |call| :: !call[i].Sent? && !call[i].Consumed?)
  }

  predicate ApprovedBefore(policy: Policy, contract: Contract, call: seq<Event>, i: nat) {
    exists j: nat :: j < i && j < |call| && call[j].Consumed? && call[j].grant.Valid()
      && call[j].grant.plan.meaning.policy == policy && call[j].grant.plan.meaning.contract == contract
  }

  /** The requests of a write among the events. */
  function RequestsIn(call: seq<Event>): seq<Event> {
    if call == [] then []
    else RequestsIn(call[..|call| - 1]) + if call[|call| - 1].Sent? then [call[|call| - 1]] else []
  }

  /** Only requests that were prepared, at most one commit, and at most one burnt approval. */
  predicate Lawful(call: seq<Event>) {
    && (forall i: nat | i < |call| && call[i].Sent? :: PreparedAt(call, i))
    && Committed(call) <= 1
    && (forall i, j | 0 <= i < j < |call| :: !(call[i].Consumed? && call[j].Consumed?))
  }

  /** A call that burns an approval with this ID. */
  predicate Burns(call: seq<Event>, id: nat) {
    exists i :: 0 <= i < |call| && call[i].Consumed? && call[i].grant.id == id
  }

  /** All calls are lawful, and each approval was burnt by one call only and is in the ledger. */
  ghost predicate History(calls: seq<seq<Event>>, consumed: map<nat, Binding>) {
    && (forall k | 0 <= k < |calls| :: Lawful(calls[k]))
    && (forall k, id | 0 <= k < |calls| && Burns(calls[k], id) :: id in consumed)
    && (forall j, k, id | 0 <= j < |calls| && 0 <= k < |calls| && Burns(calls[j], id) && Burns(calls[k], id) :: j == k)
  }

  /** The events of all calls, one call after the other. */
  function Joined(calls: seq<seq<Event>>): seq<Event> {
    if calls == [] then [] else Joined(calls[..|calls| - 1]) + calls[|calls| - 1]
  }

  lemma JoinedGrows(calls: seq<seq<Event>>, call: seq<Event>)
    ensures Joined(calls + [call]) == Joined(calls) + call
  {
    assert (calls + [call])[..|calls|] == calls;
  }

  lemma {:induction false} CommittedJoins(a: seq<Event>, b: seq<Event>)
    ensures Committed(a + b) == Committed(a) + Committed(b)
    decreases |b|
  {
    if b == [] {
      assert a + b == a;
    } else {
      CommittedJoins(a, b[..|b| - 1]);
      assert (a + b)[..|a + b| - 1] == a + b[..|b| - 1];
    }
  }

  lemma {:induction false} RequestsJoin(a: seq<Event>, b: seq<Event>)
    ensures RequestsIn(a + b) == RequestsIn(a) + RequestsIn(b)
    decreases |b|
  {
    if b == [] {
      assert a + b == a;
    } else {
      RequestsJoin(a, b[..|b| - 1]);
      assert (a + b)[..|a + b| - 1] == a + b[..|b| - 1];
    }
  }

  // ---------------------------------------------------------------------------------
  // Theorems about histories
  // ---------------------------------------------------------------------------------

  /** The commits on the server among the recorded requests of calls that burnt this approval. */
  function CommitsUnder(calls: seq<seq<Event>>, id: nat): nat {
    if calls == [] then 0
    else
      CommitsUnder(calls[..|calls| - 1], id)
      + (if Burns(calls[|calls| - 1], id) then Committed(calls[|calls| - 1]) else 0)
  }

  /** One call at most burns this approval. */
  ghost predicate OneBurner(calls: seq<seq<Event>>, id: nat) {
    forall j, k | 0 <= j < |calls| && 0 <= k < |calls| && Burns(calls[j], id) && Burns(calls[k], id) :: j == k
  }

  lemma {:induction false} OneBurnerCommitsOnce(calls: seq<seq<Event>>, id: nat)
    requires (forall k | 0 <= k < |calls| :: Lawful(calls[k])) && OneBurner(calls, id)
    ensures CommitsUnder(calls, id) <= 1
    ensures (forall k | 0 <= k < |calls| :: !Burns(calls[k], id)) ==> CommitsUnder(calls, id) == 0
    decreases |calls|
  {
    if calls != [] {
      var init, last := calls[..|calls| - 1], calls[|calls| - 1];
      assert forall k | 0 <= k < |init| :: init[k] == calls[k];
      OneBurnerCommitsOnce(init, id);
      if Burns(last, id) {
        forall k | 0 <= k < |init| ensures !Burns(init[k], id) {
          assert Burns(calls[k], id) ==> k == |calls| - 1;
        }
      }
    }
  }

  /** Across all calls and crashes an approval stands behind at most one committed request. */
  lemma ApprovalCommitsAtMostOnce(calls: seq<seq<Event>>, consumed: map<nat, Binding>, id: nat)
    requires History(calls, consumed)
    ensures CommitsUnder(calls, id) <= 1
  {
    OneBurnerCommitsOnce(calls, id);
  }

  /**
   The same for calls of any number of processes that share one ledger and overlap in any
   way: `grants` are the attempts to burn in the order in which the ledger served them, and
   call number k made attempt number `attempt[k]`.
   */
  lemma OverlappingCallsCommitAtMostOnce(owner: nat, grants: seq<Grant>, calls: seq<seq<Event>>, attempt: seq<nat>, id: nat)
    requires |attempt| == |calls| && forall j, k | 0 <= j < k < |calls| :: attempt[j] != attempt[k]
    requires forall k | 0 <= k < |calls| :: Lawful(calls[k])
    requires forall k, i | 0 <= k < |calls| && 0 <= i < |calls[k]| && calls[k][i].Consumed? ::
      attempt[k] < |grants| && grants[attempt[k]] == calls[k][i].grant && BurnsAt(owner, grants, attempt[k])
    ensures CommitsUnder(calls, id) <= 1
  {
    forall j, k | 0 <= j < |calls| && 0 <= k < |calls| && Burns(calls[j], id) && Burns(calls[k], id) ensures j == k {
      if attempt[j] < attempt[k] {
        NoApprovalBurnsTwice(owner, grants, attempt[j], attempt[k]);
      } else if attempt[k] < attempt[j] {
        NoApprovalBurnsTwice(owner, grants, attempt[k], attempt[j]);
      }
    }
    OneBurnerCommitsOnce(calls, id);
  }

  // ---------------------------------------------------------------------------------
  // When a call reaches its PATCH
  // ---------------------------------------------------------------------------------

  function RequestedOf(p: Params): map<Field, string> {
    map f | f in p.values && p.values[f].Some? :: p.values[f].value
  }

  function ChangesOf(s: Snapshot, requested: map<Field, string>): set<Field> {
    set f | f in requested && !(f in s.profile && s.profile[f] == Some(requested[f]))
  }

  /** The plan preflight builds once everything before it has passed. */
  function PlanOf(s: Settings, p: Params, w: World, requests: Requests, mode: Mode): Result<Plan, Refusal>
    requires w.principal.Answer? && w.user.Answer?
  {
    var snapshot := SnapshotOf(p.userId, w.user.value);
    var meaning := MeaningOf(s, p, w, w.principal.value, snapshot, RequestedOf(p), ChangesOf(snapshot, RequestedOf(p)));
    var built := Built(meaning, mode == ExplicitPlan, w.builtAt, s.ttl);
    if s.brokerConfigured then Prepared(s.namespace, requests, built, w.preparedAt, w.requestedAt).0 else Ok(built)
  }

  function FirstAuthorization(s: Settings, p: Params, w: World): Result<Mode, Reason>
    requires s.Complete()
  {
    Authorize(s.policy, w.contract, s.tenant, p.userId, s.localTargets, w.authorizedAt)
  }

  /** Everything preflight checks. */
  predicate PreflightPasses(s: Settings, p: Params, w: World, requests: Requests)
    requires s.Complete()
  {
    && w.manifestMatches && w.writeAllowed && w.targetAllowed && FirstAuthorization(s, p, w).Ok?
    && w.principal.Answer?
    && (forall f | f in p.values :: p.values[f].Some?)
    && w.user.Answer? && WellTyped(p.userId, w.user.value) && Fenced(SnapshotOf(p.userId, w.user.value))
    && Unprivileged(w.roles)
    && !Confirms(SnapshotOf(p.userId, w.user.value), RequestedOf(p))
    && PlanOf(s, p, w, requests, FirstAuthorization(s, p, w).value).Ok?
  }

  /** What the first round of checks found out: all that `PreflightPasses` asks for but the plan. */
  datatype Examined = Examined(mode: Mode, snapshot: Snapshot, requested: map<Field, string>, changes: set<Field>)

  predicate ExaminedAs(s: Settings, p: Params, w: World, e: Examined)
    requires s.Complete()
  {
    && w.manifestMatches && w.writeAllowed && w.targetAllowed && FirstAuthorization(s, p, w) == Ok(e.mode)
    && w.principal.Answer? && (forall f | f in p.values :: p.values[f].Some?)
    && Reads(p.userId, w.user, e.snapshot) && Unprivileged(w.roles)
    && e.requested == RequestedOf(p) && e.changes == ChangesOf(e.snapshot, e.requested) && !Confirms(e.snapshot, e.requested)
  }

  /** After that only the plan decides. */
  lemma ExaminedPasses(s: Settings, p: Params, w: World, requests: Requests, e: Examined)
    requires s.Complete() && |w.roles| == 4 && ExaminedAs(s, p, w, e)
    ensures
      var plan := PlanOf(s, p, w, requests, e.mode);
      && (PreflightPasses(s, p, w, requests) <==> plan.Ok?)
      && (plan.Err? ==> PreflightExit(s, p, w, requests) == ExitFor(plan.error != RequestOutsideLifetime))
  {
    NoRolesTrouble(w.roles);
  }

  function ExitFor(security: bool): Exit {
    if security then BlockedPrecondition else OtherError
  }

  /** An exit before the PATCH: it claims neither success nor uncertainty. */
  predicate Early(exit: Exit) {
    !exit.ExecutedVerified? && !exit.Uncertain? && !exit.RejectedBeforeEffect?
  }

  /** How preflight fails, by its first failing check. */
  function PreflightExit(s: Settings, p: Params, w: World, requests: Requests): (exit: Exit)
    requires s.Complete() && !PreflightPasses(s, p, w, requests) && |w.roles| == 4
    ensures Early(exit) && exit != Died
  {
    NoRolesTrouble(w.roles);
    if !w.manifestMatches || !w.writeAllowed || !w.targetAllowed || FirstAuthorization(s, p, w).Err? then DeniedByGovernance
    else if !w.principal.Answer? then ExitFor(w.principal.Insecure?)
    else if exists f :: f in p.values && p.values[f].None? then OtherError
    else if ReadTrouble(p.userId, w.user).Some? then ExitFor(ReadTrouble(p.userId, w.user).value)
    else if RolesTrouble(w.roles).Some? then ExitFor(RolesTrouble(w.roles).value)
    else if Confirms(SnapshotOf(p.userId, w.user.value), RequestedOf(p)) then BlockedPrecondition
    else ExitFor(PlanOf(s, p, w, requests, FirstAuthorization(s, p, w).value).error != RequestOutsideLifetime)
  }

  /** How the second round of checks fails, by its first failing check. */
  function RevalidateExit(s: Settings, p: Params, w: World, plan: Plan): (exit: Exit)
    requires s.Complete()
    ensures Early(exit) && exit != Died
  {
    if w.freshAt >= plan.expiresAt then Exit.PlanExpired
    else if w.policyFile != Some(s.policy) then OtherError
    else if w.contractAgain != w.contract then ContractChanged
    else if Authorize(s.policy, w.contract, s.tenant, p.userId, s.localTargets, w.reauthorizedAt).Err?
      || !w.targetAllowedAgain || ReadTrouble(p.userId, w.userAgain).Some? || RolesTrouble(w.rolesAgain).Some?
    then OtherError
    else UserChanged
  }

  /** The grant the gate lets through, if the mode needs one. */
  function GateOf(s: Settings, key: nat, approvals: Approvals, plan: Plan, mode: Mode, now: int)
    : (r: Result<Option<Grant>, Exit>)
    ensures r.Err? ==> Early(r.error) && r.error != Died
  {
    if mode == StandingPolicy then Ok(None)
    else if mode != ExplicitPlan then Err(StrongerModeNeeded)
    else if !s.brokerConfigured then Err(AwaitingApproval)
    else match Validated(s.namespace, key, approvals, plan, now)
      case Err(_) => Err(ApprovalInvalid)
      case Ok(None) => Err(AwaitingApproval)
      case Ok(Some(grant)) => Ok(Some(grant))
  }

  /** Everything checked between the gate and the capsule. */
  predicate StillCurrent(s: Settings, p: Params, w: World, plan: Plan, snapshot: Snapshot)
    requires s.Complete()
  {
    && w.freshAt < plan.expiresAt
    && w.policyFile == Some(s.policy) && w.contractAgain == w.contract
    && Authorize(s.policy, w.contract, s.tenant, p.userId, s.localTargets, w.reauthorizedAt).Ok?
    && w.targetAllowedAgain
    && Reads(p.userId, w.userAgain, snapshot) && Unprivileged(w.rolesAgain)
  }

  /** Preflight, gate and revalidation all pass. */
  predicate Passes(s: Settings, p: Params, w: World, requests: Requests, approvals: Approvals, key: nat)
    requires s.Complete()
  {
    PreflightPasses(s, p, w, requests) &&
    var mode, snapshot := FirstAuthorization(s, p, w).value, SnapshotOf(p.userId, w.user.value);
    var plan := PlanOf(s, p, w, requests, mode).value;
    && GateOf(s, key, approvals, plan, mode, w.validatedAt).Ok?
    && StillCurrent(s, p, w, plan, snapshot)
  }

  /** The grant such a call burns. */
  function GrantOf(s: Settings, p: Params, w: World, requests: Requests, approvals: Approvals, key: nat): Option<Grant>
    requires s.Complete() && Passes(s, p, w, requests, approvals, key)
  {
    var mode := FirstAuthorization(s, p, w).value;
    GateOf(s, key, approvals, PlanOf(s, p, w, requests, mode).value, mode, w.validatedAt).value
  }

  /** Everything that must hold for the PATCH to be sent. */
  predicate Clears(s: Settings, p: Params, w: World, requests: Requests, approvals: Approvals, key: nat,
                   owner: nat, consumed: map<nat, Binding>)
    requires s.Complete()
  {
    && Passes(s, p, w, requests, approvals, key) && w.capsuleStored
    && var grant := GrantOf(s, p, w, requests, approvals, key);
       grant.Some? ==> Burnt(owner, consumed, s.namespace, grant.value).0.None?
  }

  /** How a call ends that does not get past preflight, gate and revalidation. */
  function CheckExit(s: Settings, p: Params, w: World, requests: Requests, approvals: Approvals, key: nat, alive: nat): (exit: Exit)
    requires s.Complete() && |w.roles| == 4
    requires !(alive > 1 && Passes(s, p, w, requests, approvals, key))
    ensures Early(exit)
  {
    if alive == 0 then Died
    else if !PreflightPasses(s, p, w, requests) then PreflightExit(s, p, w, requests)
    else if alive == 1 then Died
    else
      var mode := FirstAuthorization(s, p, w).value;
      var plan := PlanOf(s, p, w, requests, mode).value;
      var gate := GateOf(s, key, approvals, plan, mode, w.validatedAt);
      if gate.Err? then gate.error else RevalidateExit(s, p, w, plan)
  }

  /** How a call ends that does not reach its PATCH. */
  function ClearExit(s: Settings, p: Params, w: World, requests: Requests, approvals: Approvals, key: nat,
                     owner: nat, consumed: map<nat, Binding>, alive: nat): (exit: Exit)
    requires s.Complete() && |w.roles| == 4
    ensures Early(exit)
  {
    if !(alive > 1 && Passes(s, p, w, requests, approvals, key)) then CheckExit(s, p, w, requests, approvals, key, alive)
    else if !w.capsuleStored then OtherError
    else if alive == 2 || Clears(s, p, w, requests, approvals, key, owner, consumed) then Died
    else ReplayRejected
  }

  /** The governance decisions that a call meets first. */
  predicate Governed(s: Settings, p: Params, w: World)
    requires s.Complete()
  {
    && w.manifestMatches && w.writeAllowed && w.targetAllowed
    && Authorize(s.policy, w.contract, s.tenant, p.userId, s.localTargets, w.authorizedAt).Ok?
  }

  predicate ShowsField(s: Snapshot, f: Field, value: Option<string>) {
    f in s.profile && s.profile[f] == value
  }

  /** The first round of checks on operator, input, user and roles. */
  predicate FirstRound(p: Params, w: World) {
    && w.principal.Answer? && (forall f | f in p.values :: p.values[f].Some?)
    && ReadTrouble(p.userId, w.user) == None
    && (forall i | 0 <= i < |w.roles| :: w.roles[i] == Answer(Entries(0)))
    && exists f :: f in p.values && !ShowsField(SnapshotOf(p.userId, w.user.value), f, p.values[f])
  }

  /** The second round, up to the comparison of both readings. */
  predicate SecondRound(s: Settings, p: Params, w: World)
    requires s.Complete()
  {
    && Authorize(s.policy, w.contract, s.tenant, p.userId, s.localTargets, w.reauthorizedAt).Ok?
    && w.targetAllowedAgain && ReadTrouble(p.userId, w.userAgain) == None
    && forall i | 0 <= i < |w.rolesAgain| :: w.rolesAgain[i] == Answer(Entries(0))
  }

  lemma FirstRoundIsPreflight(s: Settings, p: Params, w: World, requests: Requests)
    requires s.Complete() && |w.roles| == 4
    ensures PreflightPasses(s, p, w, requests) <==>
      Governed(s, p, w) && FirstRound(p, w) && PlanOf(s, p, w, requests, FirstAuthorization(s, p, w).value).Ok?
  {
    if w.user.Answer? && ReadTrouble(p.userId, w.user) == None && forall f | f in p.values :: p.values[f].Some? {
      var snapshot := SnapshotOf(p.userId, w.user.value);
      if f :| f in p.values && !ShowsField(snapshot, f, p.values[f]) {
        assert f in RequestedOf(p) && p.values[f] == Some(RequestedOf(p)[f]);
      }
      if f :| f in RequestedOf(p) && !(f in snapshot.profile && snapshot.profile[f] == Some(RequestedOf(p)[f])) {
        assert !ShowsField(snapshot, f, p.values[f]);
      }
    }
  }

  /** What the gate lets through, and the ledger burns, in terms of the mode the policy or the contract names. */
  predicate GateOpens(s: Settings, w: World, approvals: Approvals, key: nat, plan: Plan,
                      owner: nat, consumed: map<nat, Binding>)
  {
    var mode := if w.contract.id in s.policy.overrides then s.policy.overrides[w.contract.id] else w.contract.mode;
    || mode == StandingPolicy
    || (mode == ExplicitPlan && s.brokerConfigured && owner == s.namespace &&
        var r := Validated(s.namespace, key, approvals, plan, w.validatedAt);
        r.Ok? && r.value.Some? && r.value.value.id !in consumed)
  }

  /**
   The PATCH is sent exactly when governance allows it, both rounds of checks pass on equal
   readings under the same policy and contract, the plan is fresh and approved as its mode
   demands, and the capsule is stored.
   */
  lemma ClearsExactly(s: Settings, p: Params, w: World, requests: Requests, approvals: Approvals, key: nat,
                      owner: nat, consumed: map<nat, Binding>)
    requires s.Complete() && |w.roles| == |w.rolesAgain| == 4
    ensures Clears(s, p, w, requests, approvals, key, owner, consumed) <==>
      && Governed(s, p, w) && FirstRound(p, w) && SecondRound(s, p, w)
      && w.policyFile == Some(s.policy) && w.contractAgain == w.contract && w.capsuleStored
      && SnapshotOf(p.userId, w.userAgain.value) == SnapshotOf(p.userId, w.user.value)
      && var plan := PlanOf(s, p, w, requests, FirstAuthorization(s, p, w).value);
         plan.Ok? && w.freshAt < plan.value.expiresAt && GateOpens(s, w, approvals, key, plan.value, owner, consumed)
  {
    FirstRoundIsPreflight(s, p, w, requests);
    AuthorizedModeExactly(s.policy, w.contract, s.tenant, p.userId, s.localTargets, w.authorizedAt);
  }

  /** The plan of a call: what it means, and how long it lives unless its request had been prepared before. */
  lemma PlanIsForThisCall(s: Settings, p: Params, w: World, requests: Requests, mode: Mode)
    requires w.principal.Answer? && w.user.Answer?
    ensures
      var r := PlanOf(s, p, w, requests, mode);
      && (mode != ExplicitPlan || !s.brokerConfigured ==>
          r.Ok? && r.value.createdAt == w.builtAt && r.value.expiresAt == w.builtAt + s.ttl)
      && (r.Ok? ==> r.value.planId == PlanId(s.namespace, w.contract.id, p.key)
                    && (r.value.binding.Some? <==> mode == ExplicitPlan))
      && (r.Ok? && mode == ExplicitPlan ==>
            var meaning := r.value.binding.value.meaning;
            && meaning.contract == w.contract && meaning.policy == s.policy && meaning.operator == w.principal.value
            && meaning.parameters == p && meaning.precondition == SnapshotOf(p.userId, w.user.value)
            && r.value.binding == Some(Binding(meaning, r.value.createdAt, r.value.expiresAt))
            && meaning.namespace == s.namespace && meaning.planId == r.value.planId
            && meaning.impact.contract == w.contract && meaning.impact.fields == (set f | f in p.values && p.values[f].Some?)
            && meaning.changedFields ==
                 set f | f in p.values && p.values[f].Some? && !ShowsField(meaning.precondition, f, p.values[f]))
  {
    var snapshot, requested := SnapshotOf(p.userId, w.user.value), RequestedOf(p);
    assert requested.Keys == set f | f in p.values && p.values[f].Some?;
    assert ChangesOf(snapshot, requested) == set f | f in p.values && p.values[f].Some? && !ShowsField(snapshot, f, p.values[f]);
  }

  /** The first role query that is not an empty list decides: an error of its own, or a security error. */
  lemma {:induction false} FirstTroubleDecides(roles: seq<Fetch<RoleList>>, i: nat)
    requires i < |roles| && roles[i] != Answer(Entries(0)) && forall j | 0 <= j < i :: roles[j] == Answer(Entries(0))
    ensures RolesTrouble(roles) == Some(!roles[i].Failed?)
  {
    if i > 0 {
      FirstTroubleDecides(roles[1..], i - 1);
    }
  }

  /** How preflight fails: the first thing that is wrong tells. */
  lemma PreflightExitTells(s: Settings, p: Params, w: World, requests: Requests)
    requires s.Complete() && |w.roles| == 4 && !PreflightPasses(s, p, w, requests)
    ensures
      var exit := PreflightExit(s, p, w, requests);
      if !Governed(s, p, w) then exit == DeniedByGovernance
      else if w.principal.Failed? || (exists f :: w.principal.Answer? && f in p.values && p.values[f].None?) then exit == OtherError
      else if w.principal.Insecure? || ReadTrouble(p.userId, w.user) == Some(true) then exit == BlockedPrecondition
      else if ReadTrouble(p.userId, w.user) == Some(false) then exit == OtherError
      else if RolesTrouble(w.roles).Some? then exit == if RolesTrouble(w.roles) == Some(true) then BlockedPrecondition else OtherError
      else if !FirstRound(p, w) then exit == BlockedPrecondition
      else exit == if PlanOf(s, p, w, requests, FirstAuthorization(s, p, w).value) == Err(RequestOutsideLifetime)
                   then OtherError else BlockedPrecondition
  {
    FirstRoundIsPreflight(s, p, w, requests);
    NoRolesTrouble(w.roles);
  }

  /** How a call ends that has no plan or dies before its gate. */
  lemma UnplannedExit(s: Settings, p: Params, w: World, requests: Requests, approvals: Approvals, key: nat,
                      owner: nat, consumed: map<nat, Binding>, alive: nat)
    requires s.Complete() && |w.roles| == 4 && !Planned(s, p, w, requests, alive)
    ensures ClearExit(s, p, w, requests, approvals, key, owner, consumed, alive) ==
      if alive == 0 || PreflightPasses(s, p, w, requests) then Died else PreflightExit(s, p, w, requests)
  {
    FirstRoundIsPreflight(s, p, w, requests);
  }

  /** The call lives to its gate and has a plan. */
  predicate Planned(s: Settings, p: Params, w: World, requests: Requests, alive: nat)
    requires s.Complete()
  {
    && alive > 1 && Governed(s, p, w) && FirstRound(p, w)
    && PlanOf(s, p, w, requests, FirstAuthorization(s, p, w).value).Ok?
  }

  lemma PlannedPasses(s: Settings, p: Params, w: World, requests: Requests, alive: nat)
    requires s.Complete() && |w.roles| == 4 && Planned(s, p, w, requests, alive)
    ensures PreflightPasses(s, p, w, requests)
    ensures FirstAuthorization(s, p, w) ==
      Ok(if w.contract.id in s.policy.overrides then s.policy.overrides[w.contract.id] else w.contract.mode)
  {
    FirstRoundIsPreflight(s, p, w, requests);
    AuthorizedModeExactly(s.policy, w.contract, s.tenant, p.userId, s.localTargets, w.authorizedAt);
  }

  /** A call with a plan ends at the gate, at the second round of checks, or behind it. */
  lemma PlannedExit(s: Settings, p: Params, w: World, requests: Requests, approvals: Approvals, key: nat,
                    owner: nat, consumed: map<nat, Binding>, alive: nat)
    requires s.Complete() && |w.roles| == 4 && Planned(s, p, w, requests, alive)
    ensures
      var exit := ClearExit(s, p, w, requests, approvals, key, owner, consumed, alive);
      var mode, snapshot := FirstAuthorization(s, p, w).value, SnapshotOf(p.userId, w.user.value);
      var plan := PlanOf(s, p, w, requests, mode).value;
      var gate := GateOf(s, key, approvals, plan, mode, w.validatedAt);
      exit ==
        if gate.Err? then gate.error
        else if !StillCurrent(s, p, w, plan, snapshot) then RevalidateExit(s, p, w, plan)
        else if !w.capsuleStored then OtherError
        else if alive == 2 || gate.value.None? || Burnable(s, gate.value, owner, consumed) then Died
        else ReplayRejected
  {
    PlannedPasses(s, p, w, requests, alive);
  }

  /** What the gate decides, in terms of the mode and of what the broker finds. */
  lemma GateTells(s: Settings, key: nat, approvals: Approvals, plan: Plan, mode: Mode, now: int)
    ensures
      var gate, validated := GateOf(s, key, approvals, plan, mode, now), Validated(s.namespace, key, approvals, plan, now);
      && (gate == Err(StrongerModeNeeded) <==> mode != StandingPolicy && mode != ExplicitPlan)
      && (gate == Err(AwaitingApproval) <==> mode == ExplicitPlan && (!s.brokerConfigured || validated == Ok(None)))
      && (gate == Err(ApprovalInvalid) <==> mode == ExplicitPlan && s.brokerConfigured && validated.Err?)
      && (gate == Ok(None) <==> mode == StandingPolicy)
      && (forall grant :: gate == Ok(Some(grant)) <==>
            mode == ExplicitPlan && s.brokerConfigured && validated == Ok(Some(grant)))
  {
  }

  /** How the second round ends when something is no longer as it was. */
  lemma RevalidationTells(s: Settings, p: Params, w: World, plan: Plan, snapshot: Snapshot)
    requires s.Complete() && |w.rolesAgain| == 4
    ensures StillCurrent(s, p, w, plan, snapshot) <==>
      && w.freshAt < plan.expiresAt && w.policyFile == Some(s.policy) && w.contractAgain == w.contract
      && SecondRound(s, p, w) && SnapshotOf(p.userId, w.userAgain.value) == snapshot
    ensures !StillCurrent(s, p, w, plan, snapshot) ==>
      var exit := RevalidateExit(s, p, w, plan);
      && (exit == Exit.PlanExpired <==> w.freshAt >= plan.expiresAt)
      && (exit == ContractChanged <==>
            w.freshAt < plan.expiresAt && w.policyFile == Some(s.policy) && w.contractAgain != w.contract)
      && (exit == UserChanged <==>
            w.freshAt < plan.expiresAt && w.policyFile == Some(s.policy) && w.contractAgain == w.contract && SecondRound(s, p, w))
      && (exit in {Exit.PlanExpired, ContractChanged, UserChanged, OtherError})
  {
    NoRolesTrouble(w.rolesAgain);
  }

  predicate Burnable(s: Settings, grant: Option<Grant>, owner: nat, consumed: map<nat, Binding>) {
    grant.Some? && Burnt(owner, consumed, s.namespace, grant.value).0.None?
  }

  /** What stops a call between the checks and the PATCH. */
  function StopOf(s: Settings, w: World, grant: Option<Grant>, owner: nat, consumed: map<nat, Binding>, alive: nat)
    : Option<Exit>
  {
    if !w.capsuleStored then Some(OtherError)
    else if alive == 2 then Some(Died)
    else if grant.Some? && !Burnable(s, grant, owner, consumed) then Some(ReplayRejected)
    else if alive == 3 then Some(Died)
    else None
  }

  /** A plan that passed every check, with the grant to burn for it. */
  datatype Checked = Checked(ready: Ready, grant: Option<Grant>)

  /** Preflight, gate and revalidation end as they should. */
  predicate ChecksAs(s: Settings, p: Params, w: World, requests: Requests, approvals: Approvals, key: nat, alive: nat,
                     r: Result<Checked, Exit>)
    requires s.Complete() && |w.roles| == 4
  {
    if alive > 1 && Passes(s, p, w, requests, approvals, key) then
      && r.Ok? && r.value.grant == GrantOf(s, p, w, requests, approvals, key)
      && r.value.ready.mode == FirstAuthorization(s, p, w).value
      && r.value.ready.snapshot == SnapshotOf(p.userId, w.user.value) && r.value.ready.requested == RequestedOf(p)
    else
      r == Err(CheckExit(s, p, w, requests, approvals, key, alive))
  }

  /** What remains after the checks decides whether the call is cleared, and its exit if it is not. */
  lemma StopDecides(s: Settings, p: Params, w: World, requests: Requests, approvals: Approvals, key: nat,
                    owner: nat, consumed: map<nat, Binding>, alive: nat, checked: Result<Checked, Exit>)
    requires s.Complete() && |w.roles| == 4 && ChecksAs(s, p, w, requests, approvals, key, alive, checked)
    ensures
      var stop := if checked.Err? then Some(checked.error) else StopOf(s, w, checked.value.grant, owner, consumed, alive);
      && (stop.None? <==> alive > 3 && Clears(s, p, w, requests, approvals, key, owner, consumed))
      && (stop.Some? ==> stop.value == ClearExit(s, p, w, requests, approvals, key, owner, consumed, alive))
    ensures checked.Ok? ==>
      && alive > 1 && checked.value.ready.requested == RequestedOf(p)
      && Gated(s.policy, w.contract, checked.value.ready.mode, checked.value.ready.snapshot, RequestedOf(p), checked.value.grant)
  {
  }

  /** How a call ends whose PATCH was sent. */
  function SentExit(reply: G.Reply, confirmed: bool, alive: nat): Exit {
    if alive <= 4 then Died
    else match reply
      case GraphError(_, mayHaveCommitted) => if mayHaveCommitted then Uncertain(false) else RejectedBeforeEffect
      case AuthenticationError => OtherError
      case DecodingError(_) => OtherError
      case Interrupted => Died
      case _ => if alive == 5 then Died else if confirmed then ExecutedVerified else Uncertain(true)
  }

  /** Some attempt of the PATCH, reached within the retry bound, is accepted with an answer that reads as one. */
  predicate Welcomed(c: G.Config, net: G.Network) {
    net.tokenOk && exists k: nat ::
      && k <= c.maxRetries && G.Reaches(G.Write, net, k) && G.Succeeds(net.script(k)) && G.FitsLimit(c, G.Write, net.script(k))
      && (net.script(k).status == 204 || net.script(k).size == 0 || net.script(k).content.JsonObject?)
  }

  lemma AcceptedExactly(c: G.Config, net: G.Network)
    requires net.survives > c.maxRetries
    ensures Accepted(G.Conversation(c, G.Write, net).reply) <==> Welcomed(c, net)
  {
    if net.tokenOk {
      G.StopsWhereItEnds(c, G.Write, net);
      var last := G.Conversation(c, G.Write, net).sent - 1;
      G.ReplyExactly(c, G.Write, net, last);
      if k: nat :| && k <= c.maxRetries && G.Reaches(G.Write, net, k) && G.Succeeds(net.script(k))
                   && G.FitsLimit(c, G.Write, net.script(k))
                   && (net.script(k).status == 204 || net.script(k).size == 0 || net.script(k).content.JsonObject?) {
        G.ReplyExactly(c, G.Write, net, k);
      }
    }
  }

  /**
   An exit claims success exactly after an accepted PATCH and a read that shows every
   requested value, and uncertainty exactly after a flagged error or an unconfirmed read.
   */
  lemma ExitsAreSound(p: Params, w: World, reply: G.Reply, alive: nat)
    ensures
      var exit := SentExit(reply, Confirmed(p, w.userAfter), alive);
      && (exit == ExecutedVerified <==>
            && alive > 5 && Accepted(reply) && w.userAfter.Answer?
            && Reads(p.userId, w.userAfter, SnapshotOf(p.userId, w.userAfter.value))
            && forall f | f in p.values && p.values[f].Some? ::
                 var profile := SnapshotOf(p.userId, w.userAfter.value).profile;
                 f in profile && profile[f] == p.values[f])
      && (exit == Uncertain(false) <==> alive > 4 && reply.GraphError? && reply.mayHaveCommitted)
      && (exit == Uncertain(true) <==> alive > 5 && Accepted(reply) && !Confirmed(p, w.userAfter))
      && (exit == RejectedBeforeEffect <==> alive > 4 && reply.GraphError? && !reply.mayHaveCommitted)
      && (exit == OtherError <==> alive > 4 && (reply.AuthenticationError? || reply.DecodingError?))
      && (exit == Died <==> alive <= 4 || reply == G.Interrupted || (alive == 5 && Accepted(reply)))
  {
    if w.userAfter.Answer? {
      var profile := SnapshotOf(p.userId, w.userAfter.value).profile;
      forall f: Field ensures f in profile { AllFields(f); }
      assert forall f | f in RequestedOf(p) :: p.values[f] == Some(RequestedOf(p)[f]);
    }
  }

  /** What the checks leave: standing policy, or an explicit plan with a grant that covers policy, user state and body. */
  predicate Gated(policy: Policy, contract: Contract, mode: Mode, snapshot: Snapshot, requested: map<Field, string>,
                  grant: Option<Grant>)
  {
    && (mode == StandingPolicy || mode == ExplicitPlan)
    && (grant.Some? <==> mode == ExplicitPlan)
    && (grant.Some? ==> grant.value.Valid() && Covers(grant.value.plan.meaning, policy, contract, snapshot, requested))
  }

  predicate Accepted(reply: G.Reply) {
    reply.Returned? || reply.EmptyObject?
  }

  /** The verifying read is sound and shows every requested value. */
  predicate Confirmed(p: Params, after: Fetch<RawUser>) {
    after.Answer? && Reads(p.userId, after, SnapshotOf(p.userId, after.value))
    && Confirms(SnapshotOf(p.userId, after.value), RequestedOf(p))
  }

  // ---------------------------------------------------------------------------------
  // From the events of the parts to a lawful call
  // ---------------------------------------------------------------------------------

  /** Reading checks only. */
  predicate OnlyChecks(events: seq<Event>) {
    forall i | 0 <= i < |events| :: events[i].Authorized? || events[i].UserRead? || events[i].RolesClear?
  }

  /** What one round of checks leaves when it passes. */
  function Round(policy: Policy, contract: Contract, mode: Mode, snapshot: Snapshot): seq<Event> {
    [Authorized(policy, contract, mode), UserRead(snapshot), RolesClear(snapshot.userId)]
  }

  function Rounds(policy: Policy, contract: Contract, first: Mode, again: Mode, snapshot: Snapshot): seq<Event> {
    Round(policy, contract, first, snapshot) + Round(policy, contract, again, snapshot)
  }

  /** The events before the first request of a call that sends. */
  predicate Ready7(events: seq<Event>, requested: map<Field, string>) {
    && |events| >= 7
    && events[0].Authorized? && events[3].Authorized? && events[0].policy == events[3].policy
    && events[0].contract == events[3].contract
    && events[1].UserRead? && events[4] == events[1]
    && events[2] == events[5] == RolesClear(events[1].snapshot.userId)
    && events[6] == CapsuleStored(events[1].snapshot.userId, events[1].snapshot.profile, requested)
    && (events[0].mode == StandingPolicy || events[0].mode == ExplicitPlan)
    && (if events[0].mode == StandingPolicy then |events| == 7
        else
          && |events| == 8 && events[7].Consumed? && events[7].grant.Valid()
          && Covers(events[7].grant.plan.meaning, events[0].policy, events[0].contract, events[1].snapshot, requested))
  }

  lemma {:induction false} NothingSent(events: seq<Event>)
    requires forall i | 0 <= i < |events| :: !events[i].Sent?
    ensures RequestsIn(events) == [] && Committed(events) == 0
  {
    if events != [] {
      NothingSent(events[..|events| - 1]);
    }
  }

  lemma {:induction false} OnlySent(events: seq<Event>)
    requires forall i | 0 <= i < |events| :: events[i].Sent?
    ensures RequestsIn(events) == events
  {
    if events != [] {
      OnlySent(events[..|events| - 1]);
      assert events == events[..|events| - 1] + [events[|events| - 1]];
    }
  }

  lemma SendIsPrepared(before: seq<Event>, requested: map<Field, string>, call: seq<Event>, i: nat)
    requires Ready7(before, requested) && before <= call && |before| <= i < |call|
    requires call[i].Sent? && call[i].payload == Fields(before[1].snapshot.userId, requested)
    ensures PreparedAt(call, i)
  {
  }

  lemma ThreeParts(a: seq<Event>, b: seq<Event>, c: seq<Event>)
    requires RequestsIn(a) == RequestsIn(c) == [] && Committed(a) == Committed(c) == 0
    ensures RequestsIn(a + b + c) == RequestsIn(b) && Committed(a + b + c) == Committed(b)
  {
    CommittedJoins(a + b, c);
    CommittedJoins(a, b);
    RequestsJoin(a + b, c);
    RequestsJoin(a, b);
  }

  /** Preparation, then the requests, then perhaps the verifying read. */
  lemma PreparedCallSends(before: seq<Event>, requested: map<Field, string>, script: nat -> G.Response,
                          hidden: nat -> bool, sent: nat, after: seq<Event>)
    requires Ready7(before, requested) && OnlyChecks(after)
    ensures
      var sends := G.Sends(Fields(before[1].snapshot.userId, requested), script, hidden, sent);
      var call := before + sends + after;
      RequestsIn(call) == sends && Committed(call) == G.Commits(script, hidden, sent)
  {
    var sends := G.Sends(Fields(before[1].snapshot.userId, requested), script, hidden, sent);
    NothingSent(before);
    NothingSent(after);
    OnlySent(sends);
    ThreeParts(before, sends, after);
    G.SendsTellCommits(Fields(before[1].snapshot.userId, requested), script, hidden, sent);
  }

  lemma PreparedCallIsLawful(before: seq<Event>, requested: map<Field, string>, script: nat -> G.Response,
                             hidden: nat -> bool, sent: nat, after: seq<Event>)
    requires Ready7(before, requested) && OnlyChecks(after) && G.Commits(script, hidden, sent) <= 1
    ensures Lawful(before + G.Sends(Fields(before[1].snapshot.userId, requested), script, hidden, sent) + after)
  {
    var sends := G.Sends(Fields(before[1].snapshot.userId, requested), script, hidden, sent);
    var call := before + sends + after;
    PreparedCallSends(before, requested, script, hidden, sent, after);
    assert forall j | 0 <= j < |before| :: call[j] == before[j];
    assert forall j | |before| <= j < |before + sends| :: call[j] == sends[j - |before|];
    assert forall j | |before + sends| <= j < |call| :: call[j] == after[j - |before + sends|];
    forall i: nat | i < |call| && call[i].Sent? ensures PreparedAt(call, i) {
      SendIsPrepared(before, requested, call, i);
    }
  }

  /** Events that burn nothing do not change what a call burns. */
  lemma BurnsBefore(before: seq<Event>, rest: seq<Event>)
    requires forall i | 0 <= i < |rest| :: !rest[i].Consumed?
    ensures forall id :: Burns(before + rest, id) <==> Burns(before, id)
  {
    var call := before + rest;
    assert forall i | 0 <= i < |before| :: call[i] == before[i];
    assert forall i | |before| <= i < |call| :: call[i] == rest[i - |before|];
    forall id ensures Burns(call, id) <==> Burns(before, id) {
      if Burns(before, id) {
        var i :| 0 <= i < |before| && before[i].Consumed? && before[i].grant.id == id;
        assert call[i].Consumed? && call[i].grant.id == id;
      }
    }
  }

  /** A reply tells what was committed, up to the moment nothing is known any more. */
  predicate Tells(reply: G.Reply, commits: nat) {
    && commits <= 1
    && (reply.Returned? || reply.EmptyObject? || reply.DecodingError? ==> commits == 1)
    && (reply.AuthenticationError? || (reply.GraphError? && !reply.mayHaveCommitted) ==> commits == 0)
  }

  /** The whole call, with what its events and its reply say about the server. */
  lemma SentCall(before: seq<Event>, requested: map<Field, string>, c: G.Config, net: G.Network, hidden: nat -> bool,
                 after: seq<Event>)
    requires Ready7(before, requested) && OnlyChecks(after)
    ensures
      var e := G.Conversation(c, G.Write, net);
      var sends := G.Sends(Fields(before[1].snapshot.userId, requested), net.script, hidden, e.sent);
      var call := before + sends + after;
      Lawful(call) && RequestsIn(call) == sends && Tells(e.reply, Committed(call))
      && forall id :: Burns(call, id) <==> Burns(before, id)
  {
    var e := G.Conversation(c, G.Write, net);
    var sends := G.Sends(Fields(before[1].snapshot.userId, requested), net.script, hidden, e.sent);
    G.WriteCommitsAtMostOnce(c, G.Write, net, hidden);
    PreparedCallSends(before, requested, net.script, hidden, e.sent, after);
    PreparedCallIsLawful(before, requested, net.script, hidden, e.sent, after);
    BurnsBefore(before, sends + after);
    assert before + sends + after == before + (sends + after);
  }

  /** How a call ends tells what was committed, unless the process died. */
  lemma ExitTells(reply: G.Reply, confirmed: bool, alive: nat, commits: nat)
    requires Tells(reply, commits)
    ensures
      var exit := SentExit(reply, confirmed, alive);
      && (exit == ExecutedVerified ==> commits == 1)
      && (!exit.ExecutedVerified? && !exit.Uncertain? && !exit.Died? ==> (commits == 0 <==> !reply.DecodingError?))
  {
  }

  /** No request left: the checks, then perhaps the capsule, then perhaps one burnt approval. */
  predicate Unsent(events: seq<Event>) {
    && (forall i | 0 <= i < |events| :: !events[i].Sent?)
    && (forall i, j | 0 <= i < j < |events| :: !(events[i].Consumed? && events[j].Consumed?))
  }

  lemma UnsentIsLawful(events: seq<Event>)
    requires Unsent(events)
    ensures Lawful(events) && RequestsIn(events) == [] && Committed(events) == 0
  {
    NothingSent(events);
  }

  /** What storing the capsule and burning the approval leave. */
  function StoredAndBurnt(snapshot: Snapshot, requested: map<Field, string>, grant: Option<Grant>,
                          stored: bool, burnt: bool): seq<Event> {
    if !stored then []
    else [CapsuleStored(snapshot.userId, snapshot.profile, requested)] + if grant.Some? && burnt then [Consumed(grant.value)] else []
  }

  /** Two rounds of checks, the capsule and the approval make a call ready. */
  lemma ClearedLog(policy: Policy, contract: Contract, mode: Mode, again: Mode, snapshot: Snapshot, requested: map<Field, string>,
                   grant: Option<Grant>, stored: bool, burnt: bool)
    requires Gated(policy, contract, mode, snapshot, requested, grant)
    ensures
      var rest := StoredAndBurnt(snapshot, requested, grant, stored, burnt);
      var log := Rounds(policy, contract, mode, again, snapshot) + rest;
      && Unsent(log) && (stored && (grant.Some? ==> burnt) ==> Ready7(log, requested))
      && (forall i | 0 <= i < |log| && log[i].Consumed? :: mode == ExplicitPlan)
      && forall id :: Burns(log, id) <==> Burns(rest, id)
  {
    var rest := StoredAndBurnt(snapshot, requested, grant, stored, burnt);
    var rounds := Rounds(policy, contract, mode, again, snapshot);
    var log := rounds + rest;
    assert forall i | 0 <= i < 6 :: log[i] == rounds[i] && !rounds[i].Consumed? && !rounds[i].Sent?;
    assert forall i | 0 <= i < |rest| :: log[6 + i] == rest[i];
    forall id ensures Burns(log, id) <==> Burns(rest, id) {
      if Burns(rest, id) {
        assert log[7] == rest[1];
      }
    }
  }

  /** A prepared call follows the mode it was first authorized with. */
  lemma SentFollowsMode(policy: Policy, contract: Contract, before: seq<Event>, requested: map<Field, string>, call: seq<Event>)
    requires Ready7(before, requested) && before <= call
    requires forall i | |before| <= i < |call| :: !call[i].Consumed?
    requires before[0].policy == policy && before[0].contract == contract
    requires before[0].mode == if contract.id in policy.overrides then policy.overrides[contract.id] else contract.mode
    ensures FollowsMode(policy, contract, call)
  {
    assert forall i | 0 <= i < |before| :: call[i] == before[i];
    if before[0].mode == ExplicitPlan {
      forall i: nat | i < |call| && call[i].Sent? ensures ApprovedBefore(policy, contract, call, i) {
        assert call[7].Consumed? && call[7].grant == before[7].grant;
      }
    }
  }

  /** And so does a call that sends nothing. */
  lemma UnsentFollowsMode(s: Settings, p: Params, w: World, call: seq<Event>)
    requires s.Complete() && Unsent(call)
    requires forall i | 0 <= i < |call| && call[i].Consumed? :: FirstAuthorization(s, p, w) == Ok(ExplicitPlan)
    ensures FollowsMode(s.policy, w.contract, call)
  {
    AuthorizedModeExactly(s.policy, w.contract, s.tenant, p.userId, s.localTargets, w.authorizedAt);
  }

  lemma VerifiedExactly(p: Params, w: World, c: G.Config, net: G.Network, alive: nat)
    ensures
      (SentExit(G.Conversation(c, G.Write, Seen(net, c, alive)).reply, Confirmed(p, w.userAfter), alive) == ExecutedVerified) ==
      (alive > 5 && Welcomed(c, Seen(net, c, alive)) && Confirmed(p, w.userAfter))
  {
    if alive > 5 {
      AcceptedExactly(c, Seen(net, c, alive));
    }
  }

  /** Everything that the events of a cleared call and its exit tell. */
  lemma SentTells(s: Settings, p: Params, w: World, c: G.Config, net: G.Network, hidden: nat -> bool, alive: nat,
                  before: seq<Event>, after: seq<Event>)
    requires s.Complete() && Ready7(before, RequestedOf(p)) && OnlyChecks(after)
    requires FirstAuthorization(s, p, w).Ok?
    requires before[0] == Authorized(s.policy, w.contract, FirstAuthorization(s, p, w).value)
    requires before[1].snapshot.userId == p.userId
    ensures
      var e := G.Conversation(c, G.Write, Seen(net, c, alive));
      var sends := G.Sends(Fields(p.userId, RequestedOf(p)), net.script, hidden, e.sent);
      var call, exit := before + sends + after, SentExit(e.reply, Confirmed(p, w.userAfter), alive);
      && Lawful(call) && RequestsIn(call) == sends && FollowsMode(s.policy, w.contract, call)
      && (forall id :: Burns(call, id) <==> Burns(before, id))
      && ((exit == ExecutedVerified) == (alive > 5 && Welcomed(c, Seen(net, c, alive)) && Confirmed(p, w.userAfter)))
      && (exit == ExecutedVerified ==> Committed(call) == 1)
      && (!exit.ExecutedVerified? && !exit.Uncertain? && !exit.Died? ==> (Committed(call) == 0 <==> !e.reply.DecodingError?))
  {
    var e := G.Conversation(c, G.Write, Seen(net, c, alive));
    var sends := G.Sends(Fields(p.userId, RequestedOf(p)), net.script, hidden, e.sent);
    var call := before + sends + after;
    SentCall(before, RequestedOf(p), c, Seen(net, c, alive), hidden, after);
    ExitTells(e.reply, Confirmed(p, w.userAfter), alive, Committed(call));
    VerifiedExactly(p, w, c, net, alive);
    AuthorizedModeExactly(s.policy, w.contract, s.tenant, p.userId, s.localTargets, w.authorizedAt);
    assert call == before + (sends + after);
    SentFollowsMode(s.policy, w.contract, before, RequestedOf(p), call);
  }

  lemma Regroup(a: seq<Event>, b: seq<Event>, c: seq<Event>)
    ensures a + b + c == a + (b + c)
  {
  }

  /** What the PATCH meets when the process dies at this point of the call. */
  function Seen(net: G.Network, c: G.Config, alive: nat): G.Network {
    net.(survives := if alive == 4 then net.survives else c.maxRetries + 1)
  }

  lemma HistoryGrows(calls: seq<seq<Event>>, before: map<nat, Binding>, call: seq<Event>, after: map<nat, Binding>)
    requires History(calls, before) && Lawful(call) && BurnsOnly(call, before, after)
    ensures History(calls + [call], after)
  {
    var longer := calls + [call];
    assert forall k | 0 <= k < |longer| :: longer[k] == if k < |calls| then calls[k] else call;
  }

  /** The ledger only grows, and what this call burnt was not in it before and is in it now. */
  ghost predicate BurnsOnly(call: seq<Event>, before: map<nat, Binding>, after: map<nat, Binding>) {
    && (forall id | id in before :: id in after)
    && (forall id | Burns(call, id) :: id !in before && id in after)
  }

  // ---------------------------------------------------------------------------------
  // The operation
  // ---------------------------------------------------------------------------------

  datatype Capsule = Capsule(user: nat, previous: map<Field, Option<string>>, requested: map<Field, string>)

  class RecoveryCapsuleStore {
    const trace: Trace
    var capsules: seq<Capsule>

    constructor (trace: Trace)
      ensures this.trace == trace && capsules == []
    {
      this.trace, capsules := trace, [];
    }

    /** Appends the values before and after, durably, or fails. */
    method Store(user: nat, previous: map<Field, Option<string>>, requested: map<Field, string>, works: bool)
      returns (ok: bool)
      modifies this`capsules, trace
      ensures ok == works
      ensures capsules == old(capsules) + if ok then [Capsule(user, previous, requested)] else []
      ensures trace.events == old(trace.events) + if ok then [CapsuleStored(user, previous, requested)] else []
    {
      if works {
        capsules := capsules + [Capsule(user, previous, requested)];
        trace.Add(CapsuleStored(user, previous, requested));
      }
      return works;
    }
  }

  class EntraOperations {
    const settings: Settings
    const broker: ExternalApprovalBroker
    const graph: G.Client
    const recovery: RecoveryCapsuleStore
    const trace: Trace
    ghost var calls: seq<seq<Event>>

    constructor (settings: Settings, broker: ExternalApprovalBroker, graph: G.Client, recovery: RecoveryCapsuleStore,
                 trace: Trace)
      requires settings.Complete() && broker.namespace == settings.namespace
      requires broker.ledger.trace == graph.trace == recovery.trace == trace && trace.events == []
      ensures Valid() && calls == []
      ensures this.settings == settings && this.broker == broker && this.graph == graph
      ensures this.recovery == recovery && this.trace == trace
    {
      this.settings, this.broker, this.graph, this.recovery, this.trace := settings, broker, graph, recovery, trace;
      calls := [];
    }

    /** All parts report to one trace. */
    predicate Wired() {
      && settings.Complete() && broker.namespace == settings.namespace
      && broker.ledger.trace == graph.trace == recovery.trace == trace
    }

    ghost predicate Valid()
      reads this, broker, broker.ledger, trace
    {
      Wired() && History(calls, broker.ledger.consumed) && trace.events == Joined(calls)
    }

    /** Authorization under a policy, which is an event when it is granted. */
    method Permit(policy: Policy, contract: Contract, userId: nat, now: int) returns (r: Result<Mode, Reason>)
      requires policy.Complete()
      modifies trace
      ensures r == Authorize(policy, contract, settings.tenant, userId, settings.localTargets, now)
      ensures trace.events == old(trace.events) + if r.Ok? then [Authorized(policy, contract, r.value)] else []
    {
      r := Authorize(policy, contract, settings.tenant, userId, settings.localTargets, now);
      if r.Ok? {
        trace.Add(Authorized(policy, contract, r.value));
      }
    }

    /** The plan of a call, stored as a request if the host is to approve it. */
    method MakePlan(p: Params, w: World, mode: Mode, snapshot: Snapshot, requested: map<Field, string>, changes: set<Field>)
      returns (r: Result<Ready, Exit>)
      requires Wired() && w.principal.Answer? && w.user.Answer? && snapshot == SnapshotOf(p.userId, w.user.value)
      requires requested == RequestedOf(p) && changes == ChangesOf(snapshot, requested)
      modifies broker`requests
      ensures
        var plan := PlanOf(settings, p, w, old(broker.requests), mode);
        r == if plan.Ok? then Ok(Ready(plan.value, mode, snapshot, requested, w.contract))
             else Err(ExitFor(plan.error != RequestOutsideLifetime))
    {
      var meaning := MeaningOf(settings, p, w, w.principal.value, snapshot, requested, changes);
      var plan := Built(meaning, mode == ExplicitPlan, w.builtAt, settings.ttl);
      if settings.brokerConfigured {
        var prepared := broker.Prepare(plan, w.preparedAt, w.requestedAt);
        if prepared.Err? {
          return Err(if prepared.error == RequestOutsideLifetime then OtherError else BlockedPrecondition);
        }
        plan := prepared.value;
      }
      return Ok(Ready(plan, mode, snapshot, requested, w.contract));
    }

    /** The first round of checks, up to the values that the plan is made of. */
    method Examine(p: Params, w: World, ghost requests: Requests) returns (r: Result<Examined, Exit>, ghost log: seq<Event>)
      requires Wired() && |w.roles| == 4
      modifies trace
      ensures trace.events == old(trace.events) + log
      ensures if r.Ok? then log == Round(settings.policy, w.contract, r.value.mode, r.value.snapshot) else OnlyChecks(log)
      ensures r.Err? ==>
        !PreflightPasses(settings, p, w, requests) && r.error == PreflightExit(settings, p, w, requests)
      ensures r.Ok? ==> ExaminedAs(settings, p, w, r.value)
    {
      log := [];
      if !w.manifestMatches || !w.writeAllowed || !w.targetAllowed {
        return Err(DeniedByGovernance), log;
      }
      var authorization := Permit(settings.policy, w.contract, p.userId, w.authorizedAt);
      if authorization.Err? {
        return Err(DeniedByGovernance), log;
      }
      var mode := authorization.value;
      log := [Authorized(settings.policy, w.contract, mode)];
      if !w.principal.Answer? {
        return Err(if w.principal.Insecure? then BlockedPrecondition else OtherError), log;
      }
      var body := RequestedFields(p);
      if body.None? {
        return Err(OtherError), log;
      }
      var requested := body.value;
      assert requested == RequestedOf(p);
      var user := ReadUser(p.userId, w.user, trace);
      if user.Err? {
        return Err(if user.error then BlockedPrecondition else OtherError), log;
      }
      var snapshot := user.value;
      Regroup(old(trace.events), log, [UserRead(snapshot)]);
      log := log + [UserRead(snapshot)];
      var trouble := EnsureNonPrivileged(p.userId, w.roles, trace);
      if trouble.Some? {
        return Err(if trouble.value then BlockedPrecondition else OtherError), log;
      }
      Regroup(old(trace.events), log, [RolesClear(p.userId)]);
      log := log + [RolesClear(p.userId)];
      var changes := EffectiveChanges(snapshot, requested);
      if changes == {} {
        return Err(BlockedPrecondition), log;
      }
      r := Ok(Examined(mode, snapshot, requested, changes));
    }

    /** The first round of checks, up to the plan and its request file. */
    method Preflight(p: Params, w: World) returns (r: Result<Ready, Exit>, ghost log: seq<Event>)
      requires Wired() && |w.roles| == 4
      modifies broker`requests, trace
      ensures trace.events == old(trace.events) + log
      ensures if r.Ok? then log == Round(settings.policy, w.contract, r.value.mode, r.value.snapshot) else OnlyChecks(log)
      ensures r.Ok? <==> PreflightPasses(settings, p, w, old(broker.requests))
      ensures r.Err? ==> r.error == PreflightExit(settings, p, w, old(broker.requests))
      ensures r.Ok? ==>
        && r.value.mode == FirstAuthorization(settings, p, w).value
        && r.value.snapshot == SnapshotOf(p.userId, w.user.value)
        && r.value.requested == RequestedOf(p) && r.value.contract == w.contract
        && Ok(r.value.plan) == PlanOf(settings, p, w, old(broker.requests), r.value.mode)
    {
      var examined;
      examined, log := Examine(p, w, broker.requests);
      if examined.Err? {
        return Err(examined.error), log;
      }
      var e := examined.value;
      ExaminedPasses(settings, p, w, broker.requests, e);
      r := MakePlan(p, w, e.mode, e.snapshot, e.requested, e.changes);
    }

    /** The gate: standing policy needs no grant, an explicit plan a current one, anything else is refused. */
    method AuthorizationGate(plan: Plan, mode: Mode, now: int) returns (r: Result<Option<Grant>, Exit>)
      requires broker.namespace == settings.namespace
      ensures r == GateOf(settings, broker.trustedKey, broker.approvals, plan, mode, now)
      ensures r.Err? ==> r.error in {StrongerModeNeeded, ApprovalInvalid, AwaitingApproval}
    {
      if mode == StandingPolicy {
        return Ok(None);
      }
      if mode != ExplicitPlan {
        return Err(StrongerModeNeeded);
      }
      if !settings.brokerConfigured {
        return Err(AwaitingApproval);
      }
      var validated := broker.Validate(plan, now);
      if validated.Err? {
        return Err(ApprovalInvalid);
      }
      if validated.value.None? {
        return Err(AwaitingApproval);
      }
      return Ok(Some(validated.value.value));
    }

    /** Freshness and everything that is checked a second time. */
    method Revalidate(p: Params, w: World, ready: Ready)
      returns (r: Result<Snapshot, Exit>, ghost again: Mode, ghost log: seq<Event>)
      requires Wired() && |w.rolesAgain| == 4 && ready.contract == w.contract
      modifies trace
      ensures trace.events == old(trace.events) + log
      ensures if r.Ok? then log == Round(settings.policy, w.contract, again, ready.snapshot) else OnlyChecks(log)
      ensures r.Ok? <==> StillCurrent(settings, p, w, ready.plan, ready.snapshot)
      ensures r.Ok? ==> r.value == ready.snapshot
      ensures r.Err? ==> r.error == RevalidateExit(settings, p, w, ready.plan)
    {
      again, log := ready.mode, [];
      if w.freshAt >= ready.plan.expiresAt {
        return Err(Exit.PlanExpired), again, log;
      }
      if w.policyFile.None? || w.policyFile.value != settings.policy {
        return Err(OtherError), again, log;
      }
      if w.contractAgain != ready.contract {
        return Err(ContractChanged), again, log;
      }
      var authorization := Permit(w.policyFile.value, w.contractAgain, p.userId, w.reauthorizedAt);
      if authorization.Err? {
        return Err(OtherError), again, log;
      }
      again := authorization.value;
      log := [Authorized(settings.policy, w.contract, again)];
      if !w.targetAllowedAgain {
        return Err(OtherError), again, log;
      }
      var current := ReadUser(p.userId, w.userAgain, trace);
      if current.Err? {
        return Err(OtherError), again, log;
      }
      Regroup(old(trace.events), log, [UserRead(current.value)]);
      log := log + [UserRead(current.value)];
      var trouble := EnsureNonPrivileged(p.userId, w.rolesAgain, trace);
      if trouble.Some? {
        return Err(OtherError), again, log;
      }
      Regroup(old(trace.events), log, [RolesClear(p.userId)]);
      log := log + [RolesClear(p.userId)];
      if current.value != ready.snapshot {
        return Err(UserChanged), again, log;
      }
      return Ok(current.value), again, log;
    }

    /** The verifying read: whatever goes wrong after the PATCH leaves the outcome uncertain. */
    method Verify(p: Params, requested: map<Field, string>, after: Fetch<RawUser>)
      returns (confirmed: bool, ghost log: seq<Event>)
      modifies trace
      ensures trace.events == old(trace.events) + log && OnlyChecks(log)
      ensures confirmed <==>
        after.Answer? && Reads(p.userId, after, SnapshotOf(p.userId, after.value))
        && Confirms(SnapshotOf(p.userId, after.value), requested)
    {
      log := [];
      var observed := ReadUser(p.userId, after, trace);
      if observed.Err? {
        return false, log;
      }
      log := [UserRead(observed.value)];
      for i := 0 to |FIELDS|
        invariant forall f | f in FIELDS[..i] && f in requested ::
          f in observed.value.profile && observed.value.profile[f] == Some(requested[f])
      {
        var f := FIELDS[i];
        if f in requested && !(f in observed.value.profile && observed.value.profile[f] == Some(requested[f])) {
          return false, log;
        }
      }
      assert FIELDS[..|FIELDS|] == FIELDS;
      forall f: Field ensures f in FIELDS { AllFields(f); }
      return true, log;
    }

    /** The gate and, if it opens, the second round of checks. */
    method CheckAgain(p: Params, w: World, ready: Ready)
      returns (r: Result<Checked, Exit>, ghost log: seq<Event>, ghost again: Mode)
      requires Wired() && |w.rolesAgain| == 4 && ready.contract == w.contract
      modifies trace
      ensures trace.events == old(trace.events) + log
      ensures
        var gate := GateOf(settings, broker.trustedKey, broker.approvals, ready.plan, ready.mode, w.validatedAt);
        && r.Ok? == (gate.Ok? && StillCurrent(settings, p, w, ready.plan, ready.snapshot))
        && (r.Ok? ==> r.value == Checked(ready, gate.value) && log == Round(settings.policy, w.contract, again, ready.snapshot))
        && (r.Err? ==> OnlyChecks(log))
        && (r.Err? ==> r.error == if gate.Err? then gate.error else RevalidateExit(settings, p, w, ready.plan))
    {
      log, again := [], StandingPolicy;
      var gate := AuthorizationGate(ready.plan, ready.mode, w.validatedAt);
      if gate.Err? {
        return Err(gate.error), log, again;
      }
      var current;
      current, again, log := Revalidate(p, w, ready);
      r := if current.Err? then Err(current.error) else Ok(Checked(ready, gate.value));
    }

    /** Preflight, gate and revalidation. */
    method Check(p: Params, w: World, alive: nat) returns (r: Result<Checked, Exit>, ghost log: seq<Event>, ghost again: Mode)
      requires Wired() && |w.roles| == 4 && |w.rolesAgain| == 4
      modifies broker`requests, trace
      ensures trace.events == old(trace.events) + log
      ensures
        if r.Ok? then log == Rounds(settings.policy, w.contract, r.value.ready.mode, again, r.value.ready.snapshot)
        else OnlyChecks(log)
      ensures ChecksAs(settings, p, w, old(broker.requests), broker.approvals, broker.trustedKey, alive, r)
    {
      log, again := [], StandingPolicy;
      if alive == 0 {
        return Err(Died), log, again;
      }
      var preflight;
      preflight, log := Preflight(p, w);
      if preflight.Err? {
        return Err(preflight.error), log, again;
      }
      if alive == 1 {
        return Err(Died), log, again;
      }
      ghost var more;
      r, more, again := CheckAgain(p, w, preflight.value);
      Regroup(old(trace.events), log, more);
      log := log + more;
    }

    /** Stores the capsule and burns the approval of a call whose two rounds of checks passed. */
    method StoreAndBurn(w: World, checked: Checked, alive: nat, ghost again: Mode)
      returns (stop: Option<Exit>, ghost log: seq<Event>)
      requires Wired() && alive > 1
      requires Gated(settings.policy, w.contract, checked.ready.mode, checked.ready.snapshot, checked.ready.requested, checked.grant)
      modifies broker.ledger`consumed, recovery`capsules, trace
      ensures stop == StopOf(settings, w, checked.grant, broker.ledger.owner, old(broker.ledger.consumed), alive)
      ensures
        var whole := Rounds(settings.policy, w.contract, checked.ready.mode, again, checked.ready.snapshot) + log;
        && trace.events == old(trace.events) + log
        && Unsent(whole) && (stop.None? ==> Ready7(whole, checked.ready.requested))
        && (forall i | 0 <= i < |whole| && whole[i].Consumed? :: checked.ready.mode == ExplicitPlan)
        && BurnsOnly(whole, old(broker.ledger.consumed), broker.ledger.consumed)
    {
      var ready, grant := checked.ready, checked.grant;
      ghost var burnt := alive > 2 && Burnable(settings, grant, broker.ledger.owner, broker.ledger.consumed);
      ClearedLog(settings.policy, w.contract, ready.mode, again, ready.snapshot, ready.requested, grant, w.capsuleStored, burnt);
      log := StoredAndBurnt(ready.snapshot, ready.requested, grant, w.capsuleStored, burnt);
      var stored := recovery.Store(ready.snapshot.userId, ready.snapshot.profile, ready.requested, w.capsuleStored);
      if !stored {
        return Some(OtherError), log;
      }
      if alive == 2 {
        return Some(Died), log;
      }
      if grant.Some? {
        var refusal := broker.Consume(grant.value);
        if refusal.Some? {
          return Some(ReplayRejected), log;
        }
      }
      return if alive == 3 then Some(Died) else None, log;
    }

    /** Everything before the PATCH; ends early with an exit, or with a cleared plan. */
    method Clear(p: Params, w: World, alive: nat) returns (r: Result<Ready, Exit>, ghost log: seq<Event>)
      requires Wired() && |w.roles| == 4 && |w.rolesAgain| == 4
      modifies broker`requests, broker.ledger`consumed, recovery`capsules, trace
      ensures trace.events == old(trace.events) + log
      ensures r.Ok? == (alive > 3 && Clears(settings, p, w, old(broker.requests), broker.approvals,
                                            broker.trustedKey, broker.ledger.owner, old(broker.ledger.consumed)))
      ensures r.Err? || Ready7(log, RequestedOf(p))
      ensures r.Ok? ==> r.value.requested == RequestedOf(p)
      ensures r.Ok? || Unsent(log)
      ensures r.Ok? ==> log[0] == Authorized(settings.policy, w.contract, FirstAuthorization(settings, p, w).value)
                        && log[1].snapshot.userId == p.userId
      ensures (forall i | 0 <= i < |log| && log[i].Consumed? :: FirstAuthorization(settings, p, w) == Ok(ExplicitPlan))
      ensures r.Err? ==> r.error == ClearExit(settings, p, w, old(broker.requests), broker.approvals,
                                              broker.trustedKey, broker.ledger.owner, old(broker.ledger.consumed), alive)
      ensures BurnsOnly(log, old(broker.ledger.consumed), broker.ledger.consumed)
    {
      var checked;
      ghost var again;
      checked, log, again := Check(p, w, alive);
      StopDecides(settings, p, w, old(broker.requests), broker.approvals, broker.trustedKey,
                  broker.ledger.owner, broker.ledger.consumed, alive, checked);
      if checked.Err? {
        return Err(checked.error), log;
      }
      var stop;
      ghost var more;
      stop, more := StoreAndBurn(w, checked.value, alive, again);
      Regroup(old(trace.events), log, more);
      log := log + more;
      r := if stop.Some? then Err(stop.value) else Ok(checked.value.ready);
    }

    /** The PATCH and the read that verifies it. */
    method SendAndVerify(p: Params, w: World, requested: map<Field, string>, net: G.Network, ghost hidden: nat -> bool,
                         alive: nat)
      returns (exit: Exit, ghost e: G.Exchange, ghost after: seq<Event>)
      requires Wired() && alive > 3 && requested == RequestedOf(p)
      modifies graph, trace
      ensures e == G.Conversation(graph.config, G.Write, Seen(net, graph.config, alive))
      ensures trace.events == old(trace.events) + G.Sends(Fields(p.userId, requested), net.script, hidden, e.sent) + after
      ensures OnlyChecks(after)
      ensures exit == SentExit(e.reply, Confirmed(p, w.userAfter), alive)
    {
      after := [];
      var seen := Seen(net, graph.config, alive);
      var reply;
      reply, e := graph.RequestJson(true, Fields(p.userId, requested), seen, hidden);
      if alive == 4 {
        return Died, e, after;
      }
      G.SurvivorsSeeTheEnd(graph.config, G.Write, seen);
      if reply.GraphError? {
        return if reply.mayHaveCommitted then Uncertain(false) else RejectedBeforeEffect, e, after;
      }
      if reply.AuthenticationError? || reply.DecodingError? {
        return OtherError, e, after;
      }
      if alive == 5 {
        return Died, e, after;
      }
      var confirmed;
      confirmed, after := Verify(p, requested, w.userAfter);
      exit := if confirmed then ExecutedVerified else Uncertain(true);
    }

    /**
     One call of the operation. `net` is what the PATCH meets, `hidden` decides what the
     server does when its answer is lost, and the process dies once it has survived `alive`
     of its durable or external steps; within the PATCH, as `net` says.
     */
    method Execute(p: Params, w: World, net: G.Network, ghost hidden: nat -> bool, alive: nat)
      returns (exit: Exit, ghost call: seq<Event>, ghost e: G.Exchange)
      requires Valid() && |w.roles| == 4 && |w.rolesAgain| == 4
      modifies this`calls, broker`requests, broker.ledger`consumed, recovery`capsules, graph, trace
      ensures Valid() && calls == old(calls) + [call]
      // What the parts have recorded during the call, and that it was lawful.
      ensures trace.events == old(trace.events) + call && Lawful(call)
      // The signed policy, or else the contract, decides whether an approval stands before it.
      ensures FollowsMode(settings.policy, w.contract, call)
      ensures e == G.Conversation(graph.config, G.Write, Seen(net, graph.config, alive))
      // The requests that left are those of one PATCH, exactly when everything before it passed.
      ensures RequestsIn(call) ==
        if Cleared(p, w, alive, old(broker.requests), broker.approvals, old(broker.ledger.consumed))
        then G.Sends(Fields(p.userId, RequestedOf(p)), net.script, hidden, e.sent) else []
      // How it ends, in every case.
      ensures exit ==
        if Cleared(p, w, alive, old(broker.requests), broker.approvals, old(broker.ledger.consumed))
        then SentExit(e.reply, Confirmed(p, w.userAfter), alive)
        else ClearExit(settings, p, w, old(broker.requests), broker.approvals, broker.trustedKey,
                       broker.ledger.owner, old(broker.ledger.consumed), alive)
      // Success is claimed exactly after an accepted PATCH, bodyless or not, that the reading confirms.
      ensures exit == ExecutedVerified <==>
        && Cleared(p, w, alive, old(broker.requests), broker.approvals, old(broker.ledger.consumed))
        && alive > 5 && Welcomed(graph.config, Seen(net, graph.config, alive)) && Confirmed(p, w.userAfter)
      // Success means one commit.
      ensures exit == ExecutedVerified ==> Committed(call) == 1
      // Every other exit without an uncertain record means no commit, unless the decoder failed on the answer.
      ensures !exit.ExecutedVerified? && !exit.Uncertain? && !exit.Died? ==>
        (Committed(call) == 0 <==>
         !(Cleared(p, w, alive, old(broker.requests), broker.approvals, old(broker.ledger.consumed)) && e.reply.DecodingError?))
    {
      e := G.Conversation(graph.config, G.Write, Seen(net, graph.config, alive));
      var cleared;
      ghost var before;
      cleared, before := Clear(p, w, alive);
      if cleared.Err? {
        exit, call := cleared.error, before;
        UnsentIsLawful(call);
        UnsentFollowsMode(settings, p, w, call);
      } else {
        ghost var after;
        exit, e, after := SendAndVerify(p, w, cleared.value.requested, net, hidden, alive);
        ghost var sends := G.Sends(Fields(p.userId, RequestedOf(p)), net.script, hidden, e.sent);
        call := before + sends + after;
        SentTells(settings, p, w, graph.config, net, hidden, alive, before, after);
        Regroup(old(trace.events), before, sends);
        Regroup(old(trace.events), before + sends, after);
      }
      HistoryGrows(old(calls), old(broker.ledger.consumed), call, broker.ledger.consumed);
      JoinedGrows(old(calls), call);
      calls := calls + [call];
    }

    /** The call lives to send its PATCH, and everything before it passes. */
    predicate Cleared(p: Params, w: World, alive: nat, requests: Requests, approvals: Approvals, consumed: map<nat, Binding>)
      requires settings.Complete()
    {
      alive > 3 && Clears(settings, p, w, requests, approvals, broker.trustedKey, broker.ledger.owner, consumed)
    }
  }
}
