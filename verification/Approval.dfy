/**
 External approval of exact change plans: the broker's request and approval files, the
 signer's lifetime rule and the ledger of consumed approvals.

 Digests are injective and stand for what they digest; a signature verifies exactly when it
 was made with the trusted key over the same grant. Times are in microseconds.
 */
module Approval {
  import opened Common
  import opened Effects
  import opened Plans

  datatype Request = Request(plan: Binding, planDigest: Binding, impact: Impact, requestedAt: int) {
    predicate Valid() {
      && plan.Valid() && planDigest == plan && plan.meaning.impact == impact
      && plan.createdAt <= requestedAt <= plan.expiresAt
    }
  }

  datatype Signature = Signature(key: nat, over: Grant)

  datatype SignedGrant = SignedGrant(grant: Grant, digest: Grant, signature: Signature)

  /** A private file: absent, unreadable as its type, or a document. */
  datatype Document<+T> = Garbled | Document(content: T)

  datatype Refusal =
    | OtherDeployment | MalformedRequest | RequestOutsideLifetime
    | MalformedApproval | DigestMismatch | BadSignature | OtherPlan | OutsideLifetime
    | OtherDigestExpected | PlanExpired | BadTtl | EmptyLifetime | InvalidGrant
    | AlreadyConsumed

  // ---------------------------------------------------------------------------------
  // Building and preparing a plan
  // ---------------------------------------------------------------------------------

  /** The plan `build_plan` makes before the broker sees it. */
  function Built(meaning: Meaning, explicit: bool, now: int, ttl: nat): Plan {
    Plan(meaning.planId, now, now + ttl, meaning.impact,
         if explicit then Some(Binding(meaning, now, now + ttl)) else None)
  }

  type Requests = map<PlanId, Document<Request>>

  /** The stored request a call reuses, if there is one with the same meaning that has not expired. */
  function Reusable(requests: Requests, plan: Plan, now: int): Option<Binding>
    requires plan.binding.Some?
  {
    if plan.planId in requests && requests[plan.planId].Document?
      && requests[plan.planId].content.Valid()
      && requests[plan.planId].content.plan.meaning == plan.binding.value.meaning
      && now < requests[plan.planId].content.plan.expiresAt
    then Some(requests[plan.planId].content.plan)
    else None
  }

  /** What `prepare` returns and the request files it leaves. */
  function Prepared(namespace: nat, requests: Requests, plan: Plan, now: int, requestedAt: int)
    : (Result<Plan, Refusal>, Requests)
  {
    if plan.binding.None? then (Ok(plan), requests)
    else if plan.binding.value.meaning.namespace != namespace then (Err(OtherDeployment), requests)
    else if plan.planId in requests && (requests[plan.planId].Garbled? || !requests[plan.planId].content.Valid()) then
      (Err(MalformedRequest), requests)
    else if Reusable(requests, plan, now).Some? then
      var binding := Reusable(requests, plan, now).value;
      (Ok(plan.(createdAt := binding.createdAt, expiresAt := binding.expiresAt, binding := Some(binding))), requests)
    else
      var request := Request(plan.binding.value, plan.binding.value, plan.impact, requestedAt);
      if !request.Valid() then (Err(RequestOutsideLifetime), requests)
      else (Ok(plan), requests[plan.planId := Document(request)])
  }

  // ---------------------------------------------------------------------------------
  // Signing
  // ---------------------------------------------------------------------------------

  const SECOND: int := 1_000_000

  /** The grant the host signs for a stored request. */
  function Signed(request: Document<Request>, expected: Binding, now: int, ttlSeconds: int, id: nat, key: nat)
    : (r: Result<SignedGrant, Refusal>)
  {
    if request.Garbled? || !request.content.Valid() then Err(MalformedRequest)
    else
      var plan := request.content.plan;
      if expected != request.content.planDigest then Err(OtherDigestExpected)
      else if plan.expiresAt <= now then Err(PlanExpired)
      else if ttlSeconds < 15 || ttlSeconds > 300 then Err(BadTtl)
      else
        var end := now + ttlSeconds * SECOND;
        var expiresAt := if end < plan.expiresAt then end else plan.expiresAt;
        if expiresAt <= now then Err(EmptyLifetime)
        else
          var grant := Grant(id, plan, request.content.planDigest, now, expiresAt);
          if !grant.Valid() then Err(InvalidGrant)
          else Ok(SignedGrant(grant, grant, Signature(key, grant)))
  }

  // ---------------------------------------------------------------------------------
  // Validating
  // ---------------------------------------------------------------------------------

  type Approvals = map<PlanId, Document<SignedGrant>>

  /** The grant a plan may consume now; `Ok(None)` while the host has not acted. */
  function Validated(namespace: nat, key: nat, approvals: Approvals, plan: Plan, now: int)
    : (r: Result<Option<Grant>, Refusal>)
  {
    if plan.binding.None? then Ok(None)
    else if plan.binding.value.meaning.namespace != namespace then Err(OtherDeployment)
    else if plan.planId !in approvals then Ok(None)
    else if approvals[plan.planId].Garbled? || !approvals[plan.planId].content.grant.Valid() then Err(MalformedApproval)
    else
      var bundle := approvals[plan.planId].content;
      if bundle.digest != bundle.grant then Err(DigestMismatch)
      else if bundle.signature != Signature(key, bundle.grant) then Err(BadSignature)
      else if bundle.grant.plan != plan.binding.value then Err(OtherPlan)
      else if now < bundle.grant.issuedAt || bundle.grant.expiresAt <= now || plan.expiresAt <= now then
        Err(OutsideLifetime)
      else Ok(Some(bundle.grant))
  }

  // ---------------------------------------------------------------------------------
  // The broker and its ledger
  // ---------------------------------------------------------------------------------

  /** Which approval IDs are burnt, and for which plan. */
  class ApprovalConsumptionStore {
    const owner: nat          // the deployment the ledger belongs to
    const trace: Trace
    var consumed: map<nat, Binding>

    constructor (owner: nat, trace: Trace)
      ensures this.owner == owner && this.trace == trace && consumed == map[]
    {
      this.owner, this.trace := owner, trace;
      consumed := map[];
    }

    /** One transaction: either the approval is burnt now, which is an event, or nothing changes. */
    method Consume(namespace: nat, grant: Grant) returns (refusal: Option<Refusal>)
      modifies this`consumed, trace
      ensures (refusal, consumed) == Burnt(owner, old(consumed), namespace, grant)
      ensures trace.events == old(trace.events) + if refusal.None? then [Consumed(grant)] else []
    {
      if namespace != owner {
        return Some(OtherDeployment);
      }
      if grant.id in consumed {
        return Some(AlreadyConsumed);
      }
      consumed := consumed[grant.id := grant.planDigest];
      trace.Add(Consumed(grant));
      return None;
    }
  }

  function Burnt(owner: nat, consumed: map<nat, Binding>, namespace: nat, grant: Grant)
    : (Option<Refusal>, map<nat, Binding>)
  {
    if namespace != owner then (Some(OtherDeployment), consumed)
    else if grant.id in consumed then (Some(AlreadyConsumed), consumed)
    else (None, consumed[grant.id := grant.planDigest])
  }

  class ExternalApprovalBroker {
    const namespace: nat
    const trustedKey: nat
    const ledger: ApprovalConsumptionStore
    var requests: Requests
    var approvals: Approvals

    constructor (namespace: nat, trustedKey: nat, ledger: ApprovalConsumptionStore)
      ensures this.namespace == namespace && this.trustedKey == trustedKey && this.ledger == ledger
      ensures requests == map[] && approvals == map[]
    {
      this.namespace, this.trustedKey, this.ledger := namespace, trustedKey, ledger;
      requests, approvals := map[], map[];
    }

    method Prepare(plan: Plan, now: int, requestedAt: int) returns (r: Result<Plan, Refusal>)
      modifies this`requests
      ensures (r, requests) == Prepared(namespace, old(requests), plan, now, requestedAt)
    {
      if plan.binding.None? {
        return Ok(plan);
      }
      var binding := plan.binding.value;
      if binding.meaning.namespace != namespace {
        return Err(OtherDeployment);
      }
      if plan.planId in requests {
        var file := requests[plan.planId];
        if file.Garbled? || !file.content.Valid() {
          return Err(MalformedRequest);
        }
        var stored := file.content.plan;
        if stored.meaning == binding.meaning && stored.expiresAt > now {
          return Ok(plan.(createdAt := stored.createdAt, expiresAt := stored.expiresAt, binding := Some(stored)));
        }
      }
      var request := Request(binding, binding, plan.impact, requestedAt);
      if !request.Valid() {
        return Err(RequestOutsideLifetime);
      }
      requests := requests[plan.planId := Document(request)];
      return Ok(plan);
    }

    method Validate(plan: Plan, now: int) returns (r: Result<Option<Grant>, Refusal>)
      ensures r == Validated(namespace, trustedKey, approvals, plan, now)
    {
      if plan.binding.None? {
        return Ok(None);
      }
      if plan.binding.value.meaning.namespace != namespace {
        return Err(OtherDeployment);
      }
      if plan.planId !in approvals {
        return Ok(None);
      }
      var file := approvals[plan.planId];
      if file.Garbled? || !file.content.grant.Valid() {
        return Err(MalformedApproval);
      }
      var bundle := file.content;
      if bundle.digest != bundle.grant {
        return Err(DigestMismatch);
      }
      if bundle.signature.key != trustedKey || bundle.signature.over != bundle.grant {
        return Err(BadSignature);
      }
      if bundle.grant.plan != plan.binding.value {
        return Err(OtherPlan);
      }
      if bundle.grant.issuedAt > now || bundle.grant.expiresAt <= now || plan.expiresAt <= now {
        return Err(OutsideLifetime);
      }
      return Ok(Some(bundle.grant));
    }

    /** Burns an approval before the effect, so that a crash cannot replay it. */
    method Consume(grant: Grant) returns (refusal: Option<Refusal>)
      modifies ledger`consumed, ledger.trace
      ensures (refusal, ledger.consumed) == Burnt(ledger.owner, old(ledger.consumed), namespace, grant)
      ensures ledger.trace.events == old(ledger.trace.events) + if refusal.None? then [Consumed(grant)] else []
    {
      refusal := ledger.Consume(namespace, grant);
    }
  }

  // ---------------------------------------------------------------------------------
  // Preparing again
  // ---------------------------------------------------------------------------------

  datatype Attempt = Attempt(plan: Plan, now: int, requestedAt: int)

  /** The request files after a list of `prepare` calls. */
  function PreparedAll(namespace: nat, requests: Requests, attempts: seq<Attempt>): Requests
    decreases |attempts|
  {
    if attempts == [] then requests
    else
      var last := attempts[|attempts| - 1];
      Prepared(namespace, PreparedAll(namespace, requests, attempts[..|attempts| - 1]), last.plan, last.now, last.requestedAt).1
  }

  /** An attempt that does not replace the request stored for `binding`'s plan. */
  predicate Keeps(attempt: Attempt, binding: Binding) {
    attempt.plan.planId == binding.meaning.planId && attempt.plan.binding.Some? ==>
      attempt.plan.binding.value.meaning == binding.meaning && attempt.now < binding.expiresAt
  }

  predicate Holds(requests: Requests, binding: Binding) {
    && binding.meaning.planId in requests
    && requests[binding.meaning.planId].Document?
    && requests[binding.meaning.planId].content.Valid()
    && requests[binding.meaning.planId].content.plan == binding
  }

  /** The stored request means the same as the plan and has not expired. */
  ghost predicate IsLive(stored: Request, requests: Requests, plan: Plan, now: int) {
    && plan.planId in requests && requests[plan.planId] == Document(stored) && stored.Valid()
    && plan.binding.Some? && stored.plan.meaning == plan.binding.value.meaning && now < stored.plan.expiresAt
  }

  /** There is no request file, or it holds a valid request. */
  ghost predicate Readable(requests: Requests, id: PlanId) {
    id !in requests || exists request: Request :: request.Valid() && requests[id] == Document(request)
  }

  /**
   Every answer of `prepare`: when it succeeds, what becomes of the plan and of the files
   when a live request is found and when there is none or one that is expired or different,
   and which refusal means what.
   */
  lemma PrepareExactly(namespace: nat, requests: Requests, plan: Plan, now: int, requestedAt: int, stored: Request)
    requires plan.binding.Some?
    ensures
      var binding := plan.binding.value;
      var (r, after) := Prepared(namespace, requests, plan, now, requestedAt);
      && (r == Err(OtherDeployment) <==> binding.meaning.namespace != namespace)
      && (r == Err(MalformedRequest) <==> binding.meaning.namespace == namespace && !Readable(requests, plan.planId))
      && (r.Err? ==> after == requests && r.error in {OtherDeployment, MalformedRequest, RequestOutsideLifetime})
      && (IsLive(stored, requests, plan, now) && binding.meaning.namespace == namespace ==>
          && after == requests
          && r == Ok(Plan(plan.planId, stored.plan.createdAt, stored.plan.expiresAt, plan.impact, Some(stored.plan))))
      && (binding.meaning.namespace == namespace && Readable(requests, plan.planId)
          && (forall other :: !IsLive(other, requests, plan, now)) ==>
          if binding.createdAt < binding.expiresAt && binding.meaning.impact == plan.impact
             && binding.createdAt <= requestedAt <= binding.expiresAt
          then r == Ok(plan) && after == requests[plan.planId := Document(Request(binding, binding, plan.impact, requestedAt))]
          else r == Err(RequestOutsideLifetime))
  {
    if plan.planId in requests && requests[plan.planId].Document? {
      var found := requests[plan.planId].content;
      assert IsLive(found, requests, plan, now) || Reusable(requests, plan, now).None? || !found.Valid();
    }
  }

  lemma PrepareHolds(namespace: nat, requests: Requests, plan: Plan, now: int, requestedAt: int)
    requires plan.binding.Some? && plan.planId == plan.binding.value.meaning.planId
    requires Prepared(namespace, requests, plan, now, requestedAt).0.Ok?
    ensures
      var (r, after) := Prepared(namespace, requests, plan, now, requestedAt);
      && r.value.binding.Some? && r.value.binding.value.meaning == plan.binding.value.meaning
      && Holds(after, r.value.binding.value)
      && (forall id | id != plan.planId :: (id in after <==> id in requests) && (id in after ==> after[id] == requests[id]))
  {
  }

  lemma {:induction false} RequestIsKept(namespace: nat, requests: Requests, attempts: seq<Attempt>, binding: Binding)
    requires Holds(requests, binding)
    requires forall i | 0 <= i < |attempts| :: Keeps(attempts[i], binding)
    ensures Holds(PreparedAll(namespace, requests, attempts), binding)
    decreases |attempts|
  {
    if attempts != [] {
      RequestIsKept(namespace, requests, attempts[..|attempts| - 1], binding);
      assert Keeps(attempts[|attempts| - 1], binding);
    }
  }

  /**
   Calls with the same key and the same meaning get the identical binding until it
   expires, whatever other plans are prepared in between: its lifetime is never extended.
   */
  lemma RepeatedPrepareKeepsBinding(namespace: nat, requests: Requests, first: Plan, now: int, requestedAt: int,
                                    between: seq<Attempt>, again: Plan, later: int, requestedAgain: int)
    requires first.binding.Some? && again.binding.Some?
    requires first.planId == first.binding.value.meaning.planId == again.planId
    requires again.binding.value.meaning == first.binding.value.meaning
    requires Prepared(namespace, requests, first, now, requestedAt).0.Ok?
    requires
      var binding := Prepared(namespace, requests, first, now, requestedAt).0.value.binding.value;
      later < binding.expiresAt && forall i | 0 <= i < |between| :: Keeps(between[i], binding)
    ensures
      var (r, after) := Prepared(namespace, requests, first, now, requestedAt);
      var (r', _) := Prepared(namespace, PreparedAll(namespace, after, between), again, later, requestedAgain);
      r'.Ok? && r'.value.binding == r.value.binding
      && r'.value.createdAt == r.value.binding.value.createdAt
      && r'.value.expiresAt == r.value.binding.value.expiresAt
  {
    PrepareHolds(namespace, requests, first, now, requestedAt);
    var (r, after) := Prepared(namespace, requests, first, now, requestedAt);
    RequestIsKept(namespace, after, between, r.value.binding.value);
  }

  // ---------------------------------------------------------------------------------
  // From request to grant to validation
  // ---------------------------------------------------------------------------------

  /** A signed grant lies inside the plan's lifetime and lasts at most its TTL. */
  lemma SignedLifetime(request: Document<Request>, expected: Binding, now: int, ttlSeconds: int, id: nat, key: nat)
    requires Signed(request, expected, now, ttlSeconds, id, key).Ok?
    ensures
      var grant := Signed(request, expected, now, ttlSeconds, id, key).value.grant;
      && grant.plan == expected == request.content.plan
      && grant.plan.createdAt <= grant.issuedAt == now < grant.expiresAt <= grant.plan.expiresAt
      && grant.expiresAt - grant.issuedAt <= ttlSeconds * 1_000_000 <= 300 * 1_000_000
      && (grant.expiresAt - grant.issuedAt < ttlSeconds * 1_000_000 ==> grant.expiresAt == grant.plan.expiresAt)
  {
  }

  /** Exactly when the host can sign: a valid request, reviewed as is, while the plan lives. */
  lemma SigningSucceedsExactly(request: Document<Request>, expected: Binding, now: int, ttlSeconds: int, id: nat, key: nat)
    ensures Signed(request, expected, now, ttlSeconds, id, key).Ok? <==>
      && request.Document? && request.content.Valid() && expected == request.content.plan
      && request.content.plan.createdAt <= now < request.content.plan.expiresAt
      && 15 <= ttlSeconds <= 300
  {
  }

  /** Which refusal means what, first check first; and all that a signed bundle holds. */
  lemma SigningTells(request: Document<Request>, expected: Binding, now: int, ttlSeconds: int, id: nat, key: nat)
    ensures
      var r := Signed(request, expected, now, ttlSeconds, id, key);
      var readable := request.Document? && request.content.Valid();
      && (r == Err(MalformedRequest) <==> !readable)
      && (r == Err(OtherDigestExpected) <==> readable && expected != request.content.plan)
      && (r == Err(PlanExpired) <==> readable && expected == request.content.plan && expected.expiresAt <= now)
      && (r == Err(BadTtl) <==>
          readable && expected == request.content.plan && now < expected.expiresAt && !(15 <= ttlSeconds <= 300))
      && (r == Err(InvalidGrant) <==>
          readable && expected == request.content.plan && now < expected.createdAt && 15 <= ttlSeconds <= 300)
      && (r.Err? ==> r.error in {MalformedRequest, OtherDigestExpected, PlanExpired, BadTtl, InvalidGrant})
      && (r.Ok? ==> r.value == SignedGrant(r.value.grant, r.value.grant, Signature(key, r.value.grant))
                    && r.value.grant.id == id && r.value.grant.planDigest == expected)
  {
    SigningSucceedsExactly(request, expected, now, ttlSeconds, id, key);
  }

  /** The plan `prepare` returned for a binding. */
  predicate Carries(plan: Plan, binding: Binding) {
    && plan.binding == Some(binding) && plan.planId == binding.meaning.planId
    && plan.expiresAt == binding.expiresAt
  }

  /**
   The round trip: a grant signed for a plan's request, filed under the plan's ID,
   validates for that plan exactly while it is current.
   */
  lemma SignedGrantValidatesExactly(namespace: nat, key: nat, approvals: Approvals, plan: Plan,
                                    request: Document<Request>, signedAt: int, ttlSeconds: int, id: nat, now: int)
    requires request.Document? && Carries(plan, request.content.plan)
    requires request.content.plan.meaning.namespace == namespace
    requires Signed(request, request.content.plan, signedAt, ttlSeconds, id, key).Ok?
    requires
      var bundle := Signed(request, request.content.plan, signedAt, ttlSeconds, id, key).value;
      plan.planId in approvals && approvals[plan.planId] == Document(bundle)
    ensures
      var grant := Signed(request, request.content.plan, signedAt, ttlSeconds, id, key).value.grant;
      Validated(namespace, key, approvals, plan, now) ==
        if grant.issuedAt <= now < grant.expiresAt then Ok(Some(grant)) else Err(OutsideLifetime)
  {
    SignedLifetime(request, request.content.plan, signedAt, ttlSeconds, id, key);
  }

  /** What a later call gets while the request of `binding` is stored: the same binding, or one with other contents. */
  lemma AskingAgain(namespace: nat, requests: Requests, binding: Binding, again: Meaning, later: int, ttl: nat, requestedAt: int)
    requires Holds(requests, binding) && again.planId == binding.meaning.planId && binding.meaning.namespace == namespace
    ensures
      var r := Prepared(namespace, requests, Built(again, true, later, ttl), later, requestedAt).0;
      if again == binding.meaning && later < binding.expiresAt then
        r.Ok? && Carries(r.value, binding)
      else
        r.Ok? ==> r.value.binding.Some? && r.value.binding != Some(binding)
  {
  }

  /**
   The whole way of an approval: a call prepares its plan, the host signs the request as it
   is stored, other plans come and go, and a later call with the same key asks again. Its
   plan validates with that grant exactly if the call means the same, comes before the
   first plan expires, and validates within the grant's lifetime.
   */
  lemma ApprovedPlanValidatesExactly(namespace: nat, requests: Requests, meaning: Meaning, now: int, ttl: nat, requestedAt: int,
                                     between: seq<Attempt>, signedAt: int, ttlSeconds: int, id: nat, key: nat,
                                     approvals: Approvals, again: Meaning, later: int, laterTtl: nat, requestedAgain: int,
                                     at: int)
    requires again.planId == meaning.planId
    requires Prepared(namespace, requests, Built(meaning, true, now, ttl), now, requestedAt).0.Ok?
    requires
      var (r, after) := Prepared(namespace, requests, Built(meaning, true, now, ttl), now, requestedAt);
      var binding := r.value.binding.value;
      && (forall i | 0 <= i < |between| :: Keeps(between[i], binding))
      && meaning.planId in after && Signed(after[meaning.planId], binding, signedAt, ttlSeconds, id, key).Ok?
      && meaning.planId in approvals
      && approvals[meaning.planId] == Document(Signed(after[meaning.planId], binding, signedAt, ttlSeconds, id, key).value)
    ensures
      var (r, after) := Prepared(namespace, requests, Built(meaning, true, now, ttl), now, requestedAt);
      var binding := r.value.binding.value;
      var grant := Signed(after[meaning.planId], binding, signedAt, ttlSeconds, id, key).value.grant;
      var r' := Prepared(namespace, PreparedAll(namespace, after, between), Built(again, true, later, laterTtl),
                         later, requestedAgain).0;
      (r'.Ok? && Validated(namespace, key, approvals, r'.value, at) == Ok(Some(grant))) <==>
        (again == meaning && later < binding.expiresAt && grant.issuedAt <= at < grant.expiresAt)
  {
    var first, second := Built(meaning, true, now, ttl), Built(again, true, later, laterTtl);
    var (r, after) := Prepared(namespace, requests, first, now, requestedAt);
    var binding := r.value.binding.value;
    PrepareHolds(namespace, requests, first, now, requestedAt);
    RequestIsKept(namespace, after, between, binding);
    SignedLifetime(after[meaning.planId], binding, signedAt, ttlSeconds, id, key);
    AskingAgain(namespace, PreparedAll(namespace, after, between), binding, again, later, laterTtl, requestedAgain);
  }

  /** Whatever validates was signed with the trusted key for this exact plan and is current. */
  lemma ValidationIsExact(namespace: nat, key: nat, approvals: Approvals, plan: Plan, now: int)
    ensures
      var r := Validated(namespace, key, approvals, plan, now);
      r.Ok? && r.value.Some? ==>
        var grant := r.value.value;
        && plan.binding == Some(grant.plan) && grant.Valid()
        && approvals[plan.planId] == Document(SignedGrant(grant, grant, Signature(key, grant)))
        && grant.issuedAt <= now < grant.expiresAt <= grant.plan.expiresAt
  {
  }

  /** Every answer of `validate`: pending, the grant, and which refusal means what, first check first. */
  lemma ValidationTells(namespace: nat, key: nat, approvals: Approvals, plan: Plan, now: int, bundle: SignedGrant)
    ensures
      var r := Validated(namespace, key, approvals, plan, now);
      var here := plan.binding.Some? && plan.binding.value.meaning.namespace == namespace;
      && (r == Ok(None) <==> plan.binding.None? || (here && plan.planId !in approvals))
      && (r == Err(OtherDeployment) <==> plan.binding.Some? && plan.binding.value.meaning.namespace != namespace)
      && (here && plan.planId in approvals && approvals[plan.planId] == Garbled ==> r == Err(MalformedApproval))
      && (here && plan.planId in approvals && approvals[plan.planId] == Document(bundle) ==>
          var grant, valid := bundle.grant, bundle.grant.Valid();
          var signed := valid && bundle == SignedGrant(grant, grant, Signature(key, grant));
          && (r == Err(MalformedApproval) <==> !valid)
          && (r == Err(DigestMismatch) <==> valid && bundle.digest != grant)
          && (r == Err(BadSignature) <==> valid && bundle.digest == grant && !signed)
          && (r == Err(OtherPlan) <==> signed && Some(grant.plan) != plan.binding)
          && (r.Ok? <==>
              signed && Some(grant.plan) == plan.binding && grant.issuedAt <= now < grant.expiresAt && now < plan.expiresAt)
          && (r.Err? ==> r.error in {MalformedApproval, DigestMismatch, BadSignature, OtherPlan, OutsideLifetime})
          && (r.Ok? ==> r.value == Some(grant)))
  {
  }

  // ---------------------------------------------------------------------------------
  // The ledger over many calls
  // ---------------------------------------------------------------------------------

  /** One attempt: which refusal means what, and that only a success writes, and only its own entry. */
  lemma BurningTells(owner: nat, consumed: map<nat, Binding>, namespace: nat, grant: Grant)
    ensures
      var (refusal, after) := Burnt(owner, consumed, namespace, grant);
      && (refusal == Some(OtherDeployment) <==> namespace != owner)
      && (refusal == Some(AlreadyConsumed) <==> namespace == owner && grant.id in consumed)
      && (refusal.None? <==> namespace == owner && grant.id !in consumed)
      && (refusal.Some? ==> after == consumed)
      && (refusal.None? ==> after - {grant.id} == consumed && grant.id in after && after[grant.id] == grant.planDigest)
  {
    assert grant.id !in consumed ==> consumed[grant.id := grant.planDigest] - {grant.id} == consumed;
  }

  /** The ledger after trying to burn these grants in turn. */
  function BurntAll(owner: nat, grants: seq<Grant>): map<nat, Binding>
    decreases |grants|
  {
    if grants == [] then map[]
    else Burnt(owner, BurntAll(owner, grants[..|grants| - 1]), owner, grants[|grants| - 1]).1
  }

  /** Whether attempt number `i` burnt its approval. */
  predicate BurnsAt(owner: nat, grants: seq<Grant>, i: nat)
    requires i < |grants|
  {
    Burnt(owner, BurntAll(owner, grants[..i]), owner, grants[i]).0.None?
  }

  lemma {:induction false} BurntIds(owner: nat, grants: seq<Grant>)
    ensures forall id :: id in BurntAll(owner, grants) <==> exists i :: 0 <= i < |grants| && grants[i].id == id
    decreases |grants|
  {
    if grants != [] {
      var init := grants[..|grants| - 1];
      BurntIds(owner, init);
      forall id ensures id in BurntAll(owner, grants) <==> exists i :: 0 <= i < |grants| && grants[i].id == id {
        if exists i :: 0 <= i < |grants| && grants[i].id == id {
          var i :| 0 <= i < |grants| && grants[i].id == id;
          assert i < |init| ==> init[i].id == id;
        }
        if id in BurntAll(owner, init) {
          var i :| 0 <= i < |init| && init[i].id == id;
          assert grants[i].id == id;
        }
      }
    }
  }

  /** An attempt burns its approval exactly when it is the first one with that ID. */
  lemma FirstUseBurns(owner: nat, grants: seq<Grant>, i: nat)
    requires i < |grants|
    ensures BurnsAt(owner, grants, i) <==> forall j | 0 <= j < i :: grants[j].id != grants[i].id
  {
    BurntIds(owner, grants[..i]);
    assert forall j | 0 <= j < i :: grants[..i][j] == grants[j];
  }

  /** So no approval ID is ever burnt twice, whatever plan it names. */
  lemma NoApprovalBurnsTwice(owner: nat, grants: seq<Grant>, i: nat, j: nat)
    requires i < j < |grants| && BurnsAt(owner, grants, i) && BurnsAt(owner, grants, j)
    ensures grants[i].id != grants[j].id
  {
    FirstUseBurns(owner, grants, j);
  }
}
