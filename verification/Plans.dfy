/**
 Exact change plans and the grants that approve them. Digests are injective and stand for
 what they digest. Times are in microseconds.
 */
module Plans {
  import opened Authorization
  import opened Common
  import opened UserProfile

  /** What the approver is shown: the contract and the fields it may change. */
  datatype Impact = Impact(contract: Contract, fields: set<Field>)

  /** A plan ID is derived from deployment, contract and idempotency key, injectively. */
  datatype PlanId = PlanId(namespace: nat, contract: nat, key: nat)

  /** Everything in a plan binding except its two timestamps. */
  datatype Meaning = Meaning(
    planId: PlanId, contract: Contract, policy: Policy, namespace: nat, operator: nat,
    parameters: Params, precondition: Snapshot, impact: Impact, changedFields: set<Field>)

  datatype Binding = Binding(meaning: Meaning, createdAt: int, expiresAt: int) {
    /** Checked whenever a binding is built or read. */
    predicate Valid() {
      createdAt < expiresAt
    }
  }

  /** An in-process plan; only plans that need explicit approval carry a binding. */
  datatype Plan = Plan(planId: PlanId, createdAt: int, expiresAt: int, impact: Impact, binding: Option<Binding>)

  datatype Grant = Grant(id: nat, plan: Binding, planDigest: Binding, issuedAt: int, expiresAt: int) {
    predicate Valid() {
      && plan.Valid() && planDigest == plan
      && plan.createdAt <= issuedAt < expiresAt <= plan.expiresAt
    }
  }
}
