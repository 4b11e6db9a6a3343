/**
 What the parts of one deployment do to the world, in the order they do it. Whoever causes
 an effect, or passes a check that a later effect relies on, appends the event itself.
 */
module Effects {
  import opened Authorization
  import opened Common
  import opened Plans
  import opened UserProfile

  /** What a write sends, and where: the fields of one user, or one file, which is opaque. */
  datatype Payload = Fields(user: nat, values: map<Field, string>) | File(content: nat)

  datatype Event =
    | Authorized(policy: Policy, contract: Contract, mode: Mode)
    | UserRead(snapshot: Snapshot)
    | RolesClear(user: nat)
    | CapsuleStored(user: nat, previous: map<Field, Option<string>>, requested: map<Field, string>)
    | Consumed(grant: Grant)
    | Sent(payload: Payload, committed: bool)      // one request of a write, and whether the server committed it

  /** How many of the requests sent were committed. */
  function Committed(events: seq<Event>): nat {
    if events == [] then 0
    else
      var last := events[|events| - 1];
      Committed(events[..|events| - 1]) + if last.Sent? && last.committed then 1 else 0
  }

  class Trace {
    ghost var events: seq<Event>

    constructor ()
      ensures events == []
    {
      events := [];
    }

    ghost method Add(e: Event)
      modifies this
      ensures events == old(events) + [e]
    {
      events := events + [e];
    }
  }
}
