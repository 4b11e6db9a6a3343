/** The Entra user fields the operational-profile write reads and changes. */
module UserProfile {
  import opened Common

  datatype Field = Department | JobTitle | OfficeLocation

  const FIELDS: seq<Field> := [Department, JobTitle, OfficeLocation]

  lemma AllFields(f: Field)
    ensures f in FIELDS
  {
    match f {
      case Department => assert FIELDS[0] == f;
      case JobTitle => assert FIELDS[1] == f;
      case OfficeLocation => assert FIELDS[2] == f;
    }
  }

  /** The JSON numbers that equal a boolean; their digests differ from it and from each other. */
  datatype BooleanNumber = IntOne | FloatOne | IntZero | FloatZero | FloatMinusZero

  datatype Sync = SyncOn | SyncOff | SyncUnset | SyncNumber(number: BooleanNumber)

  /** A checked reading of a user; its digest stands for all of it. */
  datatype Snapshot = Snapshot(
    userId: nat, userType: string, sync: Sync, lastSync: Option<string>, immutableId: Option<string>,
    profile: map<Field, Option<string>>)

  /** The tool's input: `values` has an entry for each supplied field. */
  datatype Params = Params(userId: nat, values: map<Field, Option<string>>, key: nat)
}
