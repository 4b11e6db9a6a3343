/**
 Signed governance policies: the static check of a policy against the compiled manifests,
 and the runtime authorization of reads, playbooks and writes under it.

 Contract and playbook IDs are numbers; times are microseconds since the epoch, in UTC.
 */
module Authorization {
  import opened Common

  datatype Mode = AutomaticRead | StandingPolicy | ExplicitPlan | DualControl | BreakGlassOnly | Prohibited

  datatype Tier = T0 | T1 | T2 | T3 | T4

  datatype ProfileName = RoutineRead | RoutineWrite | PrivilegedRead | SelectedWrite | BreakGlass

  datatype Contract = Contract(id: nat, isGet: bool, tier: Tier, mode: Mode) {
    /** What the contract's own validator insists on. */
    predicate Valid() {
      && (!isGet ==> tier != T0)
      && (isGet <==> mode == AutomaticRead)
      && (tier == T4 ==> mode == Prohibited)
    }
  }

  /** Compiled contracts by their unique IDs. */
  datatype Manifest = Manifest(contracts: map<nat, Contract>) {
    ghost predicate Valid() {
      forall id | id in contracts :: contracts[id].id == id && contracts[id].Valid()
    }
  }

  /** A T0 playbook; `nodes` are the contract IDs of its nodes in order. */
  datatype Playbook = Playbook(id: nat, nodes: seq<nat>, tier: Tier, mode: Mode, writes: bool) {
    predicate Effectful() {
      tier != T0 || mode != AutomaticRead || writes
    }
  }

  datatype PlaybookManifest = PlaybookManifest(playbooks: map<nat, Playbook>)

  /** Minutes of the day; the window may wrap over midnight. */
  datatype Window = Window(start: nat, end: nat)

  datatype Profile = Profile(contracts: seq<nat>, playbooks: seq<nat>, window: Option<Window>)

  datatype Policy = Policy(
    tenant: nat, active: ProfileName, profiles: map<ProfileName, Profile>,
    users: set<nat>, protectedUsers: set<nat>, overrides: map<nat, Mode>,
    permissionBaseline: Option<seq<seq<nat>>>,      // per target, the contracts it derives scopes from
    hasCredentialBaseline: bool, hasDebtBaseline: bool,
    playbookManifest: Option<PlaybookManifest>, expiresAt: Option<int>,
    rest: nat)                                      // everything authorization does not look at
  {
    /** A policy document defines all five standard profiles. */
    predicate Complete() {
      forall name: ProfileName :: name in profiles
    }
  }

  datatype Reason =
    | TenantMismatch | PolicyExpired | ProfileMismatch | OutOfContract | Downgrade | DeniedByPolicy
    | WindowClosed | FenceMismatch | ProtectedResource | BaselineMissing
    | UnknownContract | UnknownPlaybook | PlaybookManifestRequired | PlaybookManifestChanged

  // ---------------------------------------------------------------------------------
  // Strength
  // ---------------------------------------------------------------------------------

  function Strength(mode: Mode): nat {
    match mode
    case AutomaticRead => 0
    case StandingPolicy => 1
    case ExplicitPlan => 2
    case DualControl => 3
    case BreakGlassOnly => 4
    case Prohibited => 5
  }

  predicate AtLeast(candidate: Mode, minimum: Mode) {
    Strength(candidate) >= Strength(minimum)
  }

  /** The mode a contract runs under. */
  function Effective(policy: Policy, contract: Contract): Mode {
    if contract.id in policy.overrides then policy.overrides[contract.id] else contract.mode
  }

  predicate ReadProfile(name: ProfileName) {
    name == RoutineRead || name == PrivilegedRead
  }

  // ---------------------------------------------------------------------------------
  // Runtime
  // ---------------------------------------------------------------------------------

  predicate Expired(policy: Policy, now: int) {
    policy.expiresAt.Some? && policy.expiresAt.value <= now
  }

  function AuthorizeRead(policy: Policy, contract: Contract, tenant: nat, now: int): (refusal: Option<Reason>)
    requires policy.Complete()
  {
    if policy.tenant != tenant then Some(TenantMismatch)
    else if Expired(policy, now) then Some(PolicyExpired)
    else if !ReadProfile(policy.active) then Some(ProfileMismatch)
    else if contract.id !in policy.profiles[policy.active].contracts then Some(OutOfContract)
    else if !contract.isGet then Some(ProfileMismatch)
    else if !AtLeast(Effective(policy, contract), contract.mode) then Some(Downgrade)
    else if Effective(policy, contract) != AutomaticRead then Some(DeniedByPolicy)
    else None
  }

  /** Authorizes the nodes of a playbook one after the other. */
  function AuthorizeNodes(policy: Policy, manifest: Manifest, nodes: seq<nat>, tenant: nat, now: int): (refusal: Option<Reason>)
    requires policy.Complete()
    decreases |nodes|
  {
    if nodes == [] then None
    else if nodes[0] !in manifest.contracts then Some(UnknownContract)
    else
      var first := AuthorizeRead(policy, manifest.contracts[nodes[0]], tenant, now);
      if first.Some? then first else AuthorizeNodes(policy, manifest, nodes[1..], tenant, now)
  }

  function AuthorizePlaybookRead(policy: Policy, playbook: Playbook, manifest: Manifest, tenant: nat, now: int)
    : (refusal: Option<Reason>)
    requires policy.Complete()
  {
    if policy.tenant != tenant then Some(TenantMismatch)
    else if Expired(policy, now) then Some(PolicyExpired)
    else if policy.active != PrivilegedRead then Some(ProfileMismatch)
    else if playbook.id !in policy.profiles[policy.active].playbooks then Some(OutOfContract)
    else if playbook.Effectful() then Some(ProfileMismatch)
    else if exists node :: node in playbook.nodes && node !in policy.profiles[policy.active].contracts then Some(OutOfContract)
    else
      var refusal := AuthorizeNodes(policy, manifest, playbook.nodes, tenant, now);
      if refusal.Some? then refusal
      else if policy.permissionBaseline.None? || !policy.hasCredentialBaseline then Some(BaselineMissing)
      else None
  }

  const MINUTE: int := 60_000_000

  function MinuteOfDay(now: int): nat {
    (now / MINUTE) % 1440
  }

  /** A window that ends before it starts wraps over midnight; an empty one is always open. */
  predicate Inside(window: Window, minute: nat) {
    if window.start < window.end then window.start <= minute < window.end
    else minute >= window.start || minute < window.end
  }

  function Authorize(policy: Policy, contract: Contract, tenant: nat, target: nat, localTargets: set<nat>, now: int)
    : (r: Result<Mode, Reason>)
    requires policy.Complete()
  {
    if policy.tenant != tenant then Err(TenantMismatch)
    else if Expired(policy, now) then Err(PolicyExpired)
    else
      var profile := policy.profiles[policy.active];
      if contract.id !in profile.contracts then Err(OutOfContract)
      else if profile.window.Some? && !Inside(profile.window.value, MinuteOfDay(now)) then Err(WindowClosed)
      else if target !in policy.users then Err(FenceMismatch)
      else if target !in localTargets then Err(FenceMismatch)
      else if target in policy.protectedUsers then Err(ProtectedResource)
      else
        var mode := Effective(policy, contract);
        if !AtLeast(mode, contract.mode) then Err(Downgrade)
        else if mode == AutomaticRead || mode == Prohibited then Err(DeniedByPolicy)
        else Ok(mode)
  }

  // ---------------------------------------------------------------------------------
  // The static check
  // ---------------------------------------------------------------------------------

  const PROFILE_DEBT: nat := 0
  const PERMISSION_DRIFT: nat := 1

  ghost predicate ContractAdmissible(manifest: Manifest, name: ProfileName, id: nat) {
    && id in manifest.contracts
    && (ReadProfile(name) ==> manifest.contracts[id].isGet)
    && (name == RoutineWrite ==> manifest.contracts[id].tier in {T0, T1})
    && manifest.contracts[id].tier != T4
  }

  ghost predicate PlaybookAdmissible(profile: Profile, known: map<nat, Playbook>, name: ProfileName, id: nat) {
    && id in known && name == PrivilegedRead && !known[id].Effectful()
    && forall node | node in known[id].nodes :: node in profile.contracts
  }

  ghost predicate ProfileAdmissible(policy: Policy, manifest: Manifest, known: map<nat, Playbook>, name: ProfileName)
    requires policy.Complete()
  {
    && (forall id | id in policy.profiles[name].contracts :: ContractAdmissible(manifest, name, id))
    && (forall id | id in policy.profiles[name].playbooks ::
          PlaybookAdmissible(policy.profiles[name], known, name, id))
  }

  predicate EnablesDebt(policy: Policy, name: ProfileName)
    requires policy.Complete()
  {
    PROFILE_DEBT in policy.profiles[name].contracts
  }

  ghost predicate DebtAdmissible(policy: Policy)
    requires policy.Complete()
  {
    (exists name :: EnablesDebt(policy, name)) ==>
      && (forall name :: EnablesDebt(policy, name) <==> name == PrivilegedRead)
      && PERMISSION_DRIFT in policy.profiles[PrivilegedRead].contracts
      && policy.permissionBaseline.Some? && policy.hasDebtBaseline
  }

  ghost predicate OverrideAdmissible(policy: Policy, manifest: Manifest, id: nat)
    requires id in policy.overrides
  {
    id in manifest.contracts && AtLeast(policy.overrides[id], manifest.contracts[id].mode)
  }

  ghost predicate BaselineAdmissible(policy: Policy, manifest: Manifest) {
    policy.permissionBaseline.Some? ==>
      forall t, id {:trigger id in policy.permissionBaseline.value[t]} |
        0 <= t < |policy.permissionBaseline.value| && id in policy.permissionBaseline.value[t] ::
          id in manifest.contracts && manifest.contracts[id].tier != T4
  }

  function Known(playbooks: Option<PlaybookManifest>): map<nat, Playbook> {
    if playbooks.Some? then playbooks.value.playbooks else map[]
  }

  /** What a policy must satisfy to be accepted, said without an order of checks. */
  ghost predicate Admissible(policy: Policy, manifest: Manifest, playbooks: Option<PlaybookManifest>)
    requires policy.Complete()
  {
    && (forall name :: ProfileAdmissible(policy, manifest, Known(playbooks), name))
    && DebtAdmissible(policy)
    && ((exists name :: policy.profiles[name].playbooks != []) ==>
          playbooks.Some? && policy.playbookManifest == playbooks)
    && (forall id | id in policy.overrides :: OverrideAdmissible(policy, manifest, id))
    && BaselineAdmissible(policy, manifest)
  }

  const PROFILE_NAMES: seq<ProfileName> := [RoutineRead, RoutineWrite, PrivilegedRead, SelectedWrite, BreakGlass]

  lemma AllProfiles(name: ProfileName)
    ensures name in PROFILE_NAMES
  {
    match name {
      case RoutineRead => assert PROFILE_NAMES[0] == name;
      case RoutineWrite => assert PROFILE_NAMES[1] == name;
      case PrivilegedRead => assert PROFILE_NAMES[2] == name;
      case SelectedWrite => assert PROFILE_NAMES[3] == name;
      case BreakGlass => assert PROFILE_NAMES[4] == name;
    }
  }

  /** Why an enabled contract is refused. */
  predicate ContractFault(manifest: Manifest, name: ProfileName, id: nat, reason: Reason) {
    match reason
    case UnknownContract => id !in manifest.contracts
    case OutOfContract => id in manifest.contracts && manifest.contracts[id].tier == T4
    case ProfileMismatch =>
      id in manifest.contracts &&
      ((ReadProfile(name) && !manifest.contracts[id].isGet)
       || (name == RoutineWrite && manifest.contracts[id].tier !in {T0, T1}))
    case _ => false
  }

  method ValidateContracts(profile: Profile, manifest: Manifest, name: ProfileName) returns (refusal: Option<Reason>)
    ensures refusal.None? <==> forall id | id in profile.contracts :: ContractAdmissible(manifest, name, id)
    ensures refusal.Some? ==> exists id :: id in profile.contracts && ContractFault(manifest, name, id, refusal.value)
  {
    for i := 0 to |profile.contracts|
      invariant forall j | 0 <= j < i :: ContractAdmissible(manifest, name, profile.contracts[j])
    {
      var id := profile.contracts[i];
      assert id in profile.contracts;
      ghost var admissible := ContractAdmissible(manifest, name, id);
      if id !in manifest.contracts {
        return Some(UnknownContract);
      }
      var contract := manifest.contracts[id];
      if ReadProfile(name) && !contract.isGet {
        return Some(ProfileMismatch);
      }
      if name == RoutineWrite && contract.tier !in {T0, T1} {
        return Some(ProfileMismatch);
      }
      if contract.tier == T4 {
        return Some(OutOfContract);
      }
    }
    return None;
  }

  method ValidatePlaybooks(profile: Profile, known: map<nat, Playbook>, name: ProfileName) returns (refusal: Option<Reason>)
    ensures refusal.None? <==> forall id | id in profile.playbooks :: PlaybookAdmissible(profile, known, name, id)
    ensures refusal.Some? ==>
      exists id :: id in profile.playbooks && refusal.value == if id in known then ProfileMismatch else UnknownPlaybook
  {
    for i := 0 to |profile.playbooks|
      invariant forall j | 0 <= j < i :: PlaybookAdmissible(profile, known, name, profile.playbooks[j])
    {
      var id := profile.playbooks[i];
      assert id in profile.playbooks;
      ghost var admissible := PlaybookAdmissible(profile, known, name, id);
      if id !in known {
        return Some(UnknownPlaybook);
      }
      if name != PrivilegedRead || known[id].Effectful() {
        return Some(ProfileMismatch);
      }
      if exists node :: node in known[id].nodes && node !in profile.contracts {
        return Some(ProfileMismatch);
      }
    }
    return None;
  }

  method ValidateDebt(policy: Policy) returns (refusal: Option<Reason>)
    requires policy.Complete()
    ensures refusal.None? <==> DebtAdmissible(policy)
    ensures refusal.Some? ==> refusal.value in {ProfileMismatch, BaselineMissing}
    ensures refusal == Some(BaselineMissing) ==> policy.permissionBaseline.None? || !policy.hasDebtBaseline
  {
    var debtProfiles: seq<ProfileName> := [];
    for i := 0 to |PROFILE_NAMES|
      invariant forall name :: name in debtProfiles <==> name in PROFILE_NAMES[..i] && EnablesDebt(policy, name)
      invariant forall j, k | 0 <= j < k < |debtProfiles| :: debtProfiles[j] != debtProfiles[k]
    {
      assert PROFILE_NAMES[i] !in PROFILE_NAMES[..i];
      if EnablesDebt(policy, PROFILE_NAMES[i]) {
        debtProfiles := debtProfiles + [PROFILE_NAMES[i]];
      }
    }
    forall name ensures name in debtProfiles <==> EnablesDebt(policy, name) {
      AllProfiles(name);
      assert PROFILE_NAMES[..|PROFILE_NAMES|] == PROFILE_NAMES;
    }
    if debtProfiles != [] {
      assert EnablesDebt(policy, debtProfiles[0]);
      if debtProfiles != [PrivilegedRead] {
        OnlyPrivileged(debtProfiles);
        return Some(ProfileMismatch);
      }
      if PERMISSION_DRIFT !in policy.profiles[PrivilegedRead].contracts {
        return Some(ProfileMismatch);
      }
      if policy.permissionBaseline.None? || !policy.hasDebtBaseline {
        return Some(BaselineMissing);
      }
    }
    return None;
  }

  lemma OnlyPrivileged(names: seq<ProfileName>)
    requires names != [] && names != [PrivilegedRead]
    requires forall j, k | 0 <= j < k < |names| :: names[j] != names[k]
    ensures exists name :: name in names && name != PrivilegedRead
  {
    if names[0] != PrivilegedRead {
      assert names[0] in names;
    } else {
      assert |names| > 1;
      assert names[1] in names;
    }
  }

  method ValidateBaseline(policy: Policy, manifest: Manifest) returns (refusal: Option<Reason>)
    ensures refusal.None? <==> BaselineAdmissible(policy, manifest)
    ensures refusal.Some? ==> policy.permissionBaseline.Some? && exists t, i ::
      0 <= t < |policy.permissionBaseline.value| && 0 <= i < |policy.permissionBaseline.value[t]| &&
      refusal.value == (if policy.permissionBaseline.value[t][i] in manifest.contracts then OutOfContract else UnknownContract)
  {
    if policy.permissionBaseline.None? {
      return None;
    }
    var targets := policy.permissionBaseline.value;
    for t := 0 to |targets|
      invariant forall u, id {:trigger id in targets[u]} | 0 <= u < t && id in targets[u] ::
        id in manifest.contracts && manifest.contracts[id].tier != T4
    {
      for i := 0 to |targets[t]|
        invariant forall j | 0 <= j < i ::
          targets[t][j] in manifest.contracts && manifest.contracts[targets[t][j]].tier != T4
      {
        assert targets[t][i] in targets[t];
        if targets[t][i] !in manifest.contracts {
          return Some(UnknownContract);
        }
        if manifest.contracts[targets[t][i]].tier == T4 {
          return Some(OutOfContract);
        }
      }
    }
    return None;
  }

  method ValidateOverrides(policy: Policy, manifest: Manifest) returns (refusal: Option<Reason>)
    ensures refusal.None? <==> forall id | id in policy.overrides :: OverrideAdmissible(policy, manifest, id)
    ensures refusal.Some? ==>
      exists id :: id in policy.overrides && refusal.value == if id in manifest.contracts then Downgrade else UnknownContract
  {
    var remaining := policy.overrides.Keys;
    while remaining != {}
      invariant remaining <= policy.overrides.Keys
      invariant forall id | id in policy.overrides && id !in remaining :: OverrideAdmissible(policy, manifest, id)
    {
      var id :| id in remaining;
      ghost var admissible := OverrideAdmissible(policy, manifest, id);
      if id !in manifest.contracts {
        return Some(UnknownContract);
      }
      if !AtLeast(policy.overrides[id], manifest.contracts[id].mode) {
        return Some(Downgrade);
      }
      remaining := remaining - {id};
    }
    return None;
  }

  /** A policy passes exactly when it is admissible. */
  method ValidatePolicy(policy: Policy, manifest: Manifest, playbooks: Option<PlaybookManifest>)
    returns (refusal: Option<Reason>)
    requires policy.Complete()
    ensures refusal.None? <==> Admissible(policy, manifest, playbooks)
    ensures refusal == Some(PlaybookManifestRequired) ==> playbooks.None?
    ensures refusal == Some(PlaybookManifestChanged) ==> playbooks.Some? && policy.playbookManifest != playbooks
  {
    for i := 0 to |PROFILE_NAMES|
      invariant forall j | 0 <= j < i :: ProfileAdmissible(policy, manifest, Known(playbooks), PROFILE_NAMES[j])
    {
      var name := PROFILE_NAMES[i];
      ghost var admissible := ProfileAdmissible(policy, manifest, Known(playbooks), name);
      refusal := ValidateContracts(policy.profiles[name], manifest, name);
      if refusal.Some? {
        return;
      }
      refusal := ValidatePlaybooks(policy.profiles[name], Known(playbooks), name);
      if refusal.Some? {
        return;
      }
    }
    forall name ensures ProfileAdmissible(policy, manifest, Known(playbooks), name) {
      AllProfiles(name);
    }
    refusal := ValidateDebt(policy);
    if refusal.Some? {
      return;
    }
    if exists name :: name in PROFILE_NAMES && policy.profiles[name].playbooks != [] {
      if playbooks.None? {
        return Some(PlaybookManifestRequired);
      }
      if policy.playbookManifest != playbooks {
        return Some(PlaybookManifestChanged);
      }
    } else {
      forall name ensures policy.profiles[name].playbooks == [] {
        AllProfiles(name);
      }
    }
    refusal := ValidateOverrides(policy, manifest);
    if refusal.Some? {
      return;
    }
    refusal := ValidateBaseline(policy, manifest);
  }

  // ---------------------------------------------------------------------------------
  // The static check refines the runtime one
  // ---------------------------------------------------------------------------------

  /** An accepted policy never runs a contract under less than its floor. */
  lemma NeverBelowFloor(policy: Policy, manifest: Manifest, playbooks: Option<PlaybookManifest>, id: nat)
    requires policy.Complete() && manifest.Valid() && Admissible(policy, manifest, playbooks)
    requires id in manifest.contracts
    ensures AtLeast(Effective(policy, manifest.contracts[id]), manifest.contracts[id].mode)
  {
    if id in policy.overrides {
      assert OverrideAdmissible(policy, manifest, id);
    }
  }

  /**
   Under an accepted policy a read fails only for the tenant, expiry, an active profile
   that is not a read profile, a contract not enabled in it, or a hardened override: never
   for a downgrade, and never because an enabled contract is a write.
   */
  lemma ReadAuthorizationExactly(policy: Policy, manifest: Manifest, playbooks: Option<PlaybookManifest>,
                                 id: nat, tenant: nat, now: int)
    requires policy.Complete() && manifest.Valid() && Admissible(policy, manifest, playbooks)
    requires id in manifest.contracts
    ensures
      var contract := manifest.contracts[id];
      AuthorizeRead(policy, contract, tenant, now) ==
        if policy.tenant != tenant then Some(TenantMismatch)
        else if Expired(policy, now) then Some(PolicyExpired)
        else if policy.active !in {RoutineRead, PrivilegedRead} then Some(ProfileMismatch)
        else if id !in policy.profiles[policy.active].contracts then Some(OutOfContract)
        else if id in policy.overrides && policy.overrides[id] != AutomaticRead then Some(DeniedByPolicy)
        else None
  {
    NeverBelowFloor(policy, manifest, playbooks, id);
    assert ProfileAdmissible(policy, manifest, Known(playbooks), policy.active);
    if ReadProfile(policy.active) && id in policy.profiles[policy.active].contracts {
      assert ContractAdmissible(manifest, policy.active, id);
    }
  }

  /**
   Under an accepted policy a write is never refused as a downgrade. It runs under the mode
   that the policy's override names, or else the contract, and never under less than the
   contract's floor.
   */
  lemma WriteAuthorizationExactly(policy: Policy, manifest: Manifest, playbooks: Option<PlaybookManifest>,
                                  id: nat, tenant: nat, target: nat, localTargets: set<nat>, now: int)
    requires policy.Complete() && manifest.Valid() && Admissible(policy, manifest, playbooks)
    requires id in manifest.contracts
    ensures
      var contract, profile := manifest.contracts[id], policy.profiles[policy.active];
      var mode := if id in policy.overrides then policy.overrides[id] else contract.mode;
      && Authorize(policy, contract, tenant, target, localTargets, now) ==
           (if policy.tenant != tenant then Err(TenantMismatch)
            else if policy.expiresAt.Some? && policy.expiresAt.value <= now then Err(PolicyExpired)
            else if id !in profile.contracts then Err(OutOfContract)
            else if profile.window.Some? && !Inside(profile.window.value, MinuteOfDay(now)) then Err(WindowClosed)
            else if target !in policy.users * localTargets then Err(FenceMismatch)
            else if target in policy.protectedUsers then Err(ProtectedResource)
            else if mode == AutomaticRead || mode == Prohibited then Err(DeniedByPolicy)
            else Ok(mode))
      && AtLeast(mode, contract.mode)
      && (!contract.isGet ==> mode != AutomaticRead)
  {
    NeverBelowFloor(policy, manifest, playbooks, id);
  }

  /** Whatever the policy: every answer, and the mode an authorized write runs under. */
  lemma AuthorizedModeExactly(policy: Policy, contract: Contract, tenant: nat, target: nat, localTargets: set<nat>, now: int)
    requires policy.Complete()
    ensures
      var r := Authorize(policy, contract, tenant, target, localTargets, now);
      var mode := if contract.id in policy.overrides then policy.overrides[contract.id] else contract.mode;
      && (r == Err(TenantMismatch) <==> policy.tenant != tenant)
      && (r.Ok? ==>
          && r.value == mode && mode != AutomaticRead && mode != Prohibited && AtLeast(mode, contract.mode)
          && target in policy.users * localTargets && target !in policy.protectedUsers)
      && (policy.tenant == tenant && !(policy.expiresAt.Some? && policy.expiresAt.value <= now)
          && contract.id in policy.profiles[policy.active].contracts
          && (policy.profiles[policy.active].window == None
              || Inside(policy.profiles[policy.active].window.value, MinuteOfDay(now)))
          && target in policy.users * localTargets && target !in policy.protectedUsers ==>
            r == if !AtLeast(mode, contract.mode) then Err(Downgrade)
                 else if mode in {AutomaticRead, Prohibited} then Err(DeniedByPolicy) else Ok(mode))
  {
  }

  /** Whatever the policy: which reads pass, and the refusals an accepted policy never meets. */
  lemma ReadRefusalTells(policy: Policy, contract: Contract, tenant: nat, now: int)
    requires policy.Complete()
    ensures
      var r := AuthorizeRead(policy, contract, tenant, now);
      var mode := if contract.id in policy.overrides then policy.overrides[contract.id] else contract.mode;
      var reached := policy.tenant == tenant && !(policy.expiresAt.Some? && policy.expiresAt.value <= now)
        && policy.active in {RoutineRead, PrivilegedRead} && contract.id in policy.profiles[policy.active].contracts;
      && (r == None <==> reached && contract.isGet && mode == AutomaticRead == contract.mode)
      && (reached ==> (r == Some(ProfileMismatch) <==> !contract.isGet))
      && (reached && contract.isGet ==> (r == Some(Downgrade) <==> !AtLeast(mode, contract.mode)))
  {
  }

  /** Whatever the policy: which playbooks pass, and which refusal means what, first check first. */
  lemma PlaybookRefusalTells(policy: Policy, playbook: Playbook, manifest: Manifest, tenant: nat, now: int)
    requires policy.Complete()
    ensures
      var r := AuthorizePlaybookRead(policy, playbook, manifest, tenant, now);
      var profile := policy.profiles[PrivilegedRead];
      var live := policy.tenant == tenant && !(policy.expiresAt.Some? && policy.expiresAt.value <= now);
      var enabled := live && policy.active == PrivilegedRead && playbook.id in profile.playbooks;
      var harmless := playbook.tier == T0 && playbook.mode == AutomaticRead && !playbook.writes;
      var closed := forall node | node in playbook.nodes :: node in profile.contracts;
      && (r == Some(TenantMismatch) <==> policy.tenant != tenant)
      && (policy.tenant == tenant && !live ==> r == Some(PolicyExpired))
      && (live && policy.active != PrivilegedRead ==> r == Some(ProfileMismatch))
      && (live && policy.active == PrivilegedRead && playbook.id !in profile.playbooks ==> r == Some(OutOfContract))
      && (enabled && !harmless ==> r == Some(ProfileMismatch))
      && (enabled && harmless && !closed ==> r == Some(OutOfContract))
      && (enabled && harmless && closed ==>
          r == if AuthorizeNodes(policy, manifest, playbook.nodes, tenant, now).Some?
               then AuthorizeNodes(policy, manifest, playbook.nodes, tenant, now)
               else if policy.permissionBaseline == None || !policy.hasCredentialBaseline then Some(BaselineMissing)
               else None)
  {
    NodesHaveTenant(policy, manifest, playbook.nodes, tenant, now);
  }

  /** The nodes are authorized one by one: the first refusal counts. */
  lemma {:induction false} FirstNodeRefusalTells(policy: Policy, manifest: Manifest, nodes: seq<nat>, i: nat, tenant: nat, now: int)
    requires policy.Complete() && i < |nodes|
    requires forall j | 0 <= j < i ::
      nodes[j] in manifest.contracts && AuthorizeRead(policy, manifest.contracts[nodes[j]], tenant, now) == None
    requires nodes[i] in manifest.contracts ==> AuthorizeRead(policy, manifest.contracts[nodes[i]], tenant, now) != None
    ensures AuthorizeNodes(policy, manifest, nodes, tenant, now) ==
      if nodes[i] in manifest.contracts then AuthorizeRead(policy, manifest.contracts[nodes[i]], tenant, now)
      else Some(UnknownContract)
    decreases i
  {
    if i > 0 {
      FirstNodeRefusalTells(policy, manifest, nodes[1..], i - 1, tenant, now);
    }
  }

  lemma {:induction false} NodesHaveTenant(policy: Policy, manifest: Manifest, nodes: seq<nat>, tenant: nat, now: int)
    requires policy.Complete()
    ensures policy.tenant == tenant ==> AuthorizeNodes(policy, manifest, nodes, tenant, now) != Some(TenantMismatch)
    decreases |nodes|
  {
    if nodes != [] {
      NodesHaveTenant(policy, manifest, nodes[1..], tenant, now);
    }
  }

  /** The modes from the weakest to the strongest. */
  const MODES: seq<Mode> := [AutomaticRead, StandingPolicy, ExplicitPlan, DualControl, BreakGlassOnly, Prohibited]

  lemma StrengthOrdersModes(i: nat, j: nat)
    requires i < |MODES| && j < |MODES|
    ensures AtLeast(MODES[i], MODES[j]) <==> i >= j
  {
  }

  /** The minute of the day within which a moment lies. */
  lemma MinuteOfDayIsExact(now: int, day: int, minute: nat)
    requires minute < 1440 && (day * 1440 + minute) * 60_000_000 <= now < (day * 1440 + minute + 1) * 60_000_000
    ensures MinuteOfDay(now) == minute
  {
    assert now / MINUTE == day * 1440 + minute;
    assert (day * 1440 + minute) % 1440 == minute;
  }

  lemma {:induction false} NodesAuthorizedExactly(policy: Policy, manifest: Manifest, playbooks: Option<PlaybookManifest>,
                                                  nodes: seq<nat>, tenant: nat, now: int)
    requires policy.Complete() && manifest.Valid() && Admissible(policy, manifest, playbooks)
    requires policy.tenant == tenant && !Expired(policy, now) && policy.active == PrivilegedRead
    requires forall node | node in nodes :: node in policy.profiles[PrivilegedRead].contracts
    ensures AuthorizeNodes(policy, manifest, nodes, tenant, now) ==
      if exists node :: node in nodes && node in policy.overrides && policy.overrides[node] != AutomaticRead
      then Some(DeniedByPolicy) else None
    decreases |nodes|
  {
    if nodes != [] {
      assert nodes[0] in nodes;
      assert ProfileAdmissible(policy, manifest, Known(playbooks), PrivilegedRead);
      assert ContractAdmissible(manifest, PrivilegedRead, nodes[0]);
      ReadAuthorizationExactly(policy, manifest, playbooks, nodes[0], tenant, now);
      NodesAuthorizedExactly(policy, manifest, playbooks, nodes[1..], tenant, now);
      assert forall node :: node in nodes <==> node == nodes[0] || node in nodes[1..];
    }
  }

  /**
   Under an accepted policy a playbook enabled in the active profile is never refused as
   effectful, nor for a node that is disabled, unknown or a write.
   */
  lemma PlaybookAuthorizationExactly(policy: Policy, manifest: Manifest, playbooks: PlaybookManifest,
                                     id: nat, tenant: nat, now: int)
    requires policy.Complete() && manifest.Valid() && Admissible(policy, manifest, Some(playbooks))
    requires id in playbooks.playbooks && playbooks.playbooks[id].id == id
    requires id in policy.profiles[policy.active].playbooks
    ensures
      var playbook := playbooks.playbooks[id];
      && policy.active == PrivilegedRead
      && playbook.tier == T0 && playbook.mode == AutomaticRead && !playbook.writes
      && AuthorizePlaybookRead(policy, playbook, manifest, tenant, now) ==
           if policy.tenant != tenant then Some(TenantMismatch)
           else if Expired(policy, now) then Some(PolicyExpired)
           else if exists node :: node in playbook.nodes && node in policy.overrides && policy.overrides[node] != AutomaticRead
           then Some(DeniedByPolicy)
           else if policy.permissionBaseline.None? || !policy.hasCredentialBaseline then Some(BaselineMissing)
           else None
  {
    assert ProfileAdmissible(policy, manifest, Known(Some(playbooks)), policy.active);
    assert PlaybookAdmissible(policy.profiles[policy.active], playbooks.playbooks, policy.active, id);
    if policy.tenant == tenant && !Expired(policy, now) {
      NodesAuthorizedExactly(policy, manifest, Some(playbooks), playbooks.playbooks[id].nodes, tenant, now);
    }
  }

  /** A window holds the minutes from its start on, clockwise, before its end; equal ends leave the whole day. */
  lemma WindowIsExact(window: Window, minute: nat)
    requires window.start < 1440 && window.end < 1440 && minute < 1440
    ensures Inside(window, minute) <==>
      window.start == window.end || (minute - window.start) % 1440 < (window.end - window.start) % 1440
  {
    var a, b := minute - window.start, window.end - window.start;
    assert a % 1440 == (if a < 0 then a + 1440 else a) && b % 1440 == (if b < 0 then b + 1440 else b);
  }
}
