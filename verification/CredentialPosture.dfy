/**
 Application credential posture: the validator of signed exceptions, the matching of an
 exception to a finding, and the classification and counting of credentials over time.

 Times and lifetimes are integers in one unit.
 */
module CredentialPosture {
  import opened Common

  datatype Kind = Password | KeyPair

  datatype Control =
    | InvalidWindow | NoExpiry | Expired | Expiring | PasswordProhibited   // about one credential
    | OwnersBelowMinimum | PasswordsExceed | KeysExceed                    // about the application
    | UnknownControl

  predicate AboutCredential(c: Control) {
    c in {InvalidWindow, NoExpiry, Expired, Expiring, PasswordProhibited}
  }

  predicate AboutApplication(c: Control) {
    c in {OwnersBelowMinimum, PasswordsExceed, KeysExceed}
  }

  datatype AppException = AppException(
    application: nat, control: Control, kind: Option<Kind>, key: Option<nat>, expiresAt: int)

  datatype Target = Target(
    application: nat, minimumOwners: nat, warning: nat, passwordsAllowed: bool,
    maximumPasswords: nat, maximumKeys: nat)

  datatype Credential = Credential(key: nat, start: Option<int>, end: Option<int>)

  datatype Finding = Finding(control: Control, kind: Option<Kind>, key: Option<nat>, excepted: bool)

  datatype Alignment = Aligned | ExceptionApproved | NotAligned

  // ---------------------------------------------------------------------------------
  // Exceptions
  // ---------------------------------------------------------------------------------

  /** A selector is required on credential controls and forbidden on application controls. */
  predicate ValidException(e: AppException) {
    || (AboutCredential(e.control) && e.kind.Some? && e.key.Some?)
    || (AboutApplication(e.control) && e.kind.None? && e.key.None?)
  }

  /** The checks of the exception's validator, in its order. */
  method ValidateException(e: AppException) returns (accepted: bool)
    ensures accepted <==> ValidException(e)
    ensures accepted ==> e.control != UnknownControl && e.kind.Some? == e.key.Some?
    ensures e.control in {InvalidWindow, NoExpiry, Expired, Expiring, PasswordProhibited} ==>
      (accepted <==> e.kind.Some? && e.key.Some?)
    ensures e.control in {OwnersBelowMinimum, PasswordsExceed, KeysExceed} ==>
      (accepted <==> e.kind.None? && e.key.None?)
  {
    if !AboutCredential(e.control) && !AboutApplication(e.control) {
      return false;
    }
    if e.kind.None? != e.key.None? {
      return false;
    }
    if AboutCredential(e.control) && e.key.None? {
      return false;
    }
    if AboutApplication(e.control) && e.key.Some? {
      return false;
    }
    return true;
  }

  ghost predicate ValidBaseline(exceptions: seq<AppException>) {
    forall i | 0 <= i < |exceptions| :: ValidException(exceptions[i])
  }

  /** What the matching loop accepts; an exception without a kind covers everything. */
  predicate Covers(e: AppException, application: nat, control: Control, kind: Option<Kind>, key: Option<nat>, now: int) {
    && now < e.expiresAt && e.application == application && e.control == control
    && (e.kind.None? || (kind == e.kind && key.Some? && e.key == key))
  }

  method ActiveException(exceptions: seq<AppException>, application: nat, control: Control,
                         kind: Option<Kind>, key: Option<nat>, now: int) returns (found: bool)
    ensures found <==> IsExcepted(exceptions, application, control, kind, key, now)
  {
    for i := 0 to |exceptions|
      invariant forall j | 0 <= j < i :: !Covers(exceptions[j], application, control, kind, key, now)
    {
      var e := exceptions[i];
      if e.expiresAt <= now || e.application != application || e.control != control {
        continue;
      }
      if e.kind.None? {
        assert Covers(exceptions[i], application, control, kind, key, now);
        return true;
      }
      if kind == e.kind && key.Some? && e.key == key {
        assert Covers(exceptions[i], application, control, kind, key, now);
        return true;
      }
    }
    return false;
  }

  predicate IsExcepted(exceptions: seq<AppException>, application: nat, control: Control,
                       kind: Option<Kind>, key: Option<nat>, now: int) {
    exists i :: 0 <= i < |exceptions| && Covers(exceptions[i], application, control, kind, key, now)
  }

  /** Under a validated baseline a credential finding needs an exception for exactly its kind and key. */
  lemma CredentialExceptionsAreExact(exceptions: seq<AppException>, application: nat, control: Control,
                                     kind: Kind, key: nat, now: int)
    requires ValidBaseline(exceptions) && AboutCredential(control)
    ensures IsExcepted(exceptions, application, control, Some(kind), Some(key), now) <==>
      exists i :: 0 <= i < |exceptions| && now < exceptions[i].expiresAt
        && exceptions[i] == AppException(application, control, Some(kind), Some(key), exceptions[i].expiresAt)
  {
    forall i | 0 <= i < |exceptions|
      ensures Covers(exceptions[i], application, control, Some(kind), Some(key), now) <==>
        now < exceptions[i].expiresAt
        && exceptions[i] == AppException(application, control, Some(kind), Some(key), exceptions[i].expiresAt)
    {
      assert ValidException(exceptions[i]);
    }
  }

  /** And an application-level finding needs one without a selector. */
  lemma ApplicationExceptionsAreExact(exceptions: seq<AppException>, application: nat, control: Control,
                                      kind: Option<Kind>, now: int)
    requires ValidBaseline(exceptions) && AboutApplication(control)
    ensures IsExcepted(exceptions, application, control, kind, None, now) <==>
      exists i :: 0 <= i < |exceptions| && now < exceptions[i].expiresAt
        && exceptions[i] == AppException(application, control, None, None, exceptions[i].expiresAt)
  {
    forall i | 0 <= i < |exceptions|
      ensures Covers(exceptions[i], application, control, kind, None, now) <==>
        now < exceptions[i].expiresAt
        && exceptions[i] == AppException(application, control, None, None, exceptions[i].expiresAt)
    {
      assert ValidException(exceptions[i]);
    }
  }

  // ---------------------------------------------------------------------------------
  // One credential
  // ---------------------------------------------------------------------------------

  predicate IsActive(c: Credential, now: int) {
    (c.start.None? || c.start.value <= now) && (c.end.None? || now < c.end.value)
  }

  predicate IsExpired(c: Credential, now: int) {
    c.end.Some? && c.end.value <= now
  }

  predicate IsExpiring(c: Credential, now: int, warning: nat) {
    IsActive(c, now) && c.end.Some? && c.end.value <= now + warning
  }

  predicate HasInvalidWindow(c: Credential) {
    c.start.Some? && c.end.Some? && c.end.value <= c.start.value
  }

  /** Later classes are worse. */
  function Class(c: Credential, now: int, warning: nat): nat {
    if IsExpired(c, now) then 3 else if IsExpiring(c, now, warning) then 2 else if IsActive(c, now) then 1 else 0
  }

  /** As time passes a credential's class never moves backwards. */
  lemma ClassNeverMovesBack(c: Credential, now: int, later: int, warning: nat)
    requires now <= later
    ensures Class(c, now, warning) <= Class(c, later, warning)
    ensures !(IsActive(c, now) && IsExpired(c, now))
  {
  }

  /** The controls a credential violates, in the order they are reported. */
  function Violations(t: Target, kind: Kind, c: Credential, now: int): seq<Control> {
    (if HasInvalidWindow(c) then [InvalidWindow] else [])
    + (if c.end.None? then [NoExpiry]
       else if IsExpired(c, now) then [Expired]
       else if IsExpiring(c, now, t.warning) then [Expiring]
       else [])
    + (if kind == Password && !t.passwordsAllowed then [PasswordProhibited] else [])
  }

  function FindingsFor(t: Target, kind: Kind, c: Credential, exceptions: seq<AppException>, now: int,
                       controls: seq<Control>): seq<Finding> {
    seq(|controls|, i requires 0 <= i < |controls| =>
      Finding(controls[i], Some(kind), Some(c.key),
              IsExcepted(exceptions, t.application, controls[i], Some(kind), Some(c.key), now)))
  }

  method AddFinding(findings: seq<Finding>, t: Target, control: Control, kind: Option<Kind>, key: Option<nat>,
                    exceptions: seq<AppException>, now: int) returns (more: seq<Finding>)
    ensures more == findings +
      [Finding(control, kind, key, IsExcepted(exceptions, t.application, control, kind, key, now))]
  {
    var excepted := ActiveException(exceptions, t.application, control, kind, key, now);
    more := findings + [Finding(control, kind, key, excepted)];
  }

  method CredentialFindings(t: Target, kind: Kind, c: Credential, exceptions: seq<AppException>, now: int)
    returns (findings: seq<Finding>, active: bool, expiring: bool, expired: bool)
    ensures findings == FindingsFor(t, kind, c, exceptions, now, Violations(t, kind, c, now))
    ensures active == IsActive(c, now) && expiring == IsExpiring(c, now, t.warning) && expired == IsExpired(c, now)
  {
    active := (c.start.None? || c.start.value <= now) && (c.end.None? || c.end.value > now);
    expired := c.end.Some? && c.end.value <= now;
    expiring := active && c.end.Some? && c.end.value <= now + t.warning;
    findings := [];
    ghost var controls: seq<Control> := [];
    if c.start.Some? && c.end.Some? && c.end.value <= c.start.value {
      findings := AddFinding(findings, t, InvalidWindow, Some(kind), Some(c.key), exceptions, now);
      controls := controls + [InvalidWindow];
    }
    if c.end.None? {
      findings := AddFinding(findings, t, NoExpiry, Some(kind), Some(c.key), exceptions, now);
      controls := controls + [NoExpiry];
    } else if expired {
      findings := AddFinding(findings, t, Expired, Some(kind), Some(c.key), exceptions, now);
      controls := controls + [Expired];
    } else if expiring {
      findings := AddFinding(findings, t, Expiring, Some(kind), Some(c.key), exceptions, now);
      controls := controls + [Expiring];
    }
    if kind == Password && !t.passwordsAllowed {
      findings := AddFinding(findings, t, PasswordProhibited, Some(kind), Some(c.key), exceptions, now);
      controls := controls + [PasswordProhibited];
    }
    assert controls == Violations(t, kind, c, now);
    assert findings == FindingsFor(t, kind, c, exceptions, now, controls);
  }

  // ---------------------------------------------------------------------------------
  // One application
  // ---------------------------------------------------------------------------------

  function CountActive(cs: seq<Credential>, now: int): nat {
    if cs == [] then 0 else CountActive(cs[..|cs| - 1], now) + if IsActive(cs[|cs| - 1], now) then 1 else 0
  }

  function CountExpiring(cs: seq<Credential>, now: int, warning: nat): nat {
    if cs == [] then 0
    else CountExpiring(cs[..|cs| - 1], now, warning) + if IsExpiring(cs[|cs| - 1], now, warning) then 1 else 0
  }

  function CountExpired(cs: seq<Credential>, now: int): nat {
    if cs == [] then 0 else CountExpired(cs[..|cs| - 1], now) + if IsExpired(cs[|cs| - 1], now) then 1 else 0
  }

  function ListFindings(t: Target, kind: Kind, cs: seq<Credential>, exceptions: seq<AppException>, now: int): seq<Finding> {
    if cs == [] then []
    else
      var last := cs[|cs| - 1];
      ListFindings(t, kind, cs[..|cs| - 1], exceptions, now)
      + FindingsFor(t, kind, last, exceptions, now, Violations(t, kind, last, now))
  }

  datatype Posture = Posture(
    alignment: Alignment, activePasswords: nat, activeKeys: nat, expiring: nat, expired: nat, approved: nat,
    findings: seq<Finding>)

  method CountKind(t: Target, kind: Kind, cs: seq<Credential>, exceptions: seq<AppException>, now: int)
    returns (findings: seq<Finding>, active: nat, expiring: nat, expired: nat)
    ensures findings == ListFindings(t, kind, cs, exceptions, now)
    ensures active == CountActive(cs, now)
    ensures expiring == CountExpiring(cs, now, t.warning) && expired == CountExpired(cs, now)
  {
    findings, active, expiring, expired := [], 0, 0, 0;
    for i := 0 to |cs|
      invariant findings == ListFindings(t, kind, cs[..i], exceptions, now)
      invariant active == CountActive(cs[..i], now)
      invariant expiring == CountExpiring(cs[..i], now, t.warning) && expired == CountExpired(cs[..i], now)
    {
      assert cs[..i + 1][..i] == cs[..i];
      var some, isActive, isExpiring, isExpired := CredentialFindings(t, kind, cs[i], exceptions, now);
      findings := findings + some;
      active := active + if isActive then 1 else 0;
      expiring := expiring + if isExpiring then 1 else 0;
      expired := expired + if isExpired then 1 else 0;
    }
    assert cs[..|cs|] == cs;
  }

  function CountApproved(findings: seq<Finding>): nat {
    if findings == [] then 0
    else CountApproved(findings[..|findings| - 1]) + if findings[|findings| - 1].excepted then 1 else 0
  }

  method Summarize(findings: seq<Finding>) returns (alignment: Alignment, approved: nat)
    ensures approved == CountApproved(findings) <= |findings|
    ensures alignment == Aligned <==> findings == []
    ensures alignment == NotAligned <==> exists i :: 0 <= i < |findings| && !findings[i].excepted
  {
    approved := 0;
    var unexcepted := 0;
    for i := 0 to |findings|
      invariant approved == CountApproved(findings[..i]) && approved + unexcepted == i
      invariant unexcepted > 0 <==> exists j :: 0 <= j < i && !findings[j].excepted
    {
      assert findings[..i + 1][..i] == findings[..i];
      if findings[i].excepted {
        approved := approved + 1;
      } else {
        unexcepted := unexcepted + 1;
      }
    }
    assert findings[..|findings|] == findings;
    alignment := if unexcepted > 0 then NotAligned else if approved > 0 then ExceptionApproved else Aligned;
  }

  function AppFinding(t: Target, control: Control, kind: Option<Kind>, exceptions: seq<AppException>, now: int): Finding {
    Finding(control, kind, None, IsExcepted(exceptions, t.application, control, kind, None, now))
  }

  function OwnerFindings(t: Target, owners: nat, exceptions: seq<AppException>, now: int): seq<Finding> {
    if owners < t.minimumOwners then [AppFinding(t, OwnersBelowMinimum, None, exceptions, now)] else []
  }

  function LimitFindings(t: Target, activePasswords: nat, activeKeys: nat, exceptions: seq<AppException>, now: int): seq<Finding> {
    (if t.passwordsAllowed && activePasswords > t.maximumPasswords
     then [AppFinding(t, PasswordsExceed, Some(Password), exceptions, now)] else [])
    + (if activeKeys > t.maximumKeys then [AppFinding(t, KeysExceed, Some(KeyPair), exceptions, now)] else [])
  }

  function AllFindings(t: Target, owners: nat, passwords: seq<Credential>, keys: seq<Credential>,
                       exceptions: seq<AppException>, now: int): seq<Finding> {
    OwnerFindings(t, owners, exceptions, now)
    + (ListFindings(t, Password, passwords, exceptions, now) + ListFindings(t, KeyPair, keys, exceptions, now))
    + LimitFindings(t, CountActive(passwords, now), CountActive(keys, now), exceptions, now)
  }

  method ReportLimits(t: Target, activePasswords: nat, activeKeys: nat, exceptions: seq<AppException>, now: int)
    returns (findings: seq<Finding>)
    ensures findings == LimitFindings(t, activePasswords, activeKeys, exceptions, now)
  {
    findings := [];
    if t.passwordsAllowed && activePasswords > t.maximumPasswords {
      findings := AddFinding(findings, t, PasswordsExceed, Some(Password), None, exceptions, now);
    }
    if activeKeys > t.maximumKeys {
      findings := AddFinding(findings, t, KeysExceed, Some(KeyPair), None, exceptions, now);
    }
  }

  method Classify(t: Target, owners: nat, passwords: seq<Credential>, keys: seq<Credential>,
                  exceptions: seq<AppException>, now: int) returns (p: Posture)
    ensures p.activePasswords == CountActive(passwords, now) && p.activeKeys == CountActive(keys, now)
    ensures p.expiring == CountExpiring(passwords, now, t.warning) + CountExpiring(keys, now, t.warning)
    ensures p.expired == CountExpired(passwords, now) + CountExpired(keys, now)
    ensures p.findings == AllFindings(t, owners, passwords, keys, exceptions, now)
    ensures p.approved == CountApproved(p.findings)
    ensures p.alignment == Aligned <==> Healthy(t, owners, passwords, keys, now)
    ensures p.alignment == NotAligned <==> exists i :: 0 <= i < |p.findings| && !p.findings[i].excepted
  {
    NoFindingsExactly(t, owners, passwords, keys, exceptions, now);
    var findings: seq<Finding> := [];
    if owners < t.minimumOwners {
      findings := AddFinding(findings, t, OwnersBelowMinimum, None, None, exceptions, now);
    }
    assert findings == OwnerFindings(t, owners, exceptions, now);
    var some, activePasswords, expiring, expired := CountKind(t, Password, passwords, exceptions, now);
    var more, activeKeys, expiringKeys, expiredKeys := CountKind(t, KeyPair, keys, exceptions, now);
    var limits := ReportLimits(t, activePasswords, activeKeys, exceptions, now);
    findings := findings + (some + more) + limits;
    var alignment, approved := Summarize(findings);
    p := Posture(alignment, activePasswords, activeKeys, expiring + expiringKeys, expired + expiredKeys, approved, findings);
  }

  // ---------------------------------------------------------------------------------
  // Theorems
  // ---------------------------------------------------------------------------------

  /** A credential nothing is wrong with: a forward window that has an end, well ahead if it is in use. */
  predicate Sound(c: Credential, now: int, warning: nat) {
    && c.end.Some? && now < c.end.value
    && (c.start.Some? ==> c.start.value < c.end.value)
    && ((c.start.None? || c.start.value <= now) ==> now + warning < c.end.value)
  }

  /** What an aligned application looks like. */
  ghost predicate Healthy(t: Target, owners: nat, passwords: seq<Credential>, keys: seq<Credential>, now: int) {
    && owners >= t.minimumOwners
    && (forall i | 0 <= i < |passwords| :: Sound(passwords[i], now, t.warning))
    && (forall i | 0 <= i < |keys| :: Sound(keys[i], now, t.warning))
    && (if t.passwordsAllowed then CountActive(passwords, now) <= t.maximumPasswords else passwords == [])
    && CountActive(keys, now) <= t.maximumKeys
  }

  lemma {:induction false} NoListFindingsExactly(t: Target, kind: Kind, cs: seq<Credential>, exceptions: seq<AppException>, now: int)
    ensures ListFindings(t, kind, cs, exceptions, now) == [] <==>
      && (forall i | 0 <= i < |cs| :: Sound(cs[i], now, t.warning))
      && (kind == Password && !t.passwordsAllowed ==> cs == [])
  {
    if cs != [] {
      var init, last := cs[..|cs| - 1], cs[|cs| - 1];
      NoListFindingsExactly(t, kind, init, exceptions, now);
      assert |FindingsFor(t, kind, last, exceptions, now, Violations(t, kind, last, now))| == |Violations(t, kind, last, now)|;
      assert Violations(t, kind, last, now) == [] <==>
        Sound(last, now, t.warning) && !(kind == Password && !t.passwordsAllowed);
    }
  }

  /** There is no finding, excepted or not, exactly when the application is healthy. */
  lemma NoFindingsExactly(t: Target, owners: nat, passwords: seq<Credential>, keys: seq<Credential>,
                          exceptions: seq<AppException>, now: int)
    ensures AllFindings(t, owners, passwords, keys, exceptions, now) == [] <==> Healthy(t, owners, passwords, keys, now)
  {
    NoListFindingsExactly(t, Password, passwords, exceptions, now);
    NoListFindingsExactly(t, KeyPair, keys, exceptions, now);
  }

  /** Expiring credentials are active ones; active and expired ones together never exceed the total. */
  lemma {:induction false} CountsAreConsistent(cs: seq<Credential>, now: int, warning: nat)
    ensures CountExpiring(cs, now, warning) <= CountActive(cs, now)
    ensures CountActive(cs, now) + CountExpired(cs, now) <= |cs|
  {
    if cs != [] {
      CountsAreConsistent(cs[..|cs| - 1], now, warning);
    }
  }

  /** As time passes the expired count never falls. */
  lemma {:induction false} ExpiredNeverFalls(cs: seq<Credential>, now: int, later: int)
    requires now <= later
    ensures CountExpired(cs, now) <= CountExpired(cs, later)
  {
    if cs != [] {
      ExpiredNeverFalls(cs[..|cs| - 1], now, later);
    }
  }

  // ---------------------------------------------------------------------------------
  // What the counts and the findings say about the credentials themselves
  // ---------------------------------------------------------------------------------

  /** The counts are the numbers of credentials in use, in use with their end inside the warning, and ended. */
  lemma CountsExactly(cs: seq<Credential>, now: int, warning: nat)
    ensures CountActive(cs, now) == |set i | 0 <= i < |cs| && InUse(cs[i], now)|
    ensures CountExpiring(cs, now, warning) == |set i | 0 <= i < |cs| && EndsSoon(cs[i], now, warning)|
    ensures CountExpired(cs, now) == |set i | 0 <= i < |cs| && EndsBy(cs[i], now)|
  {
    ActiveExactly(cs, now);
    ExpiringExactly(cs, now, warning);
    ExpiredExactly(cs, now);
  }

  lemma {:induction false} ActiveExactly(cs: seq<Credential>, now: int)
    ensures CountActive(cs, now) == |set i | 0 <= i < |cs| && InUse(cs[i], now)|
  {
    var active := set i | 0 <= i < |cs| && InUse(cs[i], now);
    if cs == [] {
      assert active == {};
    } else {
      var n := |cs| - 1;
      var init := cs[..n];
      ActiveExactly(init, now);
      assert active == (set i | 0 <= i < |init| && InUse(init[i], now)) + if InUse(cs[n], now) then {n} else {};
    }
  }

  lemma {:induction false} ExpiringExactly(cs: seq<Credential>, now: int, warning: nat)
    ensures CountExpiring(cs, now, warning) == |set i | 0 <= i < |cs| && EndsSoon(cs[i], now, warning)|
  {
    var expiring := set i | 0 <= i < |cs| && EndsSoon(cs[i], now, warning);
    if cs == [] {
      assert expiring == {};
    } else {
      var n := |cs| - 1;
      var init := cs[..n];
      ExpiringExactly(init, now, warning);
      assert EndsSoon(cs[n], now, warning) == IsExpiring(cs[n], now, warning);
      assert expiring == (set i | 0 <= i < |init| && EndsSoon(init[i], now, warning))
        + if EndsSoon(cs[n], now, warning) then {n} else {};
    }
  }

  lemma {:induction false} ExpiredExactly(cs: seq<Credential>, now: int)
    ensures CountExpired(cs, now) == |set i | 0 <= i < |cs| && EndsBy(cs[i], now)|
  {
    var expired := set i | 0 <= i < |cs| && EndsBy(cs[i], now);
    if cs == [] {
      assert expired == {};
    } else {
      var n := |cs| - 1;
      var init := cs[..n];
      ExpiredExactly(init, now);
      assert expired == (set i | 0 <= i < |init| && EndsBy(init[i], now)) + if EndsBy(cs[n], now) then {n} else {};
    }
  }

  /** Now lies in the credential's window, from its start on and before its end, as far as it has them. */
  ghost predicate InUse(c: Credential, now: int) {
    (forall start :: c.start == Some(start) ==> start <= now) && (forall end :: c.end == Some(end) ==> now < end)
  }

  ghost predicate EndsBy(c: Credential, moment: int) {
    exists end :: end <= moment && c.end == Some(end)
  }

  ghost predicate EndsSoon(c: Credential, now: int, warning: nat) {
    InUse(c, now) && EndsBy(c, now + warning)
  }

  /** What the controls ask of one credential. */
  ghost predicate Breaks(t: Target, kind: Kind, c: Credential, now: int, control: Control) {
    match control
    case InvalidWindow => exists start, end :: end <= start && c == Credential(c.key, Some(start), Some(end))
    case NoExpiry => forall end :: c.end != Some(end)
    case Expired => EndsBy(c, now)
    case Expiring => EndsSoon(c, now, t.warning)
    case PasswordProhibited => kind == Password && !t.passwordsAllowed
    case _ => false
  }

  /** The order in which one credential's findings are reported; the middle three exclude each other. */
  function Place(control: Control): nat {
    match control case InvalidWindow => 0 case NoExpiry | Expired | Expiring => 1 case _ => 2
  }

  lemma ViolationsExactly(t: Target, kind: Kind, c: Credential, now: int, control: Control)
    ensures control in Violations(t, kind, c, now) <==> Breaks(t, kind, c, now, control)
    ensures
      var v := Violations(t, kind, c, now);
      forall i, j | 0 <= i < j < |v| :: Place(v[i]) < Place(v[j])
  {
    assert c == Credential(c.key, c.start, c.end);
  }

  /** The finding is about this control of this credential, excepted exactly by an exception that covers it. */
  ghost predicate Source(f: Finding, at: (nat, Control), t: Target, kind: Kind, cs: seq<Credential>,
                         exceptions: seq<AppException>, now: int)
  {
    && at.0 < |cs| && Breaks(t, kind, cs[at.0], now, at.1)
    && f.control == at.1 && f.kind == Some(kind) && f.key == Some(cs[at.0].key)
    && f.excepted == IsExcepted(exceptions, t.application, at.1, Some(kind), Some(cs[at.0].key), now)
  }

  /** By credential, and then by the place of the control. */
  ghost predicate Ascends(from: seq<(nat, Control)>) {
    forall j, k | 0 <= j < k < |from| ::
      from[j].0 < from[k].0 || (from[j].0 == from[k].0 && Place(from[j].1) < Place(from[k].1))
  }

  ghost predicate HoldsEveryBreach(from: seq<(nat, Control)>, t: Target, kind: Kind, cs: seq<Credential>, now: int) {
    forall i: nat, control | i < |cs| && Breaks(t, kind, cs[i], now, control) :: (i, control) in from
  }

  /** One finding for each broken control of each credential, in order. */
  ghost predicate Lists(findings: seq<Finding>, from: seq<(nat, Control)>, t: Target, kind: Kind, cs: seq<Credential>,
                        exceptions: seq<AppException>, now: int)
  {
    && |from| == |findings| && (forall k | 0 <= k < |from| :: Source(findings[k], from[k], t, kind, cs, exceptions, now))
    && Ascends(from) && HoldsEveryBreach(from, t, kind, cs, now)
  }

  lemma SourceStays(f: Finding, at: (nat, Control), t: Target, kind: Kind, cs: seq<Credential>,
                    exceptions: seq<AppException>, now: int)
    requires cs != [] && Source(f, at, t, kind, cs[..|cs| - 1], exceptions, now)
    ensures Source(f, at, t, kind, cs, exceptions, now)
  {
    assert cs[..|cs| - 1][at.0] == cs[at.0];
  }

  lemma HoldsOneMore(from: seq<(nat, Control)>, t: Target, kind: Kind, cs: seq<Credential>, now: int,
                     v: seq<Control>, here: seq<(nat, Control)>)
    requires cs != [] && HoldsEveryBreach(from, t, kind, cs[..|cs| - 1], now)
    requires |here| == |v| && forall k | 0 <= k < |v| :: here[k] == (|cs| - 1, v[k])
    requires forall control :: Breaks(t, kind, cs[|cs| - 1], now, control) ==> control in v
    ensures HoldsEveryBreach(from + here, t, kind, cs, now)
  {
    var n := |cs| - 1;
    forall i: nat, control | i < |cs| && Breaks(t, kind, cs[i], now, control) ensures (i, control) in from + here {
      if i == n {
        assert control in v;
        var k :| 0 <= k < |v| && v[k] == control;
        assert here[k] == (i, control);
      } else {
        assert Breaks(t, kind, cs[..n][i], now, control);
      }
    }
  }

  lemma AscendsOneMore(from: seq<(nat, Control)>, n: nat, v: seq<Control>, here: seq<(nat, Control)>)
    requires Ascends(from) && forall k | 0 <= k < |from| :: from[k].0 < n
    requires |here| == |v| && forall k | 0 <= k < |v| :: here[k] == (n, v[k])
    requires forall i, j | 0 <= i < j < |v| :: Place(v[i]) < Place(v[j])
    ensures Ascends(from + here)
  {
  }

  lemma {:induction false} EveryBreachIsListed(t: Target, kind: Kind, cs: seq<Credential>, exceptions: seq<AppException>, now: int)
    returns (from: seq<(nat, Control)>)
    ensures Lists(ListFindings(t, kind, cs, exceptions, now), from, t, kind, cs, exceptions, now)
  {
    if cs == [] {
      from := [];
    } else {
      var n := |cs| - 1;
      var init := cs[..n];
      var before := EveryBreachIsListed(t, kind, init, exceptions, now);
      var v := Violations(t, kind, cs[n], now);
      var here := seq(|v|, k requires 0 <= k < |v| => (n, v[k]));
      forall control ensures control in v <==> Breaks(t, kind, cs[n], now, control) {
        ViolationsExactly(t, kind, cs[n], now, control);
      }
      ViolationsExactly(t, kind, cs[n], now, NoExpiry);
      HoldsOneMore(before, t, kind, cs, now, v, here);
      AscendsOneMore(before, n, v, here);
      from := before + here;
      forall k | 0 <= k < |from|
        ensures Source(ListFindings(t, kind, cs, exceptions, now)[k], from[k], t, kind, cs, exceptions, now)
      {
        if k < |before| {
          SourceStays(ListFindings(t, kind, init, exceptions, now)[k], before[k], t, kind, cs, exceptions, now);
        } else {
          assert v[k - |before|] in v && from[k] == here[k - |before|];
        }
      }
    }
  }

  /** Findings about the application itself: of the given controls, in their order, those that are broken. */
  ghost predicate Names(findings: seq<Finding>, controls: seq<(Control, Option<Kind>)>, broken: seq<bool>, t: Target,
                        exceptions: seq<AppException>, now: int)
    requires |controls| == |broken|
  {
    if controls == [] then findings == []
    else if !broken[0] then Names(findings, controls[1..], broken[1..], t, exceptions, now)
    else
      && findings != [] && Names(findings[1..], controls[1..], broken[1..], t, exceptions, now)
      && findings[0].control == controls[0].0 && findings[0].kind == controls[0].1 && findings[0].key == None
      && findings[0].excepted == IsExcepted(exceptions, t.application, controls[0].0, controls[0].1, None, now)
  }

  /**
   The whole report, in order: too few owners, every broken control of every password and
   then of every key, and the limits on credentials in use.
   */
  lemma FindingsExactly(t: Target, owners: nat, passwords: seq<Credential>, keys: seq<Credential>,
                        exceptions: seq<AppException>, now: int)
    returns (ownership: seq<Finding>, secrets: seq<Finding>, pairs: seq<Finding>, limits: seq<Finding>,
             fromPasswords: seq<(nat, Control)>, fromKeys: seq<(nat, Control)>)
    ensures AllFindings(t, owners, passwords, keys, exceptions, now) == ownership + (secrets + pairs) + limits
    ensures Lists(secrets, fromPasswords, t, Password, passwords, exceptions, now)
    ensures Lists(pairs, fromKeys, t, KeyPair, keys, exceptions, now)
    ensures Names(ownership, [(OwnersBelowMinimum, None)], [owners < t.minimumOwners], t, exceptions, now)
    ensures Names(limits, [(PasswordsExceed, Some(Password)), (KeysExceed, Some(KeyPair))],
                  [t.passwordsAllowed && |set i | 0 <= i < |passwords| && InUse(passwords[i], now)| > t.maximumPasswords,
                   |set i | 0 <= i < |keys| && InUse(keys[i], now)| > t.maximumKeys], t, exceptions, now)
  {
    CountsExactly(passwords, now, t.warning);
    CountsExactly(keys, now, t.warning);
    ownership := OwnerFindings(t, owners, exceptions, now);
    secrets, pairs := ListFindings(t, Password, passwords, exceptions, now), ListFindings(t, KeyPair, keys, exceptions, now);
    limits := LimitFindings(t, CountActive(passwords, now), CountActive(keys, now), exceptions, now);
    fromPasswords := EveryBreachIsListed(t, Password, passwords, exceptions, now);
    fromKeys := EveryBreachIsListed(t, KeyPair, keys, exceptions, now);
  }

  lemma {:induction false} ApprovedExactly(findings: seq<Finding>)
    ensures CountApproved(findings) == |set i | 0 <= i < |findings| && findings[i].excepted|
  {
    var approved := set i | 0 <= i < |findings| && findings[i].excepted;
    if findings == [] {
      assert approved == {};
    } else {
      var n := |findings| - 1;
      var init := findings[..n];
      ApprovedExactly(init);
      assert approved == (set i | 0 <= i < |init| && init[i].excepted) + if findings[n].excepted then {n} else {};
    }
  }
}
