/**
 Permission-grant drift of one service principal: the observed grants against the scopes
 its signed contracts need, with exact, expiring exceptions.
 */
module GrantDrift {

  datatype Consent = AllPrincipals | OnePrincipal

  /** A grant as it is compared: resources and permission values are numbers. */
  datatype Grant =
    | Delegated(resource: nat, permission: nat, consent: Consent)
    | ApplicationRole(resource: nat, permission: nat)

  const GRAPH: nat := 0
  const USER_READ: nat := 0

  /** A signed target; `scopes` lists the delegated scopes of each of its contracts. */
  datatype Target = Target(id: nat, scopes: seq<set<nat>>, allowedConsents: set<Consent>)

  datatype GrantException = GrantException(target: nat, grant: Grant, expiresAt: int)

  datatype Control = ExpectedMissing | DelegatedUnexpected | ConsentTypeMismatch | ApplicationUnexpected

  datatype Finding = Finding(control: Control, resource: nat, permission: nat, excepted: bool)

  datatype Alignment = Aligned | ExceptionApproved | NotAligned

  datatype Posture = Posture(missing: nat, unexpected: nat, excepted: nat, alignment: Alignment, findings: seq<Finding>)

  // ---------------------------------------------------------------------------------
  // What drift is
  // ---------------------------------------------------------------------------------

  function Union(sets: seq<set<nat>>): set<nat> {
    if sets == [] then {} else Union(sets[..|sets| - 1]) + sets[|sets| - 1]
  }

  /** The signed contracts' scopes, and User.Read. */
  function Expected(target: Target): set<nat> {
    {USER_READ} + Union(target.scopes)
  }

  predicate Granted(observed: set<Grant>, scope: nat) {
    Delegated(GRAPH, scope, AllPrincipals) in observed || Delegated(GRAPH, scope, OnePrincipal) in observed
  }

  function Missing(target: Target, observed: set<Grant>): set<nat> {
    set scope | scope in Expected(target) && !Granted(observed, scope)
  }

  /** A delegated Graph scope some contract needs, consented to in an allowed way. */
  predicate Wanted(target: Target, grant: Grant) {
    && grant.Delegated? && grant.resource == GRAPH && grant.permission in Expected(target)
    && grant.consent in target.allowedConsents
  }

  function Surplus(target: Target, observed: set<Grant>): set<Grant> {
    set grant | grant in observed && !Wanted(target, grant)
  }

  /** The exceptions in force, by target and grant. */
  function Active(exceptions: set<GrantException>, now: int): set<(nat, Grant)> {
    set e | e in exceptions && now < e.expiresAt :: (e.target, e.grant)
  }

  function Excepted(target: Target, observed: set<Grant>, active: set<(nat, Grant)>): set<Grant> {
    set grant | grant in Surplus(target, observed) && (target.id, grant) in active
  }

  function AlignmentOf(missing: nat, unexpected: nat, excepted: nat): Alignment {
    if missing > 0 || unexpected > 0 then NotAligned else if excepted > 0 then ExceptionApproved else Aligned
  }

  function FindingFor(target: Target, active: set<(nat, Grant)>, grant: Grant): Finding {
    var control :=
      if grant.ApplicationRole? then ApplicationUnexpected
      else if grant.resource == GRAPH && grant.permission in Expected(target) then ConsentTypeMismatch
      else DelegatedUnexpected;
    Finding(control, grant.resource, grant.permission, (target.id, grant) in active)
  }

  // ---------------------------------------------------------------------------------
  // The counting loops
  // ---------------------------------------------------------------------------------

  method ExpectedScopes(target: Target) returns (expected: set<nat>)
    ensures expected == Expected(target)
  {
    expected := {USER_READ};
    for i := 0 to |target.scopes|
      invariant expected == {USER_READ} + Union(target.scopes[..i])
    {
      assert target.scopes[..i + 1][..i] == target.scopes[..i];
      expected := expected + target.scopes[i];
    }
    assert target.scopes[..|target.scopes|] == target.scopes;
  }

  method CountMissing(target: Target, observed: set<Grant>, expected: set<nat>) returns (findings: seq<Finding>)
    requires expected == Expected(target)
    ensures |findings| == |Missing(target, observed)|
    ensures forall f :: f in findings <==>
      f.control == ExpectedMissing && f.resource == GRAPH && f.permission in Missing(target, observed) && !f.excepted
  {
    findings := [];
    var remaining := expected;
    ghost var found: set<nat> := {};
    while remaining != {}
      invariant remaining <= expected && |findings| == |found|
      invariant found == set scope | scope in expected - remaining && !Granted(observed, scope)
      invariant forall f :: f in findings <==>
        f.control == ExpectedMissing && f.resource == GRAPH && f.permission in found && !f.excepted
    {
      var scope :| scope in remaining;
      remaining := remaining - {scope};
      if !Granted(observed, scope) {
        findings := findings + [Finding(ExpectedMissing, GRAPH, scope, false)];
        found := found + {scope};
      }
    }
    assert found == Missing(target, observed);
  }

  lemma SurplusMore(target: Target, done: set<Grant>, grant: Grant)
    ensures Surplus(target, done + {grant}) == Surplus(target, done) + if Wanted(target, grant) then {} else {grant}
  {
  }

  lemma ExceptedMore(target: Target, done: set<Grant>, grant: Grant, active: set<(nat, Grant)>)
    ensures Excepted(target, done + {grant}, active) == Excepted(target, done, active)
      + if !Wanted(target, grant) && (target.id, grant) in active then {grant} else {}
  {
    SurplusMore(target, done, grant);
  }

  lemma OneMoreElement(all: set<Grant>, some: set<Grant>, grant: Grant, inAll: bool, inSome: bool)
    requires some <= all && grant !in all && (inSome ==> inAll)
    ensures
      var all', some' := all + (if inAll then {grant} else {}), some + (if inSome then {grant} else {});
      && |some'| == |some| + (if inSome then 1 else 0)
      && |all' - some'| == |all - some| + (if inAll && !inSome then 1 else 0)
  {
    var all', some' := all + (if inAll then {grant} else {}), some + (if inSome then {grant} else {});
    if inSome {
      assert all' - some' == all - some;
    } else if inAll {
      assert some' == some && all' - some' == (all - some) + {grant};
    } else {
      assert all' == all && some' == some;
    }
  }

  /** Counting one more grant. */
  lemma OneMoreGrant(target: Target, done: set<Grant>, grant: Grant, active: set<(nat, Grant)>)
    requires grant !in done
    ensures Surplus(target, done + {grant}) == Surplus(target, done) + if Wanted(target, grant) then {} else {grant}
    ensures |Excepted(target, done + {grant}, active)| == |Excepted(target, done, active)|
      + if !Wanted(target, grant) && (target.id, grant) in active then 1 else 0
    ensures |Surplus(target, done + {grant}) - Excepted(target, done + {grant}, active)|
      == |Surplus(target, done) - Excepted(target, done, active)|
      + if !Wanted(target, grant) && (target.id, grant) !in active then 1 else 0
  {
    SurplusMore(target, done, grant);
    ExceptedMore(target, done, grant, active);
    OneMoreElement(Surplus(target, done), Excepted(target, done, active), grant,
                   !Wanted(target, grant), !Wanted(target, grant) && (target.id, grant) in active);
  }

  /** The findings made so far are those of the surplus grants looked at so far. */
  ghost predicate Reports(findings: seq<Finding>, target: Target, active: set<(nat, Grant)>, surplus: set<Grant>) {
    forall f :: f in findings <==> exists g :: g in surplus && f == FindingFor(target, active, g)
  }

  lemma ReportOneMore(findings: seq<Finding>, target: Target, active: set<(nat, Grant)>, surplus: set<Grant>, grant: Grant)
    requires Reports(findings, target, active, surplus)
    ensures Reports(findings + [FindingFor(target, active, grant)], target, active, surplus + {grant})
  {
    var more := findings + [FindingFor(target, active, grant)];
    forall f ensures f in more <==> exists g :: g in surplus + {grant} && f == FindingFor(target, active, g) {
      assert f in more <==> f in findings || f == FindingFor(target, active, grant);
    }
  }

  /** The grants of one kind that no contract explains. */
  method CountSurplus(target: Target, expected: set<nat>, grants: set<Grant>, active: set<(nat, Grant)>)
    returns (unexpected: nat, excepted: nat, findings: seq<Finding>)
    requires expected == Expected(target)
    ensures unexpected == |Surplus(target, grants) - Excepted(target, grants, active)|
    ensures excepted == |Excepted(target, grants, active)|
    ensures |findings| == unexpected + excepted
    ensures Reports(findings, target, active, Surplus(target, grants))
  {
    unexpected, excepted, findings := 0, 0, [];
    var remaining := grants;
    ghost var done: set<Grant> := {};
    while remaining != {}
      invariant done == grants - remaining && remaining <= grants
      invariant unexpected == |Surplus(target, done) - Excepted(target, done, active)|
      invariant excepted == |Excepted(target, done, active)| && |findings| == unexpected + excepted
      invariant Reports(findings, target, active, Surplus(target, done))
    {
      var grant :| grant in remaining;
      OneMoreGrant(target, done, grant, active);
      ReportOneMore(findings, target, active, Surplus(target, done), grant);
      remaining, done := remaining - {grant}, done + {grant};
      var wanted := grant.Delegated? && grant.resource == GRAPH && grant.permission in expected;
      if wanted && grant.consent in target.allowedConsents {
        continue;
      }
      findings := findings + [FindingFor(target, active, grant)];
      if (target.id, grant) in active {
        excepted := excepted + 1;
      } else {
        unexpected := unexpected + 1;
      }
    }
    assert done == grants;
  }

  method Classify(target: Target, observed: set<Grant>, active: set<(nat, Grant)>) returns (p: Posture)
    ensures p.missing == |Missing(target, observed)|
    ensures p.excepted == |Excepted(target, observed, active)|
    ensures p.unexpected == |Surplus(target, observed) - Excepted(target, observed, active)|
    ensures |p.findings| == p.missing + p.unexpected + p.excepted
    ensures p.alignment == AlignmentOf(p.missing, p.unexpected, p.excepted)
    ensures forall f :: f in p.findings <==>
      || (f.control == ExpectedMissing && f.resource == GRAPH && f.permission in Missing(target, observed) && !f.excepted)
      || exists g :: g in Surplus(target, observed) && f == FindingFor(target, active, g)
  {
    var expected := ExpectedScopes(target);
    var delegated := set g | g in observed && g.Delegated?;
    var application := set g | g in observed && g.ApplicationRole?;
    var findings := CountMissing(target, observed, expected);
    var unexpected, excepted, more := CountSurplus(target, expected, delegated, active);
    var unexpectedRoles, exceptedRoles, evenMore := CountSurplus(target, expected, application, active);
    SurplusSplits(target, observed, active, delegated, application);
    p := Posture(|findings|, unexpected + unexpectedRoles, excepted + exceptedRoles,
                 AlignmentOf(|findings|, unexpected + unexpectedRoles, excepted + exceptedRoles),
                 findings + more + evenMore);
  }

  lemma SurplusSplits(target: Target, observed: set<Grant>, active: set<(nat, Grant)>,
                      delegated: set<Grant>, application: set<Grant>)
    requires delegated == set g | g in observed && g.Delegated?
    requires application == set g | g in observed && g.ApplicationRole?
    ensures |Excepted(target, observed, active)| ==
      |Excepted(target, delegated, active)| + |Excepted(target, application, active)|
    ensures |Surplus(target, observed) - Excepted(target, observed, active)| ==
      |Surplus(target, delegated) - Excepted(target, delegated, active)| +
      |Surplus(target, application) - Excepted(target, application, active)|
    ensures Surplus(target, observed) == Surplus(target, delegated) + Surplus(target, application)
  {
    assert Excepted(target, observed, active) ==
      Excepted(target, delegated, active) + Excepted(target, application, active);
    assert Surplus(target, observed) - Excepted(target, observed, active) ==
      (Surplus(target, delegated) - Excepted(target, delegated, active)) +
      (Surplus(target, application) - Excepted(target, application, active));
  }

  // ---------------------------------------------------------------------------------
  // Theorems
  // ---------------------------------------------------------------------------------

  function Verdict(target: Target, observed: set<Grant>, active: set<(nat, Grant)>): Alignment {
    AlignmentOf(|Missing(target, observed)|,
                |Surplus(target, observed) - Excepted(target, observed, active)|,
                |Excepted(target, observed, active)|)
  }

  /**
   Aligned means: every expected scope is granted on Graph, every grant is an expected
   Graph scope under an allowed consent type, and nothing else is granted. Exceptions
   cannot make a target aligned.
   */
  lemma AlignedExactly(target: Target, observed: set<Grant>, active: set<(nat, Grant)>)
    ensures Verdict(target, observed, active) == Aligned <==>
      && (forall scope | scope in Expected(target) ::
            exists consent :: consent in target.allowedConsents && Delegated(GRAPH, scope, consent) in observed)
      && (forall grant | grant in observed :: Wanted(target, grant))
  {
    var missing, surplus := Missing(target, observed), Surplus(target, observed);
    var excepted := Excepted(target, observed, active);
    assert surplus == (surplus - excepted) + excepted;
    if Verdict(target, observed, active) == Aligned {
      assert missing == {} && surplus == {};
      forall grant | grant in observed ensures Wanted(target, grant) {
        assert grant !in surplus;
      }
      forall scope | scope in Expected(target)
        ensures exists consent :: consent in target.allowedConsents && Delegated(GRAPH, scope, consent) in observed
      {
        assert scope !in missing;
        var consent :| Delegated(GRAPH, scope, consent) in observed;
        assert Wanted(target, Delegated(GRAPH, scope, consent));
      }
    } else if forall grant | grant in observed :: Wanted(target, grant) {
      assert surplus == {} && excepted == {} && surplus - excepted == {};
      assert missing != {};
      var scope :| scope in missing;
      forall consent ensures Delegated(GRAPH, scope, consent) !in observed {
        assert consent == AllPrincipals || consent == OnePrincipal;
      }
    }
  }

  /** Excepted only: nothing is missing and every surplus grant has its own exception. */
  lemma ExceptionApprovedExactly(target: Target, observed: set<Grant>, active: set<(nat, Grant)>)
    ensures Verdict(target, observed, active) == ExceptionApproved <==>
      && Missing(target, observed) == {} && Surplus(target, observed) != {}
      && forall grant | grant in Surplus(target, observed) :: (target.id, grant) in active
  {
    var surplus, excepted := Surplus(target, observed), Excepted(target, observed, active);
    if surplus - excepted == {} {
      forall grant | grant in surplus ensures (target.id, grant) in active {
        assert grant !in surplus - excepted;
      }
      assert surplus == excepted;
    } else {
      var grant :| grant in surplus - excepted;
    }
  }

  function Severity(a: Alignment): nat {
    match a case Aligned => 0 case ExceptionApproved => 1 case NotAligned => 2
  }

  /** More exceptions move findings from unexpected to excepted, one for one, and never worsen the verdict. */
  lemma MoreExceptionsNeverWorsen(target: Target, observed: set<Grant>, few: set<(nat, Grant)>, many: set<(nat, Grant)>)
    requires few <= many
    ensures
      var surplus := Surplus(target, observed);
      && |surplus - Excepted(target, observed, many)| + |Excepted(target, observed, many)| == |surplus|
      && |surplus - Excepted(target, observed, few)| + |Excepted(target, observed, few)| == |surplus|
      && |Excepted(target, observed, few)| <= |Excepted(target, observed, many)|
    ensures Severity(Verdict(target, observed, many)) <= Severity(Verdict(target, observed, few))
  {
    var surplus := Surplus(target, observed);
    var a, b := Excepted(target, observed, few), Excepted(target, observed, many);
    assert a <= b <= surplus;
    assert surplus == (surplus - a) + a && surplus == (surplus - b) + b;
    assert b == a + (b - a);
  }

  /** As exceptions expire, and nothing else changes, the verdict never improves. */
  lemma ExpiryNeverImproves(target: Target, observed: set<Grant>, exceptions: set<GrantException>, now: int, later: int)
    requires now <= later
    ensures Severity(Verdict(target, observed, Active(exceptions, now))) <=
      Severity(Verdict(target, observed, Active(exceptions, later)))
  {
    MoreExceptionsNeverWorsen(target, observed, Active(exceptions, later), Active(exceptions, now));
  }

  // ---------------------------------------------------------------------------------
  // What the sets, the findings and the verdict say about the grants themselves
  // ---------------------------------------------------------------------------------

  /** Some contract of the target lists the scope, or it is User.Read, which every target needs. */
  ghost predicate Needed(target: Target, scope: nat) {
    scope == USER_READ || exists i :: 0 <= i < |target.scopes| && scope in target.scopes[i]
  }

  /** A delegated grant on Graph of a needed scope, in a way the target allows. */
  ghost predicate Explained(target: Target, grant: Grant) {
    exists scope, consent :: Needed(target, scope) && consent in target.allowedConsents
      && grant == Delegated(GRAPH, scope, consent)
  }

  /** An unexpired exception for exactly this target and grant. */
  ghost predicate Excused(target: Target, grant: Grant, exceptions: set<GrantException>, now: int) {
    exists until :: now < until && GrantException(target.id, grant, until) in exceptions
  }

  lemma {:induction false} UnionExactly(sets: seq<set<nat>>, x: nat)
    ensures x in Union(sets) <==> exists i :: 0 <= i < |sets| && x in sets[i]
  {
    if sets != [] {
      var init := sets[..|sets| - 1];
      UnionExactly(init, x);
      if x in Union(init) {
        var i :| 0 <= i < |init| && x in init[i];
        assert x in sets[i];
      }
    }
  }

  lemma WantedExactly(target: Target, grant: Grant)
    ensures Wanted(target, grant) <==> Explained(target, grant)
  {
    UnionExactly(target.scopes, grant.permission);
    assert Wanted(target, grant) ==> grant == Delegated(GRAPH, grant.permission, grant.consent);
  }

  lemma ExcusedExactly(target: Target, grant: Grant, exceptions: set<GrantException>, now: int)
    ensures (target.id, grant) in Active(exceptions, now) <==> Excused(target, grant, exceptions, now)
  {
    if (target.id, grant) in Active(exceptions, now) {
      var e :| e in exceptions && now < e.expiresAt && (e.target, e.grant) == (target.id, grant);
      assert e == GrantException(target.id, grant, e.expiresAt);
    }
    if Excused(target, grant, exceptions, now) {
      var until :| now < until && GrantException(target.id, grant, until) in exceptions;
      var e := GrantException(target.id, grant, until);
      assert (e.target, e.grant) in Active(exceptions, now);
    }
  }

  /** The three sets behind the counters, member by member. */
  lemma SetsAreExact(target: Target, observed: set<Grant>, exceptions: set<GrantException>, now: int, scope: nat, grant: Grant)
    ensures scope in Missing(target, observed) <==>
      Needed(target, scope) && forall consent :: Delegated(GRAPH, scope, consent) !in observed
    ensures grant in Surplus(target, observed) <==> grant in observed && !Explained(target, grant)
    ensures grant in Excepted(target, observed, Active(exceptions, now)) <==>
      grant in observed && !Explained(target, grant) && Excused(target, grant, exceptions, now)
  {
    UnionExactly(target.scopes, scope);
    WantedExactly(target, grant);
    ExcusedExactly(target, grant, exceptions, now);
    if !Granted(observed, scope) {
      forall consent ensures Delegated(GRAPH, scope, consent) !in observed {
        assert consent == AllPrincipals || consent == OnePrincipal;
      }
    }
  }

  /**
   The finding about a surplus grant names its resource and permission, says whether it
   has an exception, and has the control of its kind: an application permission, a needed
   scope under a consent type that is not allowed, or a delegated permission nobody needs.
   */
  lemma FindingTells(target: Target, exceptions: set<GrantException>, now: int, grant: Grant)
    ensures
      var f := FindingFor(target, Active(exceptions, now), grant);
      && f.resource == grant.resource && f.permission == grant.permission
      && (f.excepted <==> Excused(target, grant, exceptions, now))
      && (f.control == ApplicationUnexpected <==> grant.ApplicationRole?)
      && (f.control == ConsentTypeMismatch <==>
          grant.Delegated? && grant.resource == GRAPH && Needed(target, grant.permission))
      && f.control != ExpectedMissing
  {
    UnionExactly(target.scopes, grant.permission);
    ExcusedExactly(target, grant, exceptions, now);
  }

  /** Not aligned: a needed scope is not granted at all, or an unexplained grant has no unexpired exception. */
  lemma NotAlignedExactly(target: Target, observed: set<Grant>, exceptions: set<GrantException>, now: int)
    ensures Verdict(target, observed, Active(exceptions, now)) == NotAligned <==>
      || (exists scope :: Needed(target, scope) && forall consent :: Delegated(GRAPH, scope, consent) !in observed)
      || (exists grant :: grant in observed && !Explained(target, grant) && !Excused(target, grant, exceptions, now))
  {
    var active := Active(exceptions, now);
    var missing, excepted := Missing(target, observed), Excepted(target, observed, active);
    var unexpected := Surplus(target, observed) - excepted;
    forall scope ensures scope in missing <==>
      (Needed(target, scope) && forall consent :: Delegated(GRAPH, scope, consent) !in observed)
    {
      SetsAreExact(target, observed, exceptions, now, scope, ApplicationRole(GRAPH, scope));
    }
    forall grant ensures grant in unexpected <==>
      (grant in observed && !Explained(target, grant) && !Excused(target, grant, exceptions, now))
    {
      SetsAreExact(target, observed, exceptions, now, USER_READ, grant);
    }
    if missing != {} {
      var scope :| scope in missing;
    }
    if unexpected != {} {
      var grant :| grant in unexpected;
    }
  }
}
