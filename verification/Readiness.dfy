/**
 Workload-identity readiness: a fixed playbook of read-only nodes, the report of a run that
 halted, and the correlation of permission and credential evidence by identity.
 */
module Readiness {
  import opened Common
  import opened Ordering
  import opened PlaybookDag
  import opened PlaybookManifest

  datatype Alignment = Aligned | ExceptionApproved | NotAligned | NotEvaluated

  /** Severities count up from critical (0) to info (4). */
  datatype Finding = Finding(severity: nat, control: string, id: string, alignment: Alignment)

  /** One target of a node's evidence, under its opaque workload-identity reference. */
  datatype Target = Target(identity: string, reference: string, alignment: Alignment, approved: nat)

  datatype Evidence = Evidence(targets: seq<Target>, findings: seq<Finding>)

  // ---------------------------------------------------------------------------------
  // Correlation
  // ---------------------------------------------------------------------------------

  function Combined(permission: Alignment, credential: Alignment): Alignment {
    if permission == NotEvaluated || credential == NotEvaluated then NotEvaluated
    else if permission == NotAligned || credential == NotAligned then NotAligned
    else if permission == ExceptionApproved || credential == ExceptionApproved then ExceptionApproved
    else Aligned
  }

  /** One row of the full outer join; a side without evidence is `None`. */
  datatype Row = Row(
    identity: string, servicePrincipal: Option<string>, application: Option<string>,
    alignment: Alignment, permission: Alignment, credential: Alignment, approved: nat)

  /** The target with this identity, if there is one. */
  function Lookup(targets: seq<Target>, identity: string): Option<Target> {
    if targets == [] then None
    else if targets[0].identity == identity then Some(targets[0])
    else Lookup(targets[1..], identity)
  }

  function AlignmentOf(side: Option<Target>): Alignment {
    if side.Some? then side.value.alignment else NotEvaluated
  }

  function ReferenceOf(side: Option<Target>): Option<string> {
    if side.Some? then Some(side.value.reference) else None
  }

  function ApprovedOf(side: Option<Target>): nat {
    if side.Some? then side.value.approved else 0
  }

  function RowFor(identity: string, permission: Option<Target>, credential: Option<Target>): Row {
    Row(identity, ReferenceOf(permission), ReferenceOf(credential),
        Combined(AlignmentOf(permission), AlignmentOf(credential)),
        AlignmentOf(permission), AlignmentOf(credential), ApprovedOf(permission) + ApprovedOf(credential))
  }

  /** The deployment's opaque reference for a playbook finding, from identity and control. */
  type Reference = (string, string) -> string

  const MAPPING_INCOMPLETE := "WORKLOAD_IDENTITY_MAPPING_INCOMPLETE"
  const COMBINED_RISK := "WORKLOAD_IDENTITY_COMBINED_RISK"

  /** The extra finding a row gives rise to, if any. */
  function ExtraFor(refer: Reference, identity: string, permission: Option<Target>, credential: Option<Target>): Option<Finding> {
    if permission.None? || credential.None? then
      Some(Finding(1, MAPPING_INCOMPLETE, refer(identity, MAPPING_INCOMPLETE), NotEvaluated))
    else if permission.value.alignment == NotAligned && credential.value.alignment == NotAligned then
      Some(Finding(0, COMBINED_RISK, refer(identity, COMBINED_RISK), NotAligned))
    else None
  }

  predicate Unique(targets: seq<Target>) {
    forall i, j | 0 <= i < j < |targets| :: targets[i].identity != targets[j].identity
  }

  predicate Names(targets: seq<Target>, identity: string) {
    exists i :: 0 <= i < |targets| && targets[i].identity == identity
  }

  function Identities(targets: seq<Target>): (s: set<string>)
    ensures forall identity :: identity in s <==> Names(targets, identity)
  {
    var s := set i | 0 <= i < |targets| :: targets[i].identity;
    assert forall i | 0 <= i < |targets| :: targets[i].identity in s;
    s
  }

  lemma NamesMore(targets: seq<Target>, i: nat)
    requires i < |targets|
    ensures forall x :: Names(targets[..i + 1], x) <==> Names(targets[..i], x) || x == targets[i].identity
  {
    forall x ensures Names(targets[..i + 1], x) <==> Names(targets[..i], x) || x == targets[i].identity {
      if Names(targets[..i], x) {
        var k :| 0 <= k < i && targets[..i][k].identity == x;
        assert targets[..i + 1][k].identity == x;
      }
      assert targets[..i + 1][i] == targets[i];
    }
  }

  lemma UniqueMore(targets: seq<Target>, i: nat)
    requires i < |targets|
    ensures Unique(targets[..i + 1]) <==> Unique(targets[..i]) && !Names(targets[..i], targets[i].identity)
  {
    var init, more := targets[..i], targets[..i + 1];
    assert forall k | 0 <= k < i :: more[k] == init[k];
    if Unique(more) {
      assert forall k | 0 <= k < i :: init[k].identity != more[i].identity;
    }
  }

  /** Counting distinct identities finds every duplicate. */
  lemma {:induction false} DuplicatesShrinkTheSet(targets: seq<Target>, n: nat)
    requires n <= |targets|
    ensures |Identities(targets[..n])| <= n
    ensures |Identities(targets[..n])| == n <==> Unique(targets[..n])
  {
    if n == 0 {
      assert Identities(targets[..0]) == {};
    } else {
      DuplicatesShrinkTheSet(targets, n - 1);
      UniqueMore(targets, n - 1);
      OneMoreIdentity(targets, n - 1);
    }
  }

  lemma OneMoreIdentity(targets: seq<Target>, i: nat)
    requires i < |targets|
    ensures Identities(targets[..i + 1]) == Identities(targets[..i]) + {targets[i].identity}
  {
    NamesMore(targets, i);
  }

  predicate Increasing(s: seq<string>) {
    forall i, j | 0 <= i < j < |s| :: StringLe(s[i], s[j]) && s[i] != s[j]
  }

  /** The identities of both sides in increasing order. */
  ghost predicate Merged(p: seq<Target>, c: seq<Target>, identities: seq<string>) {
    && Increasing(identities)
    && forall identity :: identity in identities <==> Names(p, identity) || Names(c, identity)
  }

  function Rows(identities: seq<string>, p: seq<Target>, c: seq<Target>): seq<Row> {
    seq(|identities|, i requires 0 <= i < |identities| =>
      RowFor(identities[i], Lookup(p, identities[i]), Lookup(c, identities[i])))
  }

  function Extras(refer: Reference, identities: seq<string>, p: seq<Target>, c: seq<Target>): seq<Finding> {
    if identities == [] then []
    else
      var last := identities[|identities| - 1];
      var extra := ExtraFor(refer, last, Lookup(p, last), Lookup(c, last));
      Extras(refer, identities[..|identities| - 1], p, c) + if extra.Some? then [extra.value] else []
  }

  predicate FindingLe(a: Finding, b: Finding) {
    a.severity < b.severity || (a.severity == b.severity && TupleLe([a.control, a.id], [b.control, b.id]))
  }

  datatype Joined = Joined(rows: seq<Row>, findings: seq<Finding>)

  lemma {:induction false} InsertIncreases(x: string, s: seq<string>)
    requires Increasing(s) && x !in s
    ensures Increasing(Insert(StringLe, x, s))
    ensures forall y :: y in Insert(StringLe, x, s) <==> y == x || y in s
  {
    StringOrder();
    InsertMembers(x, s);
    if s != [] && !StringLe(x, s[0]) {
      var rest := Insert(StringLe, x, s[1..]);
      InsertIncreases(x, s[1..]);
      forall j | 0 <= j < |rest| ensures StringLe(s[0], rest[j]) && s[0] != rest[j] {
        assert rest[j] in rest;
      }
    }
  }

  lemma InsertMembers(x: string, s: seq<string>)
    ensures forall y :: y in Insert(StringLe, x, s) <==> y == x || y in s
  {
    var r := Insert(StringLe, x, s);
    assert forall y :: y in r <==> y in multiset(r);
    assert forall y :: y in s <==> y in multiset(s);
  }

  /** `sorted(set(...) | set(...))`. */
  method MergeIdentities(p: seq<Target>, c: seq<Target>) returns (identities: seq<string>)
    ensures Merged(p, c, identities)
  {
    identities := [];
    for i := 0 to |p|
      invariant Increasing(identities)
      invariant forall x :: x in identities <==> Names(p[..i], x)
    {
      assert forall x :: Names(p[..i + 1], x) <==> Names(p[..i], x) || x == p[i].identity by { NamesMore(p, i); }
      if p[i].identity !in identities {
        InsertIncreases(p[i].identity, identities);
        identities := Insert(StringLe, p[i].identity, identities);
      }
    }
    assert p[..|p|] == p;
    for i := 0 to |c|
      invariant Increasing(identities)
      invariant forall x :: x in identities <==> Names(p, x) || Names(c[..i], x)
    {
      assert forall x :: Names(c[..i + 1], x) <==> Names(c[..i], x) || x == c[i].identity by { NamesMore(c, i); }
      if c[i].identity !in identities {
        InsertIncreases(c[i].identity, identities);
        identities := Insert(StringLe, c[i].identity, identities);
      }
    }
    assert c[..|c|] == c;
  }

  lemma ExtrasGrow(refer: Reference, identities: seq<string>, i: nat, p: seq<Target>, c: seq<Target>, findings: seq<Finding>)
    requires i < |identities|
    ensures
      var extra := ExtraFor(refer, identities[i], Lookup(p, identities[i]), Lookup(c, identities[i]));
      findings + Extras(refer, identities[..i + 1], p, c) ==
        (findings + Extras(refer, identities[..i], p, c)) + if extra.Some? then [extra.value] else []
  {
    assert identities[..i + 1][..i] == identities[..i];
  }

  /** The loop over the merged identities. */
  method JoinRows(refer: Reference, identities: seq<string>, p: Evidence, c: Evidence)
    returns (rows: seq<Row>, findings: seq<Finding>)
    ensures rows == Rows(identities, p.targets, c.targets)
    ensures findings == p.findings + c.findings + Extras(refer, identities, p.targets, c.targets)
  {
    rows, findings := [], p.findings + c.findings;
    for i := 0 to |identities|
      invariant rows == Rows(identities, p.targets, c.targets)[..i]
      invariant findings == p.findings + c.findings + Extras(refer, identities[..i], p.targets, c.targets)
    {
      var identity := identities[i];
      var permission, credential := Lookup(p.targets, identity), Lookup(c.targets, identity);
      ExtrasGrow(refer, identities, i, p.targets, c.targets, p.findings + c.findings);
      if permission.None? || credential.None? {
        findings := findings + [Finding(1, MAPPING_INCOMPLETE, refer(identity, MAPPING_INCOMPLETE), NotEvaluated)];
      } else if permission.value.alignment == NotAligned && credential.value.alignment == NotAligned {
        findings := findings + [Finding(0, COMBINED_RISK, refer(identity, COMBINED_RISK), NotAligned)];
      }
      rows := rows + [RowFor(identity, permission, credential)];
    }
    assert identities[..|identities|] == identities;
  }

  /** Joins the evidence of both nodes; duplicate identities on one side are an error. */
  method Correlate(refer: Reference, p: Evidence, c: Evidence) returns (r: Option<Joined>, ghost identities: seq<string>)
    ensures r.Some? <==> Unique(p.targets) && Unique(c.targets)
    ensures r.Some? ==>
      && Merged(p.targets, c.targets, identities)
      && r.value.rows == Rows(identities, p.targets, c.targets)
      && r.value.findings == Sort(FindingLe, p.findings + c.findings + Extras(refer, identities, p.targets, c.targets))
  {
    DuplicatesShrinkTheSet(p.targets, |p.targets|);
    DuplicatesShrinkTheSet(c.targets, |c.targets|);
    assert p.targets[..|p.targets|] == p.targets && c.targets[..|c.targets|] == c.targets;
    if |Identities(p.targets)| != |p.targets| || |Identities(c.targets)| != |c.targets| {
      return None, [];
    }
    var merged := MergeIdentities(p.targets, c.targets);
    var rows, findings := JoinRows(refer, merged, p, c);
    return Some(Joined(rows, Sort(FindingLe, findings))), merged;
  }

  // ---------------------------------------------------------------------------------
  // The join is full and promotes nothing
  // ---------------------------------------------------------------------------------

  lemma {:induction false} LookupExactly(targets: seq<Target>, identity: string)
    ensures
      var found := Lookup(targets, identity);
      if found.Some? then found.value in targets && found.value.identity == identity
      else !Names(targets, identity)
  {
    if targets != [] {
      LookupExactly(targets[1..], identity);
      if Names(targets, identity) && targets[0].identity != identity {
        var i :| 0 <= i < |targets| && targets[i].identity == identity;
        assert targets[1..][i - 1].identity == identity;
      }
    }
  }

  /** Every target of either side is in exactly one row, with its alignment unchanged. */
  lemma EveryTargetHasItsRow(p: seq<Target>, c: seq<Target>, identities: seq<string>, t: Target)
    requires Merged(p, c, identities) && Unique(p) && Unique(c) && (t in p || t in c)
    ensures exists i ::
      && 0 <= i < |identities| && identities[i] == t.identity
      && (t in p ==> Rows(identities, p, c)[i].permission == t.alignment
                     && Rows(identities, p, c)[i].servicePrincipal == Some(t.reference))
      && (t in c ==> Rows(identities, p, c)[i].credential == t.alignment
                     && Rows(identities, p, c)[i].application == Some(t.reference))
  {
    LookupExactly(p, t.identity);
    LookupExactly(c, t.identity);
    if t in p {
      var k :| 0 <= k < |p| && p[k] == t;
      assert Names(p, t.identity);
      SameIdentity(p, t, Lookup(p, t.identity).value);
    }
    if t in c {
      var k :| 0 <= k < |c| && c[k] == t;
      assert Names(c, t.identity);
      SameIdentity(c, t, Lookup(c, t.identity).value);
    }
    assert t.identity in identities;
    var i :| 0 <= i < |identities| && identities[i] == t.identity;
  }

  lemma SameIdentity(targets: seq<Target>, a: Target, b: Target)
    requires Unique(targets) && a in targets && b in targets && a.identity == b.identity
    ensures a == b
  {
    var i :| 0 <= i < |targets| && targets[i] == a;
    var j :| 0 <= j < |targets| && targets[j] == b;
  }

  /** A row is aligned exactly when both sides exist and are aligned. */
  lemma AlignedExactly(p: seq<Target>, c: seq<Target>, identities: seq<string>, i: nat)
    requires i < |identities|
    ensures Rows(identities, p, c)[i].alignment == Aligned <==>
      && (exists t :: t in p && t.identity == identities[i]) && (exists t :: t in c && t.identity == identities[i])
      && Lookup(p, identities[i]).Some? && Lookup(p, identities[i]).value.alignment == Aligned
      && Lookup(c, identities[i]).Some? && Lookup(c, identities[i]).value.alignment == Aligned
  {
    LookupExactly(p, identities[i]);
    LookupExactly(c, identities[i]);
  }

  /** The row is never better than either side, and unevaluated as soon as one is missing. */
  lemma NothingIsPromoted(permission: Option<Target>, credential: Option<Target>)
    ensures
      var row := RowFor("", permission, credential);
      && (permission.None? || credential.None? ==> row.alignment == NotEvaluated)
      && Rank(row.alignment) >= Rank(row.permission) && Rank(row.alignment) >= Rank(row.credential)
      && (row.alignment == row.permission || row.alignment == row.credential)
      && (row.alignment == NotEvaluated <==> NotEvaluated in {row.permission, row.credential})
      && (row.alignment == NotAligned <==>
          NotAligned in {row.permission, row.credential} && NotEvaluated !in {row.permission, row.credential})
  {
  }

  /** A row says of each side exactly what its target says, or that there is none, and adds up the approved exceptions. */
  lemma RowsAreExact(p: seq<Target>, c: seq<Target>, identities: seq<string>, i: nat)
    requires Unique(p) && Unique(c) && i < |identities|
    ensures
      var row := Rows(identities, p, c)[i];
      && row.identity == identities[i]
      && (forall t | t in p && t.identity == identities[i] ::
            row.permission == t.alignment && row.servicePrincipal == Some(t.reference))
      && (!Names(p, identities[i]) ==> row.permission == NotEvaluated && row.servicePrincipal == None)
      && (forall t | t in c && t.identity == identities[i] ::
            row.credential == t.alignment && row.application == Some(t.reference))
      && (!Names(c, identities[i]) ==> row.credential == NotEvaluated && row.application == None)
    ensures
      var identity, approved := identities[i], Rows(identities, p, c)[i].approved;
      && (forall t, u | t in p && u in c && t.identity == u.identity == identity :: approved == t.approved + u.approved)
      && (forall t | t in p && t.identity == identity && !Names(c, identity) :: approved == t.approved)
      && (forall u | u in c && u.identity == identity && !Names(p, identity) :: approved == u.approved)
  {
    var identity := identities[i];
    LookupTells(p, identity);
    LookupTells(c, identity);
  }

  lemma LookupTells(targets: seq<Target>, identity: string)
    requires Unique(targets)
    ensures Lookup(targets, identity).Some? <==> Names(targets, identity)
    ensures Lookup(targets, identity).Some? ==>
      Lookup(targets, identity).value in targets && Lookup(targets, identity).value.identity == identity
    ensures forall t | t in targets && t.identity == identity :: Lookup(targets, identity) == Some(t)
  {
    LookupExactly(targets, identity);
    if Lookup(targets, identity).Some? {
      var found := Lookup(targets, identity).value;
      var k :| 0 <= k < |targets| && targets[k] == found;
      forall t | t in targets && t.identity == identity ensures t == found {
        SameIdentity(targets, t, found);
      }
    }
    forall t | t in targets && t.identity == identity ensures Names(targets, identity) {
      var k :| 0 <= k < |targets| && targets[k] == t;
    }
  }

  function Rank(a: Alignment): nat {
    match a case Aligned => 0 case ExceptionApproved => 1 case NotAligned => 2 case NotEvaluated => 3
  }

  /** An identity on one side only, or not aligned on both. */
  predicate NeedsExtra(p: seq<Target>, c: seq<Target>, identity: string) {
    var permission, credential := Lookup(p, identity), Lookup(c, identity);
    permission.None? || credential.None?
    || (permission.value.alignment == NotAligned && credential.value.alignment == NotAligned)
  }

  /** The identities that give rise to an extra finding. */
  function ExtraIdentities(p: seq<Target>, c: seq<Target>): set<string> {
    set identity | identity in Identities(p) + Identities(c) && NeedsExtra(p, c, identity)
  }

  /** Those among the given identities. */
  function ExtraAmong(identities: seq<string>, p: seq<Target>, c: seq<Target>): set<string> {
    set identity | identity in identities && NeedsExtra(p, c, identity)
  }

  lemma ExtraAmongGrows(identities: seq<string>, p: seq<Target>, c: seq<Target>)
    requires Increasing(identities) && identities != []
    ensures
      var init, last := identities[..|identities| - 1], identities[|identities| - 1];
      Increasing(init) && |ExtraAmong(identities, p, c)| == |ExtraAmong(init, p, c)| + if NeedsExtra(p, c, last) then 1 else 0
  {
    var init, last := identities[..|identities| - 1], identities[|identities| - 1];
    assert identities == init + [last] && last !in init;
    assert ExtraAmong(identities, p, c) == ExtraAmong(init, p, c) + if NeedsExtra(p, c, last) then {last} else {};
  }

  lemma {:induction false} ExtrasCount(refer: Reference, identities: seq<string>, p: seq<Target>, c: seq<Target>)
    requires Increasing(identities)
    ensures |Extras(refer, identities, p, c)| == |ExtraAmong(identities, p, c)|
    decreases |identities|
  {
    if identities == [] {
      assert ExtraAmong(identities, p, c) == {};
    } else {
      ExtraAmongGrows(identities, p, c);
      ExtrasCount(refer, identities[..|identities| - 1], p, c);
    }
  }

  /** An extra finding: the mapping is incomplete, or both sides are not aligned at once. */
  predicate IsExtra(refer: Reference, p: seq<Target>, c: seq<Target>, identity: string, f: Finding) {
    var permission, credential := Lookup(p, identity), Lookup(c, identity);
    || ((permission.None? || credential.None?)
        && f == Finding(1, MAPPING_INCOMPLETE, refer(identity, MAPPING_INCOMPLETE), NotEvaluated))
    || (permission.Some? && credential.Some?
        && permission.value.alignment == credential.value.alignment == NotAligned
        && f == Finding(0, COMBINED_RISK, refer(identity, COMBINED_RISK), NotAligned))
  }

  /** The extra findings are exactly those that some identity gives rise to. */
  lemma {:induction false} ExtrasAreExact(refer: Reference, identities: seq<string>, p: seq<Target>, c: seq<Target>, f: Finding)
    ensures f in Extras(refer, identities, p, c) <==>
      exists i :: 0 <= i < |identities| && IsExtra(refer, p, c, identities[i], f)
    decreases |identities|
  {
    if identities != [] {
      var init, last := identities[..|identities| - 1], identities[|identities| - 1];
      ExtrasAreExact(refer, init, p, c, f);
      assert forall i | 0 <= i < |init| :: init[i] == identities[i];
      if IsExtra(refer, p, c, last, f) {
        assert IsExtra(refer, p, c, identities[|identities| - 1], f);
      }
    }
  }

  lemma {:induction false} DistinctCount(s: seq<string>)
    requires forall i, j | 0 <= i < j < |s| :: s[i] != s[j]
    ensures |set x | x in s| == |s|
  {
    if s == [] {
      assert (set x | x in s) == {};
    } else {
      var init, last := s[..|s| - 1], s[|s| - 1];
      DistinctCount(init);
      assert s == init + [last] && last !in init;
      assert (set x | x in s) == (set x | x in init) + {last};
    }
  }

  /** Severity first, then control, then ID. */
  lemma FindingLeExactly(a: Finding, b: Finding)
    ensures FindingLe(a, b) <==>
      || a.severity < b.severity
      || (a.severity == b.severity && a.control != b.control && StringLe(a.control, b.control))
      || (a.severity == b.severity && a.control == b.control && StringLe(a.id, b.id))
  {
    StringOrder();
    var x, y := [a.control, a.id], [b.control, b.id];
    assert TupleLe(x, y) == if x[0] == y[0] then TupleLe(x[1..], y[1..]) else StringLe(x[0], y[0]);
    assert x[1..] == [a.id] && y[1..] == [b.id];
    assert StringLe(a.id, a.id) && [a.id][1..] == [] && [b.id][1..] == [];
    assert TupleLe([a.id], [b.id]) == if a.id == b.id then TupleLe([], []) else StringLe(a.id, b.id);
  }

  lemma FindingOrder()
    ensures Preorder(FindingLe)
  {
    TupleOrder();
    forall a, b, c | FindingLe(a, b) && FindingLe(b, c) ensures FindingLe(a, c) {
      assert TupleLe([a.control, a.id], [b.control, b.id]) && TupleLe([b.control, b.id], [c.control, c.id]) ==>
        TupleLe([a.control, a.id], [c.control, c.id]);
    }
    forall a, b ensures FindingLe(a, b) || FindingLe(b, a) {
      assert TupleLe([a.control, a.id], [b.control, b.id]) || TupleLe([b.control, b.id], [a.control, a.id]);
    }
  }

  /**
   The findings of the report, worst first, are all findings of both sides and, for each identity that
   needs one, exactly one more.
   */
  lemma FindingsAreConserved(refer: Reference, p: Evidence, c: Evidence, identities: seq<string>)
    requires Merged(p.targets, c.targets, identities)
    ensures
      var extras := Extras(refer, identities, p.targets, c.targets);
      var findings := Sort(FindingLe, p.findings + c.findings + extras);
      && multiset(findings) == multiset(p.findings) + multiset(c.findings) + multiset(extras)
      && |findings| == |p.findings| + |c.findings| + |ExtraIdentities(p.targets, c.targets)|
      && Sorted(FindingLe, findings)
      && forall i, j | 0 <= i < j < |findings| :: findings[i].severity <= findings[j].severity
  {
    FindingOrder();
    SortSorts(FindingLe, p.findings + c.findings + Extras(refer, identities, p.targets, c.targets));
    ExtrasCount(refer, identities, p.targets, c.targets);
    assert ExtraIdentities(p.targets, c.targets) == ExtraAmong(identities, p.targets, c.targets);
    var findings := Sort(FindingLe, p.findings + c.findings + Extras(refer, identities, p.targets, c.targets));
    assert |findings| == |multiset(findings)|;
  }

  // ---------------------------------------------------------------------------------
  // What a report can hold
  // ---------------------------------------------------------------------------------

  const MAX_TARGETS := 100
  const MAX_FINDINGS := 10_000
  const MAX_APPROVED := 1_000

  /** A node result counts the findings and targets of its evidence within these bounds. */
  predicate Countable(e: Evidence) {
    |e.findings| <= MAX_FINDINGS && |e.targets| <= MAX_TARGETS
  }

  predicate WithinLimits(joined: Joined) {
    && |joined.rows| <= MAX_TARGETS && |joined.findings| <= MAX_FINDINGS
    && forall i | 0 <= i < |joined.rows| :: joined.rows[i].approved <= MAX_APPROVED
  }

  /** The evidence of both nodes fits into one report. */
  predicate Fits(p: Evidence, c: Evidence) {
    && |Identities(p.targets) + Identities(c.targets)| <= MAX_TARGETS
    && |p.findings| + |c.findings| + |ExtraIdentities(p.targets, c.targets)| <= MAX_FINDINGS
    && forall identity | identity in Identities(p.targets) + Identities(c.targets) ::
         ApprovedOf(Lookup(p.targets, identity)) + ApprovedOf(Lookup(c.targets, identity)) <= MAX_APPROVED
  }

  lemma ApprovedFits(p: seq<Target>, c: seq<Target>, identities: seq<string>)
    requires Merged(p, c, identities)
    ensures Identities(p) + Identities(c) == set x | x in identities
    ensures
      (forall i | 0 <= i < |identities| :: Rows(identities, p, c)[i].approved <= MAX_APPROVED) ==
      (forall x | x in Identities(p) + Identities(c) :: ApprovedOf(Lookup(p, x)) + ApprovedOf(Lookup(c, x)) <= MAX_APPROVED)
  {
    var both := Identities(p) + Identities(c);
    assert both == set x | x in identities;
    assert forall i | 0 <= i < |identities| :: identities[i] in both;
    assert forall i | 0 <= i < |identities| ::
      Rows(identities, p, c)[i].approved == ApprovedOf(Lookup(p, identities[i])) + ApprovedOf(Lookup(c, identities[i]));
    forall x | x in both ensures exists i :: 0 <= i < |identities| && identities[i] == x {}
  }

  lemma FitsExactly(refer: Reference, p: Evidence, c: Evidence, identities: seq<string>)
    requires Merged(p.targets, c.targets, identities)
    ensures
      var findings := Sort(FindingLe, p.findings + c.findings + Extras(refer, identities, p.targets, c.targets));
      WithinLimits(Joined(Rows(identities, p.targets, c.targets), findings)) == Fits(p, c)
  {
    FindingsAreConserved(refer, p, c, identities);
    DistinctCount(identities);
    ApprovedFits(p.targets, c.targets, identities);
  }

  function Alias(letter: char, n: nat): string {
    seq(n + 1, _ => letter)
  }

  /** Baselines of this size whose workloads have nothing to do with each other. */
  function Unrelated(letter: char, size: nat): Evidence {
    Evidence(seq(size, i requires 0 <= i < size => Target(Alias(letter, i), "", Aligned, 0)), [])
  }

  lemma AliasesDiffer(letter: char, size: nat)
    ensures Unique(Unrelated(letter, size).targets) && |Identities(Unrelated(letter, size).targets)| == size
  {
    var targets := Unrelated(letter, size).targets;
    forall i, j | 0 <= i < j < size ensures targets[i].identity != targets[j].identity {
      assert |targets[i].identity| == i + 1 && |targets[j].identity| == j + 1;
    }
    DuplicatesShrinkTheSet(targets, size);
    assert targets[..size] == targets;
  }

  lemma UnrelatedIdentities(a: nat, b: nat)
    ensures |Identities(Unrelated('p', a).targets) + Identities(Unrelated('c', b).targets)| == a + b
  {
    AliasesDiffer('p', a);
    AliasesDiffer('c', b);
    var x, y := Identities(Unrelated('p', a).targets), Identities(Unrelated('c', b).targets);
    forall i | i in x ensures i !in y {
      assert i[0] == 'p';
    }
    assert x !! y;
  }

  lemma NothingApproved(letter: char, size: nat, identity: string)
    ensures ApprovedOf(Lookup(Unrelated(letter, size).targets, identity)) == 0
  {
    LookupExactly(Unrelated(letter, size).targets, identity);
  }

  /** Two baselines of unrelated workloads fit into one report exactly if there are at most 100 of them altogether. */
  lemma UnrelatedBaselinesFitExactly(a: nat, b: nat)
    ensures
      var p, c := Unrelated('p', a), Unrelated('c', b);
      Unique(p.targets) && Unique(c.targets) && (Fits(p, c) <==> a + b <= 100)
  {
    var p, c := Unrelated('p', a), Unrelated('c', b);
    AliasesDiffer('p', a);
    AliasesDiffer('c', b);
    UnrelatedIdentities(a, b);
    SubsetAtMost(ExtraIdentities(p.targets, c.targets), Identities(p.targets) + Identities(c.targets));
    forall i ensures ApprovedOf(Lookup(p.targets, i)) == 0 == ApprovedOf(Lookup(c.targets, i)) {
      NothingApproved('p', a, i);
      NothingApproved('c', b, i);
    }
  }

  lemma SubsetAtMost(a: set<string>, b: set<string>)
    requires a <= b
    ensures |a| <= |b|
  {
    assert b == a + (b - a);
  }

  /** A node result holds up to 100 targets, so two admissible baselines of 60 need not fit. */
  lemma UnrelatedBaselinesDoNotFit()
    ensures
      var p, c := Unrelated('p', 60), Unrelated('c', 60);
      Unique(p.targets) && Unique(c.targets) && Countable(p) && Countable(c) && !Fits(p, c)
  {
    UnrelatedBaselinesFitExactly(60, 60);
  }

  // ---------------------------------------------------------------------------------
  // Running the playbook
  // ---------------------------------------------------------------------------------

  /** What a node's handler does. `Escapes` stands for errors the playbook does not catch. */
  datatype NodeReply = Collected(evidence: Evidence) | PolicyRefused(reason: string) | EvidenceFailed | Escapes

  /** What the policy check after the last node finds. */
  datatype Recheck = Unchanged | PolicyChanged(reason: string) | RecheckEscapes

  datatype NodeStatus = Completed | Failed(reason: string) | NotRun

  datatype NodeResult = NodeResult(node: nat, status: NodeStatus)

  datatype Report =
    | Halted(nodes: seq<NodeResult>, findings: seq<Finding>)
    | Complete(nodes: seq<NodeResult>, rows: seq<Row>, findings: seq<Finding>)

  const EVIDENCE_FAILED := "EVIDENCE_VALIDATION_FAILED"
  const NODE_NOT_EVALUATED := "PLAYBOOK_NODE_NOT_EVALUATED"

  function AllCompleted(order: seq<nat>, n: nat): (results: seq<NodeResult>)
    requires n <= |order|
    ensures |results| == n
  {
    seq(n, i requires 0 <= i < n => NodeResult(order[i], Completed))
  }

  /** A completed prefix, one failed node, and the rest not run. */
  function HaltedNodes(order: seq<nat>, at: nat, reason: string): seq<NodeResult>
    requires at < |order|
  {
    AllCompleted(order, at) + [NodeResult(order[at], Failed(reason))]
    + seq(|order| - at - 1, i requires 0 <= i < |order| - at - 1 => NodeResult(order[at + 1 + i], NotRun))
  }

  function NodeIds(results: seq<NodeResult>): seq<nat> {
    seq(|results|, i requires 0 <= i < |results| => results[i].node)
  }

  /** Completed before the failed node, its reason at it, and not run after it. */
  predicate StatusesTell(nodes: seq<NodeResult>, at: nat, reason: string) {
    forall i | 0 <= i < |nodes| ::
      && (nodes[i].status == Completed <==> i < at)
      && (nodes[i].status == Failed(reason) <==> i == at)
      && (nodes[i].status == NotRun <==> i > at)
  }

  method HaltedReport(order: seq<nat>, completed: seq<NodeResult>, at: nat, reason: string) returns (r: Report)
    requires at < |order| && completed == AllCompleted(order, at)
    ensures r.Halted? && r.nodes == HaltedNodes(order, at, reason)
    ensures |r.nodes| == |order| && StatusesTell(r.nodes, at, reason)
    ensures |r.findings| == |order| - at && forall f | f in r.findings :: f.alignment == NotEvaluated
    ensures forall i | 0 <= i < |r.findings| ::
      r.findings[i].control == NODE_NOT_EVALUATED && r.findings[i].severity == if i == 0 then 1 else 2
  {
    var nodes := completed + [NodeResult(order[at], Failed(reason))];
    var findings := [Finding(1, NODE_NOT_EVALUATED, "", NotEvaluated)];
    for i := at + 1 to |order|
      invariant nodes == HaltedNodes(order, at, reason)[..i]
      invariant |findings| == i - at && forall f | f in findings :: f.alignment == NotEvaluated
      invariant forall k | 0 <= k < |findings| ::
        findings[k].control == NODE_NOT_EVALUATED && findings[k].severity == if k == 0 then 1 else 2
    {
      nodes := nodes + [NodeResult(order[i], NotRun)];
      findings := findings + [Finding(2, NODE_NOT_EVALUATED, "", NotEvaluated)];
    }
    assert HaltedNodes(order, at, reason)[..|order|] == HaltedNodes(order, at, reason);
    r := Halted(nodes, findings);
  }

  /** A node that collected evidence whose counts its result can hold. */
  predicate Passes(reply: NodeReply) {
    reply.Collected? && Countable(reply.evidence)
  }

  /** Both nodes pass and the policy is still the same. */
  predicate AllGood(replies: nat -> NodeReply, recheck: Recheck) {
    Passes(replies(0)) && Passes(replies(1)) && recheck == Unchanged
  }

  /** A complete report: every node completed, and the join of the two nodes' evidence. */
  ghost predicate IsComplete(r: Report, refer: Reference, order: seq<nat>, p: Evidence, c: Evidence) {
    && r.Complete? && r.nodes == AllCompleted(order, |order|)
    && (forall i | 0 <= i < |r.nodes| :: r.nodes[i].status == Completed)
    && exists identities ::
         && Merged(p.targets, c.targets, identities)
         && r.rows == Rows(identities, p.targets, c.targets)
         && r.findings == Sort(FindingLe, p.findings + c.findings + Extras(refer, identities, p.targets, c.targets))
  }

  /** Why a run halts at a node: all before it passed, and it failed itself or the policy changed after the last one. */
  predicate HaltsAt(order: seq<nat>, at: nat, replies: nat -> NodeReply, recheck: Recheck, reason: string)
    requires at < |order|
  {
    && (forall i | 0 <= i < at :: Passes(replies(order[i])))
    && (|| replies(order[at]) == PolicyRefused(reason)
        || (replies(order[at]) == EvidenceFailed && reason == EVIDENCE_FAILED)
        || (at == |order| - 1 && Passes(replies(order[at])) && recheck == PolicyChanged(reason)))
  }

  ghost predicate Halts(order: seq<nat>, replies: nat -> NodeReply, recheck: Recheck) {
    exists at: nat, reason :: at < |order| && HaltsAt(order, at, replies, recheck, reason)
  }

  ghost predicate IsHalted(r: Report, order: seq<nat>, replies: nat -> NodeReply, recheck: Recheck) {
    r.Halted? && exists at: nat, reason {:trigger HaltedNodes(order, at, reason)} ::
      at < |order| && r.nodes == HaltedNodes(order, at, reason) && StatusesTell(r.nodes, at, reason)
      && HaltsAt(order, at, replies, recheck, reason)
  }

  /** Runs the nodes in order, up to the first that fails. */
  method RunNodes(order: seq<nat>, replies: nat -> NodeReply, ghost recheck: Recheck)
    returns (stop: Option<Report>, escaped: bool, results: seq<NodeResult>)
    ensures stop.None? && !escaped <==> forall i | 0 <= i < |order| :: Passes(replies(order[i]))
    ensures stop.None? && !escaped ==> results == AllCompleted(order, |order|)
    ensures stop.Some? ==> IsHalted(stop.value, order, replies, recheck)
    ensures escaped ==> !Halts(order, replies, recheck)
  {
    results := [];
    for i := 0 to |order|
      invariant results == AllCompleted(order, i)
      invariant forall j | 0 <= j < i :: Passes(replies(order[j]))
    {
      var reply := replies(order[i]);
      if reply.PolicyRefused? || reply.EvidenceFailed? {
        var reason := if reply.PolicyRefused? then reply.reason else EVIDENCE_FAILED;
        var report := HaltedReport(order, results, i, reason);
        assert HaltsAt(order, i, replies, recheck, reason);
        return Some(report), false, results;
      }
      if reply.Escapes? || !Countable(reply.evidence) {
        EscapesAt(order, i, replies, recheck);
        return None, true, results;
      }
      results := results + [NodeResult(order[i], Completed)];
    }
    return None, false, results;
  }

  /** A run does not get past a node whose error, or whose evidence, is not caught. */
  lemma EscapesAt(order: seq<nat>, i: nat, replies: nat -> NodeReply, recheck: Recheck)
    requires i < |order|
    requires replies(order[i]).Escapes? || (replies(order[i]).Collected? && !Countable(replies(order[i]).evidence))
    requires forall j | 0 <= j < i :: Passes(replies(order[j]))
    ensures !Halts(order, replies, recheck)
  {
    forall at: nat, reason | at < |order| ensures !HaltsAt(order, at, replies, recheck, reason) {
      if at < i {
        assert Passes(replies(order[at]));
      } else if i < at {
        assert !Passes(replies(order[i]));
      }
    }
  }

  /** The order lists the two nodes, each once. */
  predicate TwoNodes(order: seq<nat>) {
    |order| == 2 && 0 in order && 1 in order
  }

  /** Without a policy change after the last node, a run whose nodes all pass does not halt. */
  lemma NoHalt(order: seq<nat>, replies: nat -> NodeReply, recheck: Recheck)
    requires (forall i | 0 <= i < |order| :: Passes(replies(order[i]))) && !recheck.PolicyChanged?
    ensures !Halts(order, replies, recheck)
  {
    forall at: nat, reason | at < |order| ensures !HaltsAt(order, at, replies, recheck, reason) {
      assert Passes(replies(order[at]));
    }
  }

  /** The report of a run whose nodes all passed under an unchanged policy. */
  method JoinReport(refer: Reference, order: seq<nat>, results: seq<NodeResult>, p: Evidence, c: Evidence)
    returns (r: Option<Report>)
    requires results == AllCompleted(order, |order|)
    ensures r.Some? <==> Unique(p.targets) && Unique(c.targets) && Fits(p, c)
    ensures r.Some? ==> IsComplete(r.value, refer, order, p, c)
  {
    var joined;
    ghost var identities;
    joined, identities := Correlate(refer, p, c);
    if joined.None? {
      return None;
    }
    FitsExactly(refer, p, c, identities);
    if !WithinLimits(joined.value) {
      return None;
    }
    return Some(Complete(results, joined.value.rows, joined.value.findings));
  }

  /** The run once the order is fixed. */
  method Evaluate(refer: Reference, order: seq<nat>, permissionNode: nat, credentialNode: nat, replies: nat -> NodeReply,
                  recheck: Recheck)
    returns (r: Option<Report>)
    requires TwoNodes(order) && permissionNode < 2 && credentialNode == 1 - permissionNode
    ensures r.Some? && r.value.Complete? <==>
      AllGood(replies, recheck) && Joins(replies(permissionNode).evidence, replies(credentialNode).evidence)
    ensures r.Some? && r.value.Complete? ==>
      IsComplete(r.value, refer, order, replies(permissionNode).evidence, replies(credentialNode).evidence)
    ensures r.Some? && r.value.Halted? <==> Halts(order, replies, recheck)
    ensures r.Some? && r.value.Halted? ==> IsHalted(r.value, order, replies, recheck)
  {
    var stop, escaped, results := RunNodes(order, replies, recheck);
    BothPassed(order, replies);
    if stop.Some? {
      return stop;
    }
    if escaped {
      return None;
    }
    if recheck.PolicyChanged? {
      assert results[..1] == AllCompleted(order, 1);
      var report := HaltedReport(order, results[..1], 1, recheck.reason);
      assert HaltsAt(order, 1, replies, recheck, recheck.reason);
      return Some(report);
    }
    NoHalt(order, replies, recheck);
    if recheck.RecheckEscapes? {
      return None;
    }
    r := JoinReport(refer, order, results, replies(permissionNode).evidence, replies(credentialNode).evidence);
  }

  /** The evidence of both nodes can be joined into one report. */
  predicate Joins(p: Evidence, c: Evidence) {
    Unique(p.targets) && Unique(c.targets) && Fits(p, c)
  }

  /**
   One run of the playbook, which has one node for each of the two contracts (the service
   insists on it). Every report lists each node exactly once in the playbook's order. It is
   complete exactly when nothing failed, the policy did not change, no identity is
   duplicated and the join fits into a report; it is halted, with a completed prefix, one
   failed node and the rest not run, exactly when a node fails after others that passed or
   the policy has changed; otherwise there is no report.
   */
  method Collect(refer: Reference, dag: Dag, permissionNode: nat, credentialNode: nat, replies: nat -> NodeReply,
                 recheck: Recheck)
    returns (r: Option<Report>, order: seq<nat>)
    requires Acyclic(dag) && |dag.deps| == 2 && permissionNode < 2 && credentialNode == 1 - permissionNode
    ensures order == Layers(dag, {}) && TwoNodes(order)
    ensures r.Some? ==> NodeIds(r.value.nodes) == order
    ensures r.Some? && r.value.Complete? <==>
      AllGood(replies, recheck) && Joins(replies(permissionNode).evidence, replies(credentialNode).evidence)
    ensures r.Some? && r.value.Complete? ==>
      IsComplete(r.value, refer, order, replies(permissionNode).evidence, replies(credentialNode).evidence)
    ensures r.Some? && r.value.Halted? <==> Halts(order, replies, recheck)
    ensures r.Some? && r.value.Halted? ==> IsHalted(r.value, order, replies, recheck)
    // Whatever the report, a node it lists as completed passed.
    ensures r.Some? ==> OnlyPassedComplete(r.value, replies)
  {
    order := OrderedNodes(dag);
    OrderHasEveryNode(dag);
    r := Evaluate(refer, order, permissionNode, credentialNode, replies, recheck);
    BothPassed(order, replies);
    if r.Some? {
      ReportIsInOrder(r.value, order, replies, recheck);
    }
  }

  ghost predicate OnlyPassedComplete(r: Report, replies: nat -> NodeReply) {
    forall i | 0 <= i < |r.nodes| :: r.nodes[i].status == Completed ==> Passes(replies(r.nodes[i].node))
  }

  /** A report lists every node once, in order, and as completed only what passed. */
  lemma ReportIsInOrder(r: Report, order: seq<nat>, replies: nat -> NodeReply, recheck: Recheck)
    requires if r.Complete? then r.nodes == AllCompleted(order, |order|) && forall i | 0 <= i < |order| :: Passes(replies(order[i]))
             else IsHalted(r, order, replies, recheck)
    ensures NodeIds(r.nodes) == order && OnlyPassedComplete(r, replies)
  {
    if r.Halted? {
      var at: nat, reason :| at < |order| && r.nodes == HaltedNodes(order, at, reason)
        && StatusesTell(r.nodes, at, reason) && HaltsAt(order, at, replies, recheck, reason);
      HaltedListsEveryNode(order, at, reason);
      forall i | 0 <= i < |r.nodes| && r.nodes[i].status == Completed ensures Passes(replies(r.nodes[i].node)) {
        assert i < at;
        assert NodeIds(r.nodes)[i] == order[i];
      }
    }
  }

  lemma BothPassed(order: seq<nat>, replies: nat -> NodeReply)
    requires TwoNodes(order)
    ensures (forall i | 0 <= i < |order| :: Passes(replies(order[i]))) <==> Passes(replies(0)) && Passes(replies(1))
  {
    assert order == [order[0], order[1]];
  }

  lemma LayersMembers(dag: Dag)
    requires Acyclic(dag)
    ensures Distinct(Layers(dag, {}))
    ensures forall x: nat :: x in Layers(dag, {}) <==> x < |dag.deps|
  {
    LayersComplete(dag, {});
  }

  lemma OrderHasEveryNode(dag: Dag)
    requires Acyclic(dag) && |dag.deps| == 2
    ensures TwoNodes(Layers(dag, {}))
  {
    LayersMembers(dag);
    DistinctLength(Layers(dag, {}), 2);
  }

  /** A halted report lists every node once, in order. */
  lemma HaltedListsEveryNode(order: seq<nat>, at: nat, reason: string)
    requires at < |order|
    ensures NodeIds(HaltedNodes(order, at, reason)) == order
  {
  }
}
