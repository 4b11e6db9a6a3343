/**
 Signed exceptions of the control library: the validator that rejects ambiguous overlaps,
 and the matching of one exception to a finding.
 */
module ControlExceptions {
  import opened Common

  datatype ObjectKind = User | Group | Application | ServicePrincipal

  datatype Subject =
    | ControlWide
    | DirectoryObject(kind: ObjectKind, id: nat)
    | ActiveProfile(profile: nat)

  /** The pair of strings a subject is compared by; "*" and the UUIDs are numbers here. */
  datatype KeyKind = WideKey | ObjectKey(kind: ObjectKind) | ProfileKey

  datatype Key = Key(kind: KeyKind, value: nat)

  function SubjectKey(subject: Subject): Key {
    match subject
    case ControlWide => Key(WideKey, 0)
    case DirectoryObject(kind, id) => Key(ObjectKey(kind), id)
    case ActiveProfile(profile) => Key(ProfileKey, profile)
  }

  datatype Exception = Exception(
    id: nat, control: nat, major: nat, subject: Subject, issuedAt: int, expiresAt: int)

  /** `controls` gives the signed major version of each configured control. */
  datatype Library = Library(enabled: set<nat>, controls: map<nat, nat>, exceptions: seq<Exception>)

  // ---------------------------------------------------------------------------------
  // The validator
  // ---------------------------------------------------------------------------------

  /** An exception names an enabled control at its signed major version. */
  predicate Exact(library: Library, e: Exception) {
    e.control in library.controls && e.major == library.controls[e.control]
  }

  /** Two exceptions of one control and major version that could both apply to a subject. */
  predicate Overlap(a: Exception, b: Exception) {
    && a.control == b.control && a.major == b.major
    && (a.subject == b.subject || a.subject == ControlWide || b.subject == ControlWide)
  }

  ghost predicate Unambiguous(exceptions: seq<Exception>) {
    forall i, j | 0 <= i < j < |exceptions| :: !Overlap(exceptions[i], exceptions[j])
  }

  ghost predicate Acceptable(library: Library) {
    && library.controls.Keys == library.enabled
    && (forall i | 0 <= i < |library.exceptions| :: Exact(library, library.exceptions[i]))
    && Unambiguous(library.exceptions)
  }

  type Groups = map<(nat, nat), seq<Key>>

  /** Where the keys of one group come from: its `n`-th key belongs to the exception `origin[n]`. */
  ghost predicate Collects(exceptions: seq<Exception>, upTo: nat, group: (nat, nat), keys: seq<Key>, origin: seq<nat>)
    requires upTo <= |exceptions|
  {
    && |origin| == |keys|
    && (forall n | 0 <= n < |origin| ::
          && origin[n] < upTo && (exceptions[origin[n]].control, exceptions[origin[n]].major) == group
          && keys[n] == SubjectKey(exceptions[origin[n]].subject))
    && (forall n, m | 0 <= n < m < |origin| :: origin[n] < origin[m])
    && (forall i | 0 <= i < upTo && (exceptions[i].control, exceptions[i].major) == group :: i in origin)
  }

  predicate InGroup(e: Exception, group: (nat, nat)) {
    (e.control, e.major) == group
  }

  /** The keys of one group among the first `upTo` exceptions, in order. */
  function KeysOf(exceptions: seq<Exception>, upTo: nat, group: (nat, nat)): seq<Key>
    requires upTo <= |exceptions|
  {
    if upTo == 0 then []
    else if InGroup(exceptions[upTo - 1], group) then
      KeysOf(exceptions, upTo - 1, group) + [SubjectKey(exceptions[upTo - 1].subject)]
    else KeysOf(exceptions, upTo - 1, group)
  }

  function OriginOf(exceptions: seq<Exception>, upTo: nat, group: (nat, nat)): seq<nat>
    requires upTo <= |exceptions|
  {
    if upTo == 0 then []
    else if InGroup(exceptions[upTo - 1], group) then OriginOf(exceptions, upTo - 1, group) + [upTo - 1]
    else OriginOf(exceptions, upTo - 1, group)
  }

  lemma {:induction false} KeysAreCollected(exceptions: seq<Exception>, upTo: nat, group: (nat, nat))
    requires upTo <= |exceptions|
    ensures Collects(exceptions, upTo, group, KeysOf(exceptions, upTo, group), OriginOf(exceptions, upTo, group))
  {
    if upTo > 0 {
      KeysAreCollected(exceptions, upTo - 1, group);
      CollectsMore(exceptions, upTo - 1, group, KeysOf(exceptions, upTo - 1, group), OriginOf(exceptions, upTo - 1, group));
    }
  }

  /** The dictionary the validator fills holds exactly the non-empty groups. */
  ghost predicate Grouped(exceptions: seq<Exception>, upTo: nat, groups: Groups)
    requires upTo <= |exceptions|
  {
    && (forall g | g in groups :: groups[g] == KeysOf(exceptions, upTo, g))
    && (forall g: (nat, nat) | g !in groups :: KeysOf(exceptions, upTo, g) == [])
  }

  lemma CollectsMore(exceptions: seq<Exception>, upTo: nat, group: (nat, nat), keys: seq<Key>, origin: seq<nat>)
    requires upTo < |exceptions| && Collects(exceptions, upTo, group, keys, origin)
    ensures
      if (exceptions[upTo].control, exceptions[upTo].major) == group
      then Collects(exceptions, upTo + 1, group, keys + [SubjectKey(exceptions[upTo].subject)], origin + [upTo])
      else Collects(exceptions, upTo + 1, group, keys, origin)
  {
    var longer := origin + [upTo];
    assert forall i :: i in longer <==> i in origin || i == upTo;
  }

  predicate AllDifferent(keys: seq<Key>) {
    forall n, m | 0 <= n < m < |keys| :: keys[n] != keys[m]
  }

  /** The checks on one group of selectors. */
  predicate GroupFits(keys: seq<Key>) {
    AllDifferent(keys) && ((exists n :: 0 <= n < |keys| && keys[n].kind == WideKey) ==> |keys| <= 1)
  }

  predicate Apart(a: Key, b: Key) {
    a != b && a.kind != WideKey && b.kind != WideKey
  }

  lemma GroupFitsPairwise(keys: seq<Key>)
    ensures GroupFits(keys) <==> forall n, m | 0 <= n < m < |keys| :: Apart(keys[n], keys[m])
  {
    if !GroupFits(keys) && AllDifferent(keys) {
      var n :| 0 <= n < |keys| && keys[n].kind == WideKey;
      assert !Apart(keys[0], keys[if n == 0 then 1 else n]);
    }
  }

  lemma ApartExactly(a: Exception, b: Exception)
    requires a.control == b.control && a.major == b.major
    ensures Apart(SubjectKey(a.subject), SubjectKey(b.subject)) <==> !Overlap(a, b)
  {
  }

  /** One group fits exactly when no two of its exceptions overlap. */
  lemma GroupFitsExactly(exceptions: seq<Exception>, group: (nat, nat), keys: seq<Key>, origin: seq<nat>)
    requires Collects(exceptions, |exceptions|, group, keys, origin)
    ensures GroupFits(keys) <==>
      forall n, m | 0 <= n < m < |origin| :: !Overlap(exceptions[origin[n]], exceptions[origin[m]])
  {
    GroupFitsPairwise(keys);
    forall n, m | 0 <= n < m < |origin|
      ensures Apart(keys[n], keys[m]) <==> !Overlap(exceptions[origin[n]], exceptions[origin[m]])
    {
      ApartExactly(exceptions[origin[n]], exceptions[origin[m]]);
    }
  }

  /** Two exceptions of one group that fits do not overlap. */
  lemma NoOverlapInGroup(exceptions: seq<Exception>, group: (nat, nat), keys: seq<Key>, origin: seq<nat>, i: nat, j: nat)
    requires Collects(exceptions, |exceptions|, group, keys, origin) && GroupFits(keys)
    requires i < j < |exceptions|
    requires (exceptions[i].control, exceptions[i].major) == group == (exceptions[j].control, exceptions[j].major)
    ensures !Overlap(exceptions[i], exceptions[j])
  {
    GroupFitsExactly(exceptions, group, keys, origin);
    assert i in origin && j in origin;
    var n :| 0 <= n < |origin| && origin[n] == i;
    var m :| 0 <= m < |origin| && origin[m] == j;
    assert n < m;
  }

  /** All groups fit exactly when no two exceptions overlap. */
  lemma GroupsFitExactly(exceptions: seq<Exception>, groups: Groups)
    requires Grouped(exceptions, |exceptions|, groups)
    ensures Unambiguous(exceptions) <==> forall g | g in groups :: GroupFits(groups[g])
  {
    if Unambiguous(exceptions) {
      forall g | g in groups ensures GroupFits(groups[g]) {
        KeysAreCollected(exceptions, |exceptions|, g);
        GroupFitsExactly(exceptions, g, groups[g], OriginOf(exceptions, |exceptions|, g));
      }
    }
    if forall g | g in groups :: GroupFits(groups[g]) {
      forall i, j | 0 <= i < j < |exceptions| ensures !Overlap(exceptions[i], exceptions[j]) {
        var g := (exceptions[i].control, exceptions[i].major);
        if (exceptions[j].control, exceptions[j].major) == g {
          KeysAreCollected(exceptions, |exceptions|, g);
          var keys := KeysOf(exceptions, |exceptions|, g);
          assert GroupFits(keys) by {
            assert g in groups || keys == [];
          }
          NoOverlapInGroup(exceptions, g, keys, OriginOf(exceptions, |exceptions|, g), i, j);
        }
      }
    }
  }

  /** Counts distinct keys as a set does. */
  method DistinctKeys(keys: seq<Key>) returns (distinct: bool)
    ensures distinct <==> AllDifferent(keys)
  {
    for n := 0 to |keys|
      invariant AllDifferent(keys[..n])
    {
      if keys[n] in keys[..n] {
        return false;
      }
    }
    assert keys[..|keys|] == keys;
    return true;
  }

  method GroupsFit(groups: Groups) returns (fit: bool)
    ensures fit <==> forall g | g in groups :: GroupFits(groups[g])
  {
    var remaining := groups.Keys;
    while remaining != {}
      invariant remaining <= groups.Keys
      invariant forall g | g in groups && g !in remaining :: GroupFits(groups[g])
    {
      var g :| g in remaining;
      var distinct := DistinctKeys(groups[g]);
      if !distinct || ((exists k :: k in groups[g] && k.kind == WideKey) && |groups[g]| > 1) {
        assert !GroupFits(groups[g]);
        return false;
      }
      assert GroupFits(groups[g]);
      remaining := remaining - {g};
    }
    return true;
  }

  /** The first loop: every exception is exact, and its key goes to its group. */
  method CollectGroups(library: Library) returns (exact: bool, groups: Groups)
    ensures exact <==> forall i | 0 <= i < |library.exceptions| :: Exact(library, library.exceptions[i])
    ensures exact ==> Grouped(library.exceptions, |library.exceptions|, groups)
  {
    var exceptions := library.exceptions;
    groups := map[];
    for i := 0 to |exceptions|
      invariant forall j | 0 <= j < i :: Exact(library, exceptions[j])
      invariant Grouped(exceptions, i, groups)
    {
      var e := exceptions[i];
      if e.control !in library.controls || e.major != library.controls[e.control] {
        assert !Exact(library, exceptions[i]);
        return false, groups;
      }
      var group := (e.control, e.major);
      if group !in groups {
        groups := groups[group := []];
      }
      groups := groups[group := groups[group] + [SubjectKey(e.subject)]];
    }
    exact := true;
  }

  method Validate(library: Library) returns (accepted: bool)
    ensures accepted <==> Acceptable(library)
  {
    if library.controls.Keys != library.enabled {
      return false;
    }
    var exact, groups := CollectGroups(library);
    if !exact {
      return false;
    }
    GroupsFitExactly(library.exceptions, groups);
    accepted := GroupsFit(groups);
  }

  // ---------------------------------------------------------------------------------
  // Matching
  // ---------------------------------------------------------------------------------

  predicate Applies(e: Exception, control: nat, major: nat, subject: Subject, at: int) {
    && e.control == control && e.major == major && e.issuedAt <= at < e.expiresAt
    && (e.subject == ControlWide || e.subject == subject)
  }

  function FirstMatch(exceptions: seq<Exception>, control: nat, major: nat, subject: Subject, at: int): Option<Exception> {
    if exceptions == [] then None
    else if Applies(exceptions[0], control, major, subject, at) then Some(exceptions[0])
    else FirstMatch(exceptions[1..], control, major, subject, at)
  }

  lemma KeysAreExact(a: Subject, b: Subject)
    ensures SubjectKey(a) == SubjectKey(b) <==> a == b
  {
  }

  method MatchingException(exceptions: seq<Exception>, control: nat, major: nat, subject: Subject, at: int)
    returns (found: Option<Exception>)
    ensures found == FirstMatch(exceptions, control, major, subject, at)
  {
    var key := SubjectKey(subject);
    for i := 0 to |exceptions|
      invariant FirstMatch(exceptions, control, major, subject, at) ==
        FirstMatch(exceptions[i..], control, major, subject, at)
    {
      var e := exceptions[i];
      assert exceptions[i..][1..] == exceptions[i + 1..];
      if e.control != control || e.major != major || at < e.issuedAt || at >= e.expiresAt {
        continue;
      }
      KeysAreExact(e.subject, subject);
      KeysAreExact(e.subject, ControlWide);
      var exceptionKey := SubjectKey(e.subject);
      if exceptionKey == SubjectKey(ControlWide) || exceptionKey == key {
        return Some(e);
      }
    }
    assert exceptions[|exceptions|..] == [];
    return None;
  }

  lemma {:induction false} FirstMatchExactly(exceptions: seq<Exception>, control: nat, major: nat, subject: Subject, at: int)
    ensures
      var found := FirstMatch(exceptions, control, major, subject, at);
      if found.Some? then found.value in exceptions && Applies(found.value, control, major, subject, at)
      else forall e | e in exceptions :: !Applies(e, control, major, subject, at)
  {
    if exceptions != [] {
      FirstMatchExactly(exceptions[1..], control, major, subject, at);
      assert forall e :: e in exceptions <==> e == exceptions[0] || e in exceptions[1..];
    }
  }

  /**
   The answer is the first exception of this control and version, for all subjects or this
   one, that has been issued and has not expired; there is none exactly if none is such.
   */
  lemma {:induction false} FirstMatchTells(exceptions: seq<Exception>, control: nat, major: nat, subject: Subject, at: int)
    returns (i: nat)
    ensures i <= |exceptions|
    ensures forall j | 0 <= j < i && exceptions[j].control == control && exceptions[j].major == major
                       && exceptions[j].subject in {ControlWide, subject} ::
      at < exceptions[j].issuedAt || exceptions[j].expiresAt <= at
    ensures
      var found := FirstMatch(exceptions, control, major, subject, at);
      if i == |exceptions| then found == None
      else
        && found == Some(exceptions[i]) && exceptions[i].control == control && exceptions[i].major == major
        && exceptions[i].subject in {ControlWide, subject} && exceptions[i].issuedAt <= at < exceptions[i].expiresAt
  {
    if exceptions == [] || Applies(exceptions[0], control, major, subject, at) {
      i := 0;
    } else {
      i := FirstMatchTells(exceptions[1..], control, major, subject, at);
      i := i + 1;
    }
  }

  /** Two exceptions overlap exactly if both select some one subject. */
  lemma OverlapExactly(a: Exception, b: Exception)
    requires a.issuedAt < a.expiresAt && b.issuedAt < b.expiresAt
    ensures Overlap(a, b) <==> exists subject ::
      Applies(a, a.control, a.major, subject, a.issuedAt) && Applies(b, a.control, a.major, subject, b.issuedAt)
  {
    if Overlap(a, b) {
      var subject := if a.subject == ControlWide then b.subject else a.subject;
      assert Applies(a, a.control, a.major, subject, a.issuedAt) && Applies(b, a.control, a.major, subject, b.issuedAt);
    }
  }

  lemma BothApply(a: Exception, b: Exception, control: nat, major: nat, subject: Subject, at: int, at': int)
    requires Applies(a, control, major, subject, at) && Applies(b, control, major, subject, at')
    ensures Overlap(a, b)
  {
  }

  /** In an accepted library at most one exception can ever apply to a finding. */
  lemma AtMostOneApplies(library: Library, i: nat, j: nat, control: nat, major: nat, subject: Subject, at: int, at': int)
    requires Acceptable(library) && i < |library.exceptions| && j < |library.exceptions|
    requires Applies(library.exceptions[i], control, major, subject, at)
    requires Applies(library.exceptions[j], control, major, subject, at')
    ensures i == j
  {
    BothApply(library.exceptions[i], library.exceptions[j], control, major, subject, at, at');
    BothApply(library.exceptions[j], library.exceptions[i], control, major, subject, at', at);
  }

  /** The answer does not depend on the order of the exceptions. */
  lemma OrderDoesNotMatter(library: Library, shuffled: seq<Exception>, control: nat, major: nat, subject: Subject, at: int)
    requires Acceptable(library) && multiset(shuffled) == multiset(library.exceptions)
    ensures FirstMatch(shuffled, control, major, subject, at) == FirstMatch(library.exceptions, control, major, subject, at)
  {
    var a, b := library.exceptions, shuffled;
    FirstMatchExactly(a, control, major, subject, at);
    FirstMatchExactly(b, control, major, subject, at);
    assert forall e :: e in a <==> e in multiset(a);
    assert forall e :: e in b <==> e in multiset(b);
    var x, y := FirstMatch(a, control, major, subject, at), FirstMatch(b, control, major, subject, at);
    if x.Some? && y.Some? {
      var i :| 0 <= i < |a| && a[i] == x.value;
      var j :| 0 <= j < |a| && a[j] == y.value;
      AtMostOneApplies(library, i, j, control, major, subject, at, at);
    }
  }

  /** One exception is returned exactly when an unexpired one matches, and it is that one. */
  lemma MatchIsTheOnlyOne(library: Library, i: nat, control: nat, major: nat, subject: Subject, at: int)
    requires Acceptable(library) && i < |library.exceptions|
    ensures Applies(library.exceptions[i], control, major, subject, at) <==>
      FirstMatch(library.exceptions, control, major, subject, at) == Some(library.exceptions[i])
  {
    FirstMatchExactly(library.exceptions, control, major, subject, at);
    if Applies(library.exceptions[i], control, major, subject, at) {
      assert library.exceptions[i] in library.exceptions;
      var found := FirstMatch(library.exceptions, control, major, subject, at).value;
      var j :| 0 <= j < |library.exceptions| && library.exceptions[j] == found;
      AtMostOneApplies(library, i, j, control, major, subject, at, at);
    }
  }
}
