/**
 Normalization of nested policy documents before they are digested: bounded, without
 `@odata.` annotations, and with object keys in order.
 */
module PolicyNormalization {
  import opened Common
  import opened Ordering

  /** A decoded JSON document; `Foreign` stands for any other kind of value. */
  datatype Json =
    | Null
    | Bool(b: bool)
    | Number(n: int)
    | Text(s: string)
    | List(items: seq<Json>)
    | Object(entries: seq<Entry>)
    | Foreign

  datatype Entry = Entry(key: string, value: Json)

  const MAX_DEPTH: nat := 12
  const MAX_STRING: nat := 2048
  const MAX_LIST_ITEMS: nat := 2000
  const MAX_OBJECT_KEYS: nat := 100
  const MAX_KEY_LENGTH: nat := 128
  const ODATA := "@odata."

  predicate NoControl(s: string) {
    forall i | 0 <= i < |s| :: s[i] as int >= 32
  }

  predicate IsAnnotation(key: string) {
    |ODATA| <= |key| && key[..|ODATA|] == ODATA
  }

  predicate SafeKey(key: string) {
    |key| <= MAX_KEY_LENGTH && NoControl(key)
  }

  predicate SafeText(s: string) {
    |s| <= MAX_STRING && NoControl(s)
  }

  predicate ByKey(a: Entry, b: Entry) {
    StringLe(a.key, b.key)
  }

  function Kept(entries: seq<Entry>): (kept: seq<Entry>)
    ensures forall e :: e in kept <==> e in entries && !IsAnnotation(e.key)
    ensures |kept| <= |entries|
  {
    if entries == [] then []
    else if IsAnnotation(entries[0].key) then Kept(entries[1..])
    else [entries[0]] + Kept(entries[1..])
  }

  /** The kept entries in key order. */
  function Ordered(entries: seq<Entry>): (ordered: seq<Entry>)
    ensures forall e :: e in ordered <==> e in entries && !IsAnnotation(e.key)
    ensures |ordered| == |Kept(entries)|
  {
    var kept := Kept(entries);
    var ordered := Sort(ByKey, kept);
    assert multiset(ordered) == multiset(kept);
    assert forall e :: e in ordered <==> e in multiset(ordered);
    assert forall e :: e in kept <==> e in multiset(kept);
    assert |ordered| == |multiset(ordered)| == |kept|;
    ordered
  }

  function Normalize(value: Json, depth: nat): Option<Json>
    decreases value
  {
    if depth > MAX_DEPTH then None
    else match value
      case Null => Some(value)
      case Bool(_) => Some(value)
      case Number(_) => Some(value)
      case Text(s) => if SafeText(s) then Some(value) else None
      case List(items) =>
        if |items| <= MAX_LIST_ITEMS && forall i | 0 <= i < |items| :: Normalize(items[i], depth + 1).Some?
        then Some(List(seq(|items|, i requires 0 <= i < |items| => Normalize(items[i], depth + 1).value)))
        else None
      case Object(entries) =>
        var ordered := Ordered(entries);
        if (forall i | 0 <= i < |ordered| :: SafeKey(ordered[i].key)) && |ordered| <= MAX_OBJECT_KEYS
          && (forall i | 0 <= i < |ordered| :: ordered[i] in entries && Normalize(ordered[i].value, depth + 1).Some?)
        then Some(Object(seq(|ordered|, i requires 0 <= i < |ordered| =>
                   assert ordered[i] in entries;
                   Entry(ordered[i].key, Normalize(ordered[i].value, depth + 1).value))))
        else None
      case Foreign => None
  }

  // ---------------------------------------------------------------------------------
  // Tidy documents
  // ---------------------------------------------------------------------------------

  /** Keys in strictly increasing order. */
  predicate KeysAscend(entries: seq<Entry>) {
    forall i, j | 0 <= i < j < |entries| :: StringLe(entries[i].key, entries[j].key) && entries[i].key != entries[j].key
  }

  /** Within the depth, width and key bounds, without annotations, keys in order. */
  predicate Tidy(value: Json, depth: nat)
    decreases value
  {
    depth <= MAX_DEPTH && match value
      case Null => true
      case Bool(_) => true
      case Number(_) => true
      case Text(s) => SafeText(s)
      case List(items) =>
        |items| <= MAX_LIST_ITEMS && forall i | 0 <= i < |items| :: Tidy(items[i], depth + 1)
      case Object(entries) =>
        && |entries| <= MAX_OBJECT_KEYS && KeysAscend(entries)
        && forall i | 0 <= i < |entries| ::
             SafeKey(entries[i].key) && !IsAnnotation(entries[i].key) && Tidy(entries[i].value, depth + 1)
      case Foreign => false
  }

  /** No object has a key twice, as in every decoded document. */
  predicate WellKeyed(value: Json)
    decreases value
  {
    match value
    case List(items) => forall i | 0 <= i < |items| :: WellKeyed(items[i])
    case Object(entries) =>
      && (forall i, j | 0 <= i < j < |entries| :: entries[i].key != entries[j].key)
      && forall i | 0 <= i < |entries| :: WellKeyed(entries[i].value)
    case _ => true
  }

  // ---------------------------------------------------------------------------------
  // Sorting entries
  // ---------------------------------------------------------------------------------

  predicate DistinctKeys(entries: seq<Entry>) {
    forall i, j | 0 <= i < j < |entries| :: entries[i].key != entries[j].key
  }

  lemma ByKeyOrder()
    ensures Preorder(ByKey)
    ensures forall a, b :: ByKey(a, b) && ByKey(b, a) ==> a.key == b.key
  {
    StringOrder();
    forall a, b, c | ByKey(a, b) && ByKey(b, c) ensures ByKey(a, c) {
      assert StringLe(a.key, b.key) && StringLe(b.key, c.key);
    }
  }

  lemma {:induction false} InsertAscends(x: Entry, s: seq<Entry>)
    requires KeysAscend(s) && forall e | e in s :: e.key != x.key
    ensures KeysAscend(Insert(ByKey, x, s))
  {
    ByKeyOrder();
    if s == [] {
    } else if ByKey(x, s[0]) {
      forall j | 0 <= j < |s| ensures StringLe(x.key, s[j].key) && x.key != s[j].key {
        assert s[j] in s;
        assert ByKey(x, s[0]) && (j > 0 ==> ByKey(s[0], s[j]));
      }
    } else {
      var rest := Insert(ByKey, x, s[1..]);
      InsertAscends(x, s[1..]);
      forall j | 0 <= j < |rest| ensures StringLe(s[0].key, rest[j].key) && s[0].key != rest[j].key {
        assert rest[j] in multiset(rest);
        assert rest[j] == x || rest[j] in s[1..];
        assert s[0] in s;
      }
    }
  }

  lemma {:induction false} SortAscends(s: seq<Entry>)
    requires DistinctKeys(s)
    ensures KeysAscend(Sort(ByKey, s))
  {
    if s != [] {
      SortAscends(s[1..]);
      forall e | e in Sort(ByKey, s[1..]) ensures e.key != s[0].key {
        assert e in multiset(Sort(ByKey, s[1..]));
        assert e in s[1..];
      }
      InsertAscends(s[0], Sort(ByKey, s[1..]));
    }
  }

  lemma {:induction false} KeptDistinct(s: seq<Entry>)
    requires DistinctKeys(s)
    ensures DistinctKeys(Kept(s))
  {
    if s != [] {
      KeptDistinct(s[1..]);
      forall e | e in Kept(s[1..]) ensures e.key != s[0].key {
        assert e in s[1..];
      }
    }
  }

  lemma OrderedAscends(s: seq<Entry>)
    requires DistinctKeys(s)
    ensures KeysAscend(Ordered(s))
  {
    KeptDistinct(s);
    SortAscends(Kept(s));
  }

  lemma {:induction false} KeptAll(s: seq<Entry>)
    requires forall e | e in s :: !IsAnnotation(e.key)
    ensures Kept(s) == s
  {
    if s != [] {
      KeptAll(s[1..]);
      assert s == [s[0]] + s[1..];
    }
  }

  lemma OrderedAlready(s: seq<Entry>)
    requires KeysAscend(s) && forall e | e in s :: !IsAnnotation(e.key)
    ensures Ordered(s) == s
  {
    KeptAll(s);
    ByKeyOrder();
    SortSorts(ByKey, s);
    forall a, b | a in s && b in s && ByKey(a, b) && ByKey(b, a) ensures a == b {
      var i :| 0 <= i < |s| && s[i] == a;
      var j :| 0 <= j < |s| && s[j] == b;
    }
    var sorted := Sort(ByKey, s);
    assert Separates(ByKey, s);
    SortedIsUnique(ByKey, s, sorted);
  }

  /** What an object's ordered entries must satisfy to be normalized. */
  predicate EntriesFit(ordered: seq<Entry>, depth: nat) {
    && |ordered| <= MAX_OBJECT_KEYS
    && forall i | 0 <= i < |ordered| :: SafeKey(ordered[i].key) && Normalize(ordered[i].value, depth).Some?
  }

  function NormalEntries(ordered: seq<Entry>, depth: nat): (r: seq<Entry>)
    requires EntriesFit(ordered, depth)
    ensures |r| == |ordered|
  {
    seq(|ordered|, i requires 0 <= i < |ordered| => Entry(ordered[i].key, Normalize(ordered[i].value, depth).value))
  }

  lemma OrderedIsFrom(s: seq<Entry>, i: nat)
    requires i < |Ordered(s)|
    ensures Ordered(s)[i] in s
  {
    assert Ordered(s)[i] in Ordered(s);
  }

  lemma ObjectFails(entries: seq<Entry>, depth: nat)
    requires depth > MAX_DEPTH || !EntriesFit(Ordered(entries), depth + 1)
    ensures Normalize(Object(entries), depth) == None
  {
  }

  lemma ObjectForm(entries: seq<Entry>, depth: nat)
    ensures
      var ordered := Ordered(entries);
      Normalize(Object(entries), depth) ==
        if depth <= MAX_DEPTH && EntriesFit(ordered, depth + 1) then Some(Object(NormalEntries(ordered, depth + 1)))
        else None
  {
    var ordered := Ordered(entries);
    if depth <= MAX_DEPTH && EntriesFit(ordered, depth + 1) {
      forall i | 0 <= i < |ordered| ensures ordered[i] in entries {
        OrderedIsFrom(entries, i);
      }
      assert Normalize(Object(entries), depth).value.entries == NormalEntries(ordered, depth + 1);
    } else {
      ObjectFails(entries, depth);
    }
  }

  lemma SameNormalEntries(x: seq<Entry>, y: seq<Entry>, depth: nat)
    requires |x| == |y|
    requires forall i | 0 <= i < |x| :: x[i].key == y[i].key && Normalize(x[i].value, depth) == Normalize(y[i].value, depth)
    ensures EntriesFit(x, depth) <==> EntriesFit(y, depth)
    ensures EntriesFit(x, depth) ==> NormalEntries(x, depth) == NormalEntries(y, depth)
  {
  }

  // ---------------------------------------------------------------------------------
  // Normal forms
  // ---------------------------------------------------------------------------------

  /** A normalized document is within the bounds and has no annotations. */
  lemma {:induction false} NormalizedIsTidy(value: Json, depth: nat)
    requires WellKeyed(value) && Normalize(value, depth).Some?
    ensures Tidy(Normalize(value, depth).value, depth)
    decreases value
  {
    match value
    case List(items) =>
      forall i | 0 <= i < |items| ensures Tidy(Normalize(items[i], depth + 1).value, depth + 1) {
        NormalizedIsTidy(items[i], depth + 1);
      }
    case Object(entries) =>
      ObjectForm(entries, depth);
      OrderedAscends(entries);
      var ordered := Ordered(entries);
      forall i | 0 <= i < |ordered|
        ensures !IsAnnotation(ordered[i].key)
        ensures Tidy(Normalize(ordered[i].value, depth + 1).value, depth + 1)
      {
        assert ordered[i] in ordered;
        var k :| 0 <= k < |entries| && entries[k] == ordered[i];
        NormalizedIsTidy(entries[k].value, depth + 1);
      }
      TidyObject(ordered, depth);
    case _ =>
  }

  lemma TidyObject(ordered: seq<Entry>, depth: nat)
    requires depth <= MAX_DEPTH && KeysAscend(ordered) && EntriesFit(ordered, depth + 1)
    requires forall i | 0 <= i < |ordered| ::
      !IsAnnotation(ordered[i].key) && Tidy(Normalize(ordered[i].value, depth + 1).value, depth + 1)
    ensures Tidy(Object(NormalEntries(ordered, depth + 1)), depth)
  {
  }

  /** A tidy document is its own normal form. */
  lemma {:induction false} TidyIsFixed(value: Json, depth: nat)
    requires Tidy(value, depth)
    ensures Normalize(value, depth) == Some(value)
    decreases value
  {
    match value
    case List(items) =>
      forall i | 0 <= i < |items| ensures Normalize(items[i], depth + 1) == Some(items[i]) {
        TidyIsFixed(items[i], depth + 1);
      }
      assert seq(|items|, i requires 0 <= i < |items| => Normalize(items[i], depth + 1).value) == items;
    case Object(entries) =>
      OrderedAlready(entries);
      forall i | 0 <= i < |entries| ensures Normalize(entries[i].value, depth + 1) == Some(entries[i].value) {
        TidyIsFixed(entries[i].value, depth + 1);
      }
      assert Normalize(value, depth).value.entries == entries;
    case _ =>
  }

  /** Normalizing twice is normalizing once; the fixed points are exactly the tidy documents. */
  lemma NormalizationIsIdempotent(value: Json, depth: nat)
    requires WellKeyed(value)
    ensures Normalize(value, depth).Some? ==>
      Normalize(Normalize(value, depth).value, depth) == Normalize(value, depth)
    ensures Normalize(value, depth) == Some(value) <==> Tidy(value, depth)
  {
    if Normalize(value, depth).Some? {
      NormalizedIsTidy(value, depth);
      TidyIsFixed(Normalize(value, depth).value, depth);
    }
    if Tidy(value, depth) {
      TidyIsFixed(value, depth);
    }
  }

  // ---------------------------------------------------------------------------------
  // Exactly what is normalized, and into what
  // ---------------------------------------------------------------------------------

  /** The keys that are no annotations. */
  function KeptKeys(entries: seq<Entry>): set<string> {
    set i | 0 <= i < |entries| && !IsAnnotation(entries[i].key) :: entries[i].key
  }

  /** Not longer than the limit, and no character below the space. */
  ghost predicate Legible(s: string, limit: nat) {
    |s| <= limit && forall c | c in s :: ' ' <= c
  }

  lemma LegibleExactly(s: string)
    ensures SafeText(s) <==> Legible(s, 2048)
    ensures SafeKey(s) <==> Legible(s, 128)
  {
    assert NoControl(s) ==> forall c | c in s :: exists i :: 0 <= i < |s| && s[i] == c && c as int >= 32;
    assert forall i | 0 <= i < |s| :: s[i] in s;
  }

  /** An annotation is a key that starts with these seven characters, or is just them. */
  lemma AnnotationExactly(key: string)
    ensures IsAnnotation(key) <==> exists rest :: key == "@odata." + rest
  {
    if IsAnnotation(key) {
      assert key == "@odata." + key[7..];
    }
  }

  /** Within every bound, annotated entries aside, and without foreign values. */
  ghost predicate WithinBounds(value: Json, depth: nat)
    decreases value
  {
    depth <= 12 && match value
      case Null => true
      case Bool(_) => true
      case Number(_) => true
      case Text(s) => Legible(s, 2048)
      case List(items) => |items| <= 2000 && forall i | 0 <= i < |items| :: WithinBounds(items[i], depth + 1)
      case Object(entries) =>
        && |KeptKeys(entries)| <= 100
        && forall i | 0 <= i < |entries| && !IsAnnotation(entries[i].key) ::
             Legible(entries[i].key, 128) && WithinBounds(entries[i].value, depth + 1)
      case Foreign => false
  }

  lemma {:induction false} KeptCount(entries: seq<Entry>)
    requires DistinctKeys(entries)
    ensures |Kept(entries)| == |KeptKeys(entries)|
  {
    if entries == [] {
      assert KeptKeys(entries) == {};
    } else {
      KeptCount(entries[1..]);
      FirstKeptKey(entries);
    }
  }

  lemma FirstKeptKey(entries: seq<Entry>)
    requires entries != [] && DistinctKeys(entries)
    ensures |KeptKeys(entries)| == |KeptKeys(entries[1..])| + if IsAnnotation(entries[0].key) then 0 else 1
  {
    var first, rest := entries[0].key, KeptKeys(entries[1..]);
    forall key ensures key in KeptKeys(entries) <==> key in rest || (key == first && !IsAnnotation(first)) {
      if key in rest {
        var i :| 0 <= i < |entries[1..]| && !IsAnnotation(entries[1..][i].key) && entries[1..][i].key == key;
        assert entries[i + 1].key == key;
      }
      if key in KeptKeys(entries) {
        var i :| 0 <= i < |entries| && !IsAnnotation(entries[i].key) && entries[i].key == key;
        assert i > 0 ==> entries[1..][i - 1].key == key;
      }
    }
    assert first !in rest;
    assert KeptKeys(entries) == rest + if IsAnnotation(first) then {} else {first};
  }

  lemma FitsByMembers(ordered: seq<Entry>, depth: nat)
    ensures EntriesFit(ordered, depth) ==
      (|ordered| <= MAX_OBJECT_KEYS && forall e | e in ordered :: SafeKey(e.key) && Normalize(e.value, depth).Some?)
  {
    assert forall i | 0 <= i < |ordered| :: ordered[i] in ordered;
  }

  /** An object fits when its keys and its kept values do. */
  lemma ObjectFitsExactly(entries: seq<Entry>, depth: nat)
    requires DistinctKeys(entries)
    ensures (Normalize(Object(entries), depth).Some?) ==
      (depth <= MAX_DEPTH && |KeptKeys(entries)| <= MAX_OBJECT_KEYS
       && forall i | 0 <= i < |entries| && !IsAnnotation(entries[i].key) ::
            SafeKey(entries[i].key) && Normalize(entries[i].value, depth + 1).Some?)
  {
    ObjectForm(entries, depth);
    KeptCount(entries);
    FitsByMembers(Ordered(entries), depth + 1);
    assert forall i | 0 <= i < |entries| :: entries[i] in entries;
  }

  lemma ObjectBounds(entries: seq<Entry>, depth: nat)
    requires forall i | 0 <= i < |entries| ::
      Normalize(entries[i].value, depth + 1).Some? == WithinBounds(entries[i].value, depth + 1)
    ensures WithinBounds(Object(entries), depth) ==
      (depth <= MAX_DEPTH && |KeptKeys(entries)| <= MAX_OBJECT_KEYS
       && forall i | 0 <= i < |entries| && !IsAnnotation(entries[i].key) ::
            SafeKey(entries[i].key) && Normalize(entries[i].value, depth + 1).Some?)
  {
    forall i | 0 <= i < |entries| ensures SafeKey(entries[i].key) <==> Legible(entries[i].key, 128) {
      LegibleExactly(entries[i].key);
    }
  }

  /** A document is normalized exactly when it is within the bounds. */
  lemma {:induction false} NormalizesExactly(value: Json, depth: nat)
    requires WellKeyed(value)
    ensures Normalize(value, depth).Some? == WithinBounds(value, depth)
    decreases value
  {
    match value
    case List(items) =>
      forall i | 0 <= i < |items| ensures Normalize(items[i], depth + 1).Some? == WithinBounds(items[i], depth + 1) {
        NormalizesExactly(items[i], depth + 1);
      }
    case Object(entries) =>
      forall i | 0 <= i < |entries|
        ensures Normalize(entries[i].value, depth + 1).Some? == WithinBounds(entries[i].value, depth + 1)
      {
        NormalizesExactly(entries[i].value, depth + 1);
      }
      ObjectFitsExactly(entries, depth);
      ObjectBounds(entries, depth);
    case Text(s) =>
      LegibleExactly(s);
    case _ =>
  }

  /** The same document but for annotations and the order of keys, at every level. */
  ghost predicate KeepsAll(value: Json, normal: Json)
    decreases value
  {
    match value
    case List(items) =>
      normal.List? && |normal.items| == |items| && forall i | 0 <= i < |items| :: KeepsAll(items[i], normal.items[i])
    case Object(entries) =>
      && normal.Object?
      && (forall key :: HasKey(normal.entries, key) <==> HasKey(entries, key) && !IsAnnotation(key))
      && forall i, j | 0 <= i < |entries| && 0 <= j < |normal.entries| && entries[i].key == normal.entries[j].key ::
           KeepsAll(entries[i].value, normal.entries[j].value)
    case _ => normal == value
  }

  lemma NormalKeys(entries: seq<Entry>, depth: nat)
    requires EntriesFit(Ordered(entries), depth)
    ensures forall key :: HasKey(NormalEntries(Ordered(entries), depth), key) <==> HasKey(entries, key) && !IsAnnotation(key)
  {
    forall key
      ensures HasKey(NormalEntries(Ordered(entries), depth), key) <==> HasKey(entries, key) && !IsAnnotation(key)
    {
      HasKeyOrdered(entries, key);
      SameKeys(Ordered(entries), NormalEntries(Ordered(entries), depth), key);
    }
  }

  /** The normal entry with a key comes from the one entry with that key. */
  lemma NormalEntryOf(entries: seq<Entry>, depth: nat, i: nat, j: nat)
    requires DistinctKeys(entries) && EntriesFit(Ordered(entries), depth)
    requires i < |entries| && j < |Ordered(entries)| && entries[i].key == Ordered(entries)[j].key
    ensures Normalize(entries[i].value, depth) == Some(NormalEntries(Ordered(entries), depth)[j].value)
  {
    OrderedIsFrom(entries, j);
    var k :| 0 <= k < |entries| && entries[k] == Ordered(entries)[j];
    assert i == k;
  }

  /** Nothing but annotations and key order is lost: the normal form shows every value where it was. */
  lemma {:induction false} NormalFormKeepsAll(value: Json, depth: nat)
    requires WellKeyed(value) && Normalize(value, depth).Some?
    ensures KeepsAll(value, Normalize(value, depth).value)
    decreases value
  {
    match value
    case List(items) =>
      forall i | 0 <= i < |items| ensures KeepsAll(items[i], Normalize(items[i], depth + 1).value) {
        NormalFormKeepsAll(items[i], depth + 1);
      }
    case Object(entries) =>
      ObjectForm(entries, depth);
      NormalKeys(entries, depth + 1);
      var normal := NormalEntries(Ordered(entries), depth + 1);
      forall i, j | 0 <= i < |entries| && 0 <= j < |normal| && entries[i].key == normal[j].key
        ensures KeepsAll(entries[i].value, normal[j].value)
      {
        NormalEntryOf(entries, depth + 1, i, j);
        NormalFormKeepsAll(entries[i].value, depth + 1);
      }
    case _ =>
  }

  lemma SameKeys(a: seq<Entry>, b: seq<Entry>, key: string)
    requires |a| == |b| && forall i | 0 <= i < |a| :: a[i].key == b[i].key
    ensures HasKey(a, key) <==> HasKey(b, key)
  {
    if HasKey(a, key) {
      var i :| 0 <= i < |a| && a[i].key == key;
      assert b[i].key == key;
    }
    if HasKey(b, key) {
      var i :| 0 <= i < |b| && b[i].key == key;
      assert a[i].key == key;
    }
  }

  // ---------------------------------------------------------------------------------
  // Key order does not matter
  // ---------------------------------------------------------------------------------

  predicate HasKey(entries: seq<Entry>, key: string) {
    exists i :: 0 <= i < |entries| && entries[i].key == key
  }

  /** The same document up to the order of object keys, at every level. */
  ghost predicate Similar(a: Json, b: Json)
    decreases a
  {
    match a
    case List(items) =>
      b.List? && |items| == |b.items| && forall i | 0 <= i < |items| :: Similar(items[i], b.items[i])
    case Object(entries) =>
      && b.Object?
      && (forall key :: HasKey(entries, key) <==> HasKey(b.entries, key))
      && forall i, j | 0 <= i < |entries| && 0 <= j < |b.entries| && entries[i].key == b.entries[j].key ::
           Similar(entries[i].value, b.entries[j].value)
    case _ => a == b
  }

  lemma HasKeyOrdered(s: seq<Entry>, key: string)
    ensures HasKey(Ordered(s), key) <==> HasKey(s, key) && !IsAnnotation(key)
  {
    var ordered := Ordered(s);
    if HasKey(ordered, key) {
      var i :| 0 <= i < |ordered| && ordered[i].key == key;
      assert ordered[i] in ordered;
      var k :| 0 <= k < |s| && s[k] == ordered[i];
    }
    if HasKey(s, key) && !IsAnnotation(key) {
      var k :| 0 <= k < |s| && s[k].key == key;
      assert s[k] in s && s[k] in ordered;
      var i :| 0 <= i < |ordered| && ordered[i] == s[k];
    }
  }

  lemma FirstKeys(a: seq<Entry>, b: seq<Entry>)
    requires KeysAscend(a) && KeysAscend(b) && a != [] && b != []
    requires HasKey(b, a[0].key) && HasKey(a, b[0].key)
    ensures a[0].key == b[0].key
  {
    StringOrder();
    var j :| 0 <= j < |b| && b[j].key == a[0].key;
    var i :| 0 <= i < |a| && a[i].key == b[0].key;
  }

  /** Ascending entries with the same keys have them in the same places. */
  lemma {:induction false} SameKeysSamePlaces(a: seq<Entry>, b: seq<Entry>)
    requires KeysAscend(a) && KeysAscend(b)
    requires forall key :: HasKey(a, key) <==> HasKey(b, key)
    ensures |a| == |b| && forall i | 0 <= i < |a| :: a[i].key == b[i].key
    decreases |a|
  {
    if a == [] || b == [] {
      if a != [] { assert HasKey(a, a[0].key); }
      if b != [] { assert HasKey(b, b[0].key); }
    } else {
      assert HasKey(a, a[0].key) && HasKey(b, b[0].key);
      FirstKeys(a, b);
      forall key ensures HasKey(a[1..], key) <==> HasKey(b[1..], key) {
        TailKeys(a, key);
        TailKeys(b, key);
      }
      SameKeysSamePlaces(a[1..], b[1..]);
    }
  }

  lemma TailKeys(s: seq<Entry>, key: string)
    requires s != [] && KeysAscend(s)
    ensures HasKey(s[1..], key) <==> HasKey(s, key) && key != s[0].key
  {
    if HasKey(s, key) && key != s[0].key {
      var i :| 0 <= i < |s| && s[i].key == key;
      assert s[1..][i - 1].key == key;
    }
  }

  lemma EntriesSimilar(a: seq<Entry>, b: seq<Entry>, x: Entry, y: Entry)
    requires WellKeyed(Object(a)) && WellKeyed(Object(b)) && Similar(Object(a), Object(b))
    requires x in a && y in b && x.key == y.key
    ensures WellKeyed(x.value) && WellKeyed(y.value) && Similar(x.value, y.value)
  {
    var k :| 0 <= k < |a| && a[k] == x;
    var l :| 0 <= l < |b| && b[l] == y;
  }

  lemma ListForm(a: seq<Json>, b: seq<Json>, depth: nat)
    requires |a| == |b| && forall i | 0 <= i < |a| :: Normalize(a[i], depth + 1) == Normalize(b[i], depth + 1)
    ensures Normalize(List(a), depth) == Normalize(List(b), depth)
  {
    var x, y := Normalize(List(a), depth), Normalize(List(b), depth);
    assert x.Some? <==> y.Some?;
    assert x.Some? ==> x.value.items == y.value.items;
  }

  /** Documents that differ only in key order have the same normal form, or none. */
  lemma {:induction false} KeyOrderDoesNotMatter(a: Json, b: Json, depth: nat)
    requires WellKeyed(a) && WellKeyed(b) && Similar(a, b)
    ensures Normalize(a, depth) == Normalize(b, depth)
    decreases a, 1
  {
    match a
    case List(items) =>
      forall i | 0 <= i < |items| ensures Normalize(items[i], depth + 1) == Normalize(b.items[i], depth + 1) {
        KeyOrderDoesNotMatter(items[i], b.items[i], depth + 1);
      }
      ListForm(items, b.items, depth);
    case Object(entries) =>
      ObjectKeyOrder(entries, b.entries, depth);
    case _ =>
  }

  lemma ObjectsAgree(a: seq<Entry>, b: seq<Entry>, depth: nat)
    requires |Ordered(a)| == |Ordered(b)|
    requires forall i | 0 <= i < |Ordered(a)| ::
      Ordered(a)[i].key == Ordered(b)[i].key
      && Normalize(Ordered(a)[i].value, depth + 1) == Normalize(Ordered(b)[i].value, depth + 1)
    ensures Normalize(Object(a), depth) == Normalize(Object(b), depth)
  {
    ObjectForm(a, depth);
    ObjectForm(b, depth);
    SameNormalEntries(Ordered(a), Ordered(b), depth + 1);
  }

  lemma {:induction false} ObjectKeyOrder(a: seq<Entry>, b: seq<Entry>, depth: nat)
    requires WellKeyed(Object(a)) && WellKeyed(Object(b)) && Similar(Object(a), Object(b))
    ensures Normalize(Object(a), depth) == Normalize(Object(b), depth)
    decreases Object(a), 0
  {
    var x, y := Ordered(a), Ordered(b);
    OrderedSamePlaces(a, b);
    forall i | 0 <= i < |x|
      ensures x[i].key == y[i].key && Normalize(x[i].value, depth + 1) == Normalize(y[i].value, depth + 1)
    {
      OrderedIsFrom(a, i);
      OrderedIsFrom(b, i);
      EntriesSimilar(a, b, x[i], y[i]);
      KeyOrderDoesNotMatter(x[i].value, y[i].value, depth + 1);
    }
    ObjectsAgree(a, b, depth);
  }

  lemma OrderedSamePlaces(a: seq<Entry>, b: seq<Entry>)
    requires DistinctKeys(a) && DistinctKeys(b)
    requires forall key :: HasKey(a, key) <==> HasKey(b, key)
    ensures |Ordered(a)| == |Ordered(b)|
    ensures forall i | 0 <= i < |Ordered(a)| :: Ordered(a)[i].key == Ordered(b)[i].key
  {
    OrderedAscends(a);
    OrderedAscends(b);
    forall key ensures HasKey(Ordered(a), key) <==> HasKey(Ordered(b), key) {
      HasKeyOrdered(a, key);
      HasKeyOrdered(b, key);
    }
    SameKeysSamePlaces(Ordered(a), Ordered(b));
  }
}
