/**
 Total orders, the lexicographic order on sequences (of characters, hence on strings; of
 strings, hence on tuples of strings) and stable sorting.
 */
module Ordering {

  ghost predicate TotalOrder<T(!new)>(le: (T, T) -> bool) {
    && (forall a, b :: le(a, b) || le(b, a))
    && (forall a, b :: le(a, b) && le(b, a) ==> a == b)
    && (forall a, b, c :: le(a, b) && le(b, c) ==> le(a, c))
  }

  function Lex<T(==)>(le: (T, T) -> bool, a: seq<T>, b: seq<T>): bool {
    a == [] || (b != [] && if a[0] == b[0] then Lex(le, a[1..], b[1..]) else le(a[0], b[0]))
  }

  lemma {:induction false} LexTotal<T(!new)>(le: (T, T) -> bool, a: seq<T>, b: seq<T>)
    requires TotalOrder(le)
    ensures Lex(le, a, b) || Lex(le, b, a)
    ensures Lex(le, a, b) && Lex(le, b, a) ==> a == b
  {
    if a != [] && b != [] && a[0] == b[0] {
      LexTotal(le, a[1..], b[1..]);
      assert a == [a[0]] + a[1..] && b == [b[0]] + b[1..];
    }
  }

  lemma {:induction false} LexTransitive<T(!new)>(le: (T, T) -> bool, a: seq<T>, b: seq<T>, c: seq<T>)
    requires TotalOrder(le) && Lex(le, a, b) && Lex(le, b, c)
    ensures Lex(le, a, c)
  {
    if a != [] && a[0] == b[0] == c[0] {
      LexTransitive(le, a[1..], b[1..], c[1..]);
    }
  }

  lemma LexIsTotal<T(!new)>(le: (T, T) -> bool)
    requires TotalOrder(le)
    ensures TotalOrder((a: seq<T>, b: seq<T>) => Lex(le, a, b))
  {
    forall a: seq<T>, b: seq<T>
      ensures Lex(le, a, b) || Lex(le, b, a)
      ensures Lex(le, a, b) && Lex(le, b, a) ==> a == b
    {
      LexTotal(le, a, b);
    }
    forall a: seq<T>, b: seq<T>, c: seq<T> | Lex(le, a, b) && Lex(le, b, c) ensures Lex(le, a, c) {
      LexTransitive(le, a, b, c);
    }
  }

  /** Before or equal means: a prefix, or smaller at the first difference. */
  lemma {:induction false} LexExactly<T>(le: (T, T) -> bool, a: seq<T>, b: seq<T>)
    ensures Lex(le, a, b) <==>
      (a <= b || exists k :: 0 <= k < |a| && k < |b| && a[..k] == b[..k] && a[k] != b[k] && le(a[k], b[k]))
  {
    if a != [] && b != [] {
      assert a == [a[0]] + a[1..] && b == [b[0]] + b[1..];
      if a[0] == b[0] {
        LexExactly(le, a[1..], b[1..]);
        if k :| 0 <= k < |a| && k < |b| && a[..k] == b[..k] && a[k] != b[k] && le(a[k], b[k]) {
          assert k > 0 && a[1..][..k - 1] == a[..k][1..] && b[1..][..k - 1] == b[..k][1..];
          assert a[1..][k - 1] == a[k] && b[1..][k - 1] == b[k];
        }
        if k :| 0 <= k < |a| - 1 && k < |b| - 1 && a[1..][..k] == b[1..][..k] && a[1..][k] != b[1..][k] && le(a[1..][k], b[1..][k]) {
          assert a[..k + 1] == [a[0]] + a[1..][..k] && b[..k + 1] == [b[0]] + b[1..][..k];
        }
      } else {
        assert a[..0] == b[..0];
        if a <= b {
          assert false;
        }
        forall k | 0 < k < |a| && k < |b| ensures a[..k] != b[..k] {
          assert a[..k][0] != b[..k][0];
        }
      }
    }
  }

  predicate StringLe(a: string, b: string) {
    Lex((x: char, y: char) => x <= y, a, b)
  }

  /** Strings are ordered by their characters, ascending. */
  lemma StringLeExactly(a: string, b: string)
    ensures StringLe(a, b) <==>
      (a <= b || exists k :: 0 <= k < |a| && k < |b| && a[..k] == b[..k] && a[k] < b[k])
  {
    LexExactly((x: char, y: char) => x <= y, a, b);
  }

  lemma StringOrder()
    ensures TotalOrder(StringLe)
  {
    var le := (x: char, y: char) => x <= y;
    LexIsTotal(le);
    assert forall a, b :: StringLe(a, b) == ((a: string, b: string) => Lex(le, a, b))(a, b);
  }

  predicate TupleLe(a: seq<string>, b: seq<string>) {
    Lex(StringLe, a, b)
  }

  lemma TupleOrder()
    ensures TotalOrder(TupleLe)
  {
    StringOrder();
    LexIsTotal(StringLe);
    assert forall a, b :: TupleLe(a, b) == ((a: seq<string>, b: seq<string>) => Lex(StringLe, a, b))(a, b);
  }

  // ---------------------------------------------------------------------------------
  // Stable sorting by a key
  // ---------------------------------------------------------------------------------

  ghost predicate Sorted<T>(le: (T, T) -> bool, s: seq<T>) {
    forall i, j | 0 <= i < j < |s| :: le(s[i], s[j])
  }

  function Insert<T>(le: (T, T) -> bool, x: T, s: seq<T>): (r: seq<T>)
    ensures multiset(r) == multiset{x} + multiset(s)
  {
    if s == [] || le(x, s[0]) then [x] + s
    else
      assert s == [s[0]] + s[1..];
      [s[0]] + Insert(le, x, s[1..])
  }

  function Sort<T>(le: (T, T) -> bool, s: seq<T>): (r: seq<T>)
    ensures multiset(r) == multiset(s)
  {
    if s == [] then []
    else
      assert s == [s[0]] + s[1..];
      Insert(le, s[0], Sort(le, s[1..]))
  }

  /** A key order compares elements totally and transitively, but may not tell them apart. */
  ghost predicate Preorder<T(!new)>(le: (T, T) -> bool) {
    && (forall a, b :: le(a, b) || le(b, a))
    && (forall a, b, c :: le(a, b) && le(b, c) ==> le(a, c))
  }

  lemma {:induction false} InsertSorted<T(!new)>(le: (T, T) -> bool, x: T, s: seq<T>)
    requires Preorder(le) && Sorted(le, s)
    ensures Sorted(le, Insert(le, x, s))
  {
    if s != [] && !le(x, s[0]) {
      InsertSorted(le, x, s[1..]);
      var rest := Insert(le, x, s[1..]);
      forall k | 0 <= k < |rest| ensures le(s[0], rest[k]) {
        assert rest[k] in multiset(rest);
      }
    }
  }

  lemma {:induction false} SortSorts<T(!new)>(le: (T, T) -> bool, s: seq<T>)
    requires Preorder(le)
    ensures Sorted(le, Sort(le, s))
  {
    if s != [] {
      SortSorts(le, s[1..]);
      InsertSorted(le, s[0], Sort(le, s[1..]));
    }
  }

  /** The elements of `s` that the order does not tell from `x`. */
  function Ties<T>(le: (T, T) -> bool, x: T, s: seq<T>): seq<T> {
    if s == [] then [] else (if le(x, s[0]) && le(s[0], x) then [s[0]] else []) + Ties(le, x, s[1..])
  }

  lemma {:induction false} InsertIsStable<T(!new)>(le: (T, T) -> bool, x: T, y: T, s: seq<T>)
    requires Preorder(le)
    ensures Ties(le, x, Insert(le, y, s)) == Ties(le, x, [y] + s)
  {
    assert ([y] + s)[1..] == s;
    if s != [] && !le(y, s[0]) {
      InsertIsStable(le, x, y, s[1..]);
      assert ([s[0]] + Insert(le, y, s[1..]))[1..] == Insert(le, y, s[1..]);
      assert ([y] + s[1..])[1..] == s[1..];
      assert !(le(y, x) && le(x, s[0]));
    }
  }

  /** Sorting keeps elements with equal keys in their order. */
  lemma {:induction false} SortIsStable<T(!new)>(le: (T, T) -> bool, x: T, s: seq<T>)
    requires Preorder(le)
    ensures Ties(le, x, Sort(le, s)) == Ties(le, x, s)
  {
    if s != [] {
      var sorted := Sort(le, s[1..]);
      SortIsStable(le, x, s[1..]);
      InsertIsStable(le, x, s[0], sorted);
      assert ([s[0]] + sorted)[1..] == sorted;
    }
  }

  /** The order tells the elements of `s` apart. */
  ghost predicate Separates<T>(le: (T, T) -> bool, s: seq<T>) {
    forall a, b | a in s && b in s && le(a, b) && le(b, a) :: a == b
  }

  lemma SameHead<T(!new)>(le: (T, T) -> bool, a: seq<T>, b: seq<T>)
    requires a != [] && b != [] && a[0] in b && b[0] in a
    requires Sorted(le, a) && Sorted(le, b) && Separates(le, a)
    ensures a[0] == b[0]
  {
    var i :| 0 <= i < |b| && b[i] == a[0];
    var j :| 0 <= j < |a| && a[j] == b[0];
  }

  lemma WithoutHead<T>(a: seq<T>)
    requires a != []
    ensures multiset(a[1..]) == multiset(a) - multiset{a[0]}
  {
    assert a == [a[0]] + a[1..];
  }

  lemma {:induction false} SortedIsUnique<T(!new)>(le: (T, T) -> bool, a: seq<T>, b: seq<T>)
    requires multiset(a) == multiset(b) && Sorted(le, a) && Sorted(le, b) && Separates(le, a)
    ensures a == b
    decreases |a|
  {
    assert |a| == |multiset(a)| == |multiset(b)| == |b|;
    if a != [] {
      assert a[0] in b by { assert a[0] in multiset(b); }
      assert b[0] in a by { assert b[0] in multiset(a); }
      SameHead(le, a, b);
      WithoutHead(a);
      WithoutHead(b);
      SortedIsUnique(le, a[1..], b[1..]);
    }
  }

  /** Sorting forgets the order of its input when the order tells the elements apart. */
  lemma SortForgetsOrder<T(!new)>(le: (T, T) -> bool, a: seq<T>, b: seq<T>)
    requires Preorder(le) && multiset(a) == multiset(b) && Separates(le, a)
    ensures Sort(le, a) == Sort(le, b)
  {
    SortSorts(le, a);
    SortSorts(le, b);
    forall x, y | x in Sort(le, a) && y in Sort(le, a) && le(x, y) && le(y, x) ensures x == y {
      assert x in multiset(a) && y in multiset(a);
    }
    SortedIsUnique(le, Sort(le, a), Sort(le, b));
  }

  /** Two different elements with equal keys end up in the order opposite to that in which they are inserted. */
  lemma {:induction false} TiedInsertsDiffer<T(!new)>(le: (T, T) -> bool, a: T, b: T, s: seq<T>)
    requires Preorder(le) && le(a, b) && le(b, a) && a != b
    ensures Insert(le, a, Insert(le, b, s)) != Insert(le, b, Insert(le, a, s))
  {
    if s == [] {
      assert Insert(le, b, s) == [b] && Insert(le, a, s) == [a];
      assert Insert(le, a, [b])[0] == a && Insert(le, b, [a])[0] == b;
    } else if le(a, s[0]) {
      assert le(b, s[0]);
      assert Insert(le, a, Insert(le, b, s))[0] == a && Insert(le, b, Insert(le, a, s))[0] == b;
    } else {
      assert !le(b, s[0]);
      TiedInsertsDiffer(le, a, b, s[1..]);
      assert Insert(le, a, Insert(le, b, s)) == [s[0]] + Insert(le, a, Insert(le, b, s[1..]));
      assert Insert(le, b, Insert(le, a, s)) == [s[0]] + Insert(le, b, Insert(le, a, s[1..]));
      Uncons(s[0], Insert(le, a, Insert(le, b, s[1..])), Insert(le, b, Insert(le, a, s[1..])));
    }
  }

  lemma Uncons<T>(x: T, a: seq<T>, b: seq<T>)
    ensures [x] + a == [x] + b ==> a == b
  {
    assert ([x] + a)[1..] == a && ([x] + b)[1..] == b;
  }

  lemma Without<T>(s: seq<T>, x: T) returns (rest: seq<T>)
    requires x in s
    ensures multiset(s) == multiset{x} + multiset(rest)
  {
    var i :| 0 <= i < |s| && s[i] == x;
    rest := s[..i] + s[i + 1..];
    assert s == s[..i] + [x] + s[i + 1..];
  }

  lemma SortTwo<T(!new)>(le: (T, T) -> bool, a: T, b: T, rest: seq<T>)
    ensures Sort(le, [a, b] + rest) == Insert(le, a, Insert(le, b, Sort(le, rest)))
    ensures multiset([a, b] + rest) == multiset{a} + multiset{b} + multiset(rest)
  {
    var t := [a, b] + rest;
    assert t[1..] == [b] + rest && ([b] + rest)[1..] == rest;
  }

  /** With a tie, two arrangements of the same elements sort differently. */
  lemma TiesMatter<T(!new)>(le: (T, T) -> bool, s: seq<T>, a: T, b: T) returns (t: seq<T>, u: seq<T>)
    requires Preorder(le) && a in s && b in s && le(a, b) && le(b, a) && a != b
    ensures multiset(t) == multiset(u) == multiset(s) && Sort(le, t) != Sort(le, u)
  {
    var others := Without(s, a);
    assert b in multiset(others) by { assert b in multiset(s); }
    var rest := Without(others, b);
    t, u := [a, b] + rest, [b, a] + rest;
    SortTwo(le, a, b, rest);
    SortTwo(le, b, a, rest);
    TiedInsertsDiffer(le, a, b, Sort(le, rest));
  }

  /** Sorting forgets the order of its input exactly when the order tells the elements apart. */
  lemma SortForgetsOrderExactly<T(!new)>(le: (T, T) -> bool, s: seq<T>)
    requires Preorder(le)
    ensures (forall t | multiset(t) == multiset(s) :: Sort(le, t) == Sort(le, s)) <==> Separates(le, s)
  {
    if Separates(le, s) {
      forall t | multiset(t) == multiset(s) ensures Sort(le, t) == Sort(le, s) {
        SortForgetsOrder(le, s, t);
      }
    } else {
      var a, b :| a in s && b in s && le(a, b) && le(b, a) && a != b;
      var t, u := TiesMatter(le, s, a, b);
      assert Sort(le, t) != Sort(le, s) || Sort(le, u) != Sort(le, s);
    }
  }
}
