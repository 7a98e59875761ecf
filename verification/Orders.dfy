/** Strict total orders, and the one ascending listing of a finite set. */
module Orders {
  // The Rust code iterates `BTreeSet`s and `BTreeMap`s and sorts vectors; each of those is the
  // ascending listing of a set of keys.

  ghost predicate StrictTotal<T(!new)>(less: (T, T) -> bool) {
    && (forall x :: !less(x, x))
    && (forall x, y, z :: less(x, y) && less(y, z) ==> less(x, z))
    && (forall x, y :: less(x, y) || x == y || less(y, x))
  }

  predicate Ascending<T>(less: (T, T) -> bool, q: seq<T>) {
    forall i, j :: 0 <= i < j < |q| ==> less(q[i], q[j])
  }

  function Elements<T>(q: seq<T>): set<T> {
    set x | x in q
  }

  /** The least element: the one `BTreeSet` iteration yields first. */
  function Least<T(!new)>(less: (T, T) -> bool, s: set<T>): (x: T)
    requires StrictTotal(less) && s != {}
    ensures IsLeast(less, s, x)
  {
    LeastExists(less, s);
    var x :| IsLeast(less, s, x);
    x
  }

  predicate IsLeast<T>(less: (T, T) -> bool, s: set<T>, x: T) {
    x in s && forall y | y in s :: y == x || less(x, y)
  }

  lemma {:induction false} LeastExists<T(!new)>(less: (T, T) -> bool, s: set<T>)
    requires StrictTotal(less) && s != {}
    ensures exists x :: IsLeast(less, s, x)
  {
    var z :| z in s;
    if s == {z} {
      assert IsLeast(less, s, z);
    } else {
      LeastExists(less, s - {z});
      var x :| IsLeast(less, s - {z}, x);
      assert less(z, x) || z == x || less(x, z);
      var w := if less(z, x) then z else x;
      forall y | y in s ensures y == w || less(w, y) {
        assert y == z || y in s - {z};
      }
      assert IsLeast(less, s, w);
    }
  }

  /** The ascending listing of a finite set. */
  function Sorted<T(!new)>(less: (T, T) -> bool, s: set<T>): (q: seq<T>)
    requires StrictTotal(less)
    ensures Ascending(less, q) && Elements(q) == s && |q| == |s|
    decreases |s|
  {
    if s == {} then [] else
      var x := Least(less, s);
      var rest := Sorted(less, s - {x});
      ConsAscending(less, x, rest);
      [x] + rest
  }

  lemma ConsAscending<T(!new)>(less: (T, T) -> bool, x: T, rest: seq<T>)
    requires Ascending(less, rest) && forall y | y in Elements(rest) :: less(x, y)
    ensures Ascending(less, [x] + rest) && Elements([x] + rest) == {x} + Elements(rest)
  {
    var q := [x] + rest;
    forall i, j | 0 <= i < j < |q| ensures less(q[i], q[j]) {
      assert q[j] == rest[j - 1] && rest[j - 1] in Elements(rest);
    }
  }

  /** Two ascending listings of the same elements are the same sequence. */
  lemma {:induction false} AscendingUnique<T(!new)>(less: (T, T) -> bool, p: seq<T>, q: seq<T>)
    requires StrictTotal(less) && Ascending(less, p) && Ascending(less, q)
    requires Elements(p) == Elements(q)
    ensures p == q
  {
    if p != [] { assert p[0] in Elements(q); }
    if q != [] { assert q[0] in Elements(p); }
    if p != [] && q != [] {
      assert p[0] == q[0];
      forall x ensures x in p[1..] <==> x in q[1..] {
        assert x in p <==> x in Elements(p);
        assert x in q <==> x in Elements(q);
        if x in p[1..] { var i :| 1 <= i < |p| && p[i] == x; assert less(p[0], x); }
        if x in q[1..] { var i :| 1 <= i < |q| && q[i] == x; assert less(q[0], x); }
      }
      assert Elements(p[1..]) == Elements(q[1..]);
      AscendingUnique(less, p[1..], q[1..]);
      assert p == [p[0]] + p[1..] && q == [q[0]] + q[1..];
    }
  }

  /** The listing does not depend on how the elements were supplied. */
  lemma SortedIsAscending<T(!new)>(less: (T, T) -> bool, q: seq<T>)
    requires StrictTotal(less) && Ascending(less, q)
    ensures Sorted(less, Elements(q)) == q
  {
    AscendingUnique(less, Sorted(less, Elements(q)), q);
  }

  lemma AscendingDistinct<T(!new)>(less: (T, T) -> bool, q: seq<T>)
    requires StrictTotal(less) && Ascending(less, q)
    ensures |Elements(q)| == |q|
    ensures forall i, j :: 0 <= i < |q| && 0 <= j < |q| && q[i] == q[j] ==> i == j
  {
    SortedIsAscending(less, q);
  }

  /** Byte order of strings, as `String: Ord` compares them. */
  predicate StringLess(a: string, b: string) {
    if b == "" then false
    else if a == "" then true
    else if a[0] != b[0] then a[0] < b[0]
    else StringLess(a[1..], b[1..])
  }

  lemma {:induction false} StringTrichotomy(a: string, b: string)
    ensures !(StringLess(a, b) && StringLess(b, a))
    ensures StringLess(a, b) || a == b || StringLess(b, a)
    ensures !StringLess(a, a)
  {
    if a != "" {
      StringTrichotomy(a[1..], if b == "" then b else b[1..]);
      if b != "" && a[1..] == b[1..] && a[0] == b[0] {
        assert a == [a[0]] + a[1..] && b == [b[0]] + b[1..];
      }
    }
  }

  lemma {:induction false} StringTransitive(a: string, b: string, c: string)
    requires StringLess(a, b) && StringLess(b, c)
    ensures StringLess(a, c)
  {
    if a != "" && a[0] == b[0] == c[0] {
      StringTransitive(a[1..], b[1..], c[1..]);
    }
  }

  /** Byte order written out: one text is the beginning of the other, or is smaller at the first
      place where they differ. */
  ghost predicate Precedes(a: string, b: string) {
    exists k: nat | k <= |a| && k < |b| :: a[..k] == b[..k] && (k == |a| || a[k] < b[k])
  }

  lemma SameHead(a: string, b: string, k: nat)
    requires 0 < k <= |a| && k <= |b| && a[..k] == b[..k]
    ensures a[0] == b[0]
  {
    assert a[..k][0] == b[..k][0];
  }

  lemma {:induction false} StringLessExactly(a: string, b: string)
    ensures StringLess(a, b) <==> Precedes(a, b)
  {
    if b != "" && a == "" {
      assert a[..0] == b[..0];
    } else if b != "" && a[0] != b[0] {
      if k: nat :| k <= |a| && k < |b| && a[..k] == b[..k] && (k == |a| || a[k] < b[k]) {
        if k > 0 { SameHead(a, b, k); }
      }
      assert a[..0] == b[..0];
    } else if b != "" {
      StringLessExactly(a[1..], b[1..]);
      if k: nat :| k <= |a| && k < |b| && a[..k] == b[..k] && (k == |a| || a[k] < b[k]) {
        assert k > 0;
        assert a[1..][..k - 1] == a[..k][1..] == b[..k][1..] == b[1..][..k - 1];
      }
      if k: nat :| k <= |a| - 1 && k < |b| - 1 && a[1..][..k] == b[1..][..k] && (k == |a| - 1 || a[1..][k] < b[1..][k]) {
        assert a[..k + 1] == [a[0]] + a[1..][..k] == b[..k + 1];
      }
    }
  }

  lemma StringOrder()
    ensures StrictTotal(StringLess)
  {
    forall x: string, y: string ensures StringLess(x, y) || x == y || StringLess(y, x) {
      StringTrichotomy(x, y);
    }
    forall x: string ensures !StringLess(x, x) {
      StringTrichotomy(x, x);
    }
    forall x: string, y: string, z: string | StringLess(x, y) && StringLess(y, z)
      ensures StringLess(x, z)
    {
      StringTransitive(x, y, z);
    }
  }

  function SortStrings(s: set<string>): (q: seq<string>)
    ensures Ascending(StringLess, q) && Elements(q) == s && |q| == |s|
  {
    StringOrder();
    Sorted(StringLess, s)
  }

  /** Lexicographic order of pairs, as tuples compare. */
  function PairOrder<T>(less: (T, T) -> bool): ((T, T), (T, T)) -> bool {
    (p: (T, T), q: (T, T)) => less(p.0, q.0) || (!less(q.0, p.0) && less(p.1, q.1))
  }

  lemma PairsOrdered<T(!new)>(less: (T, T) -> bool)
    requires StrictTotal(less)
    ensures StrictTotal(PairOrder(less))
  {
    var pl := PairOrder(less);
    forall x: (T, T) ensures !pl(x, x) {
      assert !less(x.0, x.0) && !less(x.1, x.1);
    }
    forall x: (T, T), y: (T, T) ensures pl(x, y) || x == y || pl(y, x) {
      assert less(x.0, y.0) || x.0 == y.0 || less(y.0, x.0);
      assert less(x.1, y.1) || x.1 == y.1 || less(y.1, x.1);
    }
    forall x: (T, T), y: (T, T), z: (T, T) | pl(x, y) && pl(y, z) ensures pl(x, z) {
      assert less(x.0, y.0) || x.0 == y.0;
      assert less(y.0, z.0) || y.0 == z.0;
    }
  }
}
