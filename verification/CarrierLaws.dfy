/** When the bracketing of conjunctions shows in the result. */
module CarrierLaws {
  // Conjunction returns a carrier that meets an equal one as it is, and multiplies the alternatives
  // out otherwise. Multiplying out is associative; the early exit is what can be seen.

  import opened Orders
  import opened Restrictions
  import opened Carriers

  // ----- alternatives -----

  /** What an alternative brings to a conjunction: its gates and its inputs, as sets. */
  datatype Contents = Contents(premises: set<RecordRef>, nodes: set<RecordRef>, snapshots: set<GraphRef>, inputs: set<Json>)

  function ContentsOf(g: Derivation): Contents {
    Contents(Elements(g.premises), Elements(g.nodePremises), Elements(g.snapshotPremises), InputSet(g))
  }

  function Both(c: Contents, d: Contents): Contents {
    Contents(c.premises + d.premises, c.nodes + d.nodes, c.snapshots + d.snapshots, c.inputs + d.inputs)
  }

  lemma BothLaws(c: Contents, d: Contents, e: Contents)
    ensures Both(Both(c, d), e) == Both(c, Both(d, e)) && Both(c, d) == Both(d, c) && Both(c, c) == c
  {
  }

  lemma GatesOfAnd(enc: Encoding, x: Derivation, y: Derivation)
    requires enc.Valid()
    ensures
      var g, r := And(enc, x, y), CombineRefs(Gates(x), Gates(y));
      && g.operator == AND && g.premises == r.assertions && g.nodePremises == r.nodes && g.snapshotPremises == r.snapshots
      && g.parameters == map["inputs" := Arr(Conjuncts(enc, x, y))] && g.inputSnapshots == Snapshots(Elements(Pins(r)))
  {
    hide CombineRefs, Conjuncts, Snapshots, Pins;
  }

  /** The contents of a conjunction are those of both sides, and it is in normal form. */
  lemma AndContents(enc: Encoding, x: Derivation, y: Derivation)
    requires enc.Valid()
    ensures ContentsOf(And(enc, x, y)) == Both(ContentsOf(x), ContentsOf(y))
    ensures NormalGroup(And(enc, x, y)) == And(enc, x, y)
  {
    GatesOfAnd(enc, x, y);
    CombineUnion(Gates(x), Gates(y));
    CombinedNormal(Gates(x), Gates(y));
    ElementsConcat(InputsOf(x), InputsOf(y));
    hide And, CombineRefs, Pins, Records, Snapshots;
    ConjunctsSet(enc, x, y);
  }

  lemma ConjunctsSet(enc: Encoding, x: Derivation, y: Derivation)
    requires enc.Valid()
    ensures Elements(Conjuncts(enc, x, y)) == Elements(InputsOf(x) + InputsOf(y))
  {
    hide InputsOf;
  }

  /** A conjunction is determined by what the two sides bring together. */
  lemma AndCongruent(enc: Encoding, x: Derivation, y: Derivation, u: Derivation, v: Derivation)
    requires enc.Valid() && Both(ContentsOf(x), ContentsOf(y)) == Both(ContentsOf(u), ContentsOf(v))
    ensures And(enc, x, y) == And(enc, u, v)
  {
    CombineUnion(Gates(x), Gates(y));
    CombineUnion(Gates(u), Gates(v));
    CombinedNormal(Gates(x), Gates(y));
    CombinedNormal(Gates(u), Gates(v));
    ElementsConcat(InputsOf(x), InputsOf(y));
    ElementsConcat(InputsOf(u), InputsOf(v));
    hide InputsOf, MakeGroup, CombineRefs, NormalRefs, InputList;
    SameMembersSameRefs(CombineRefs(Gates(x), Gates(y)), CombineRefs(Gates(u), Gates(v)));
  }

  /** Conjoining alternatives is associative, explanations included, for all alternatives. */
  lemma AndAssociates(enc: Encoding, x: Derivation, y: Derivation, z: Derivation)
    requires enc.Valid()
    ensures And(enc, And(enc, x, y), z) == And(enc, x, And(enc, y, z))
  {
    hide *;
    AndContents(enc, x, y);
    AndContents(enc, y, z);
    BothLaws(ContentsOf(x), ContentsOf(y), ContentsOf(z));
    AndCongruent(enc, And(enc, x, y), z, x, And(enc, y, z));
  }

  /** Conjoining with one of its parts again changes nothing. */
  lemma AndAbsorbs(enc: Encoding, x: Derivation, y: Derivation)
    requires enc.Valid()
    ensures And(enc, And(enc, x, x), y) == And(enc, x, y)
  {
    hide *;
    AndContents(enc, x, x);
    BothLaws(ContentsOf(x), ContentsOf(y), ContentsOf(y));
    AndCongruent(enc, And(enc, x, x), y, x, y);
  }

  /** The alternatives of both sides multiplied out; a side without any adds none. */
  function Ands(enc: Encoding, s: set<Derivation>, t: set<Derivation>): set<Derivation>
    requires enc.Valid()
  {
    if s == {} then t else if t == {} then s else set x, y | x in s && y in t :: And(enc, x, y)
  }

  lemma AndsContain(enc: Encoding, s: set<Derivation>, t: set<Derivation>, x: Derivation, y: Derivation)
    requires enc.Valid() && x in s && y in t
    ensures And(enc, x, y) in Ands(enc, s, t)
  {
    hide And;
  }

  lemma AndsSource(enc: Encoding, s: set<Derivation>, t: set<Derivation>, g: Derivation)
      returns (x: Derivation, y: Derivation)
    requires enc.Valid() && s != {} && t != {} && g in Ands(enc, s, t)
    ensures x in s && y in t && g == And(enc, x, y)
  {
    hide And;
    x, y :| x in s && y in t && g == And(enc, x, y);
  }

  lemma AndsEmpty(enc: Encoding, s: set<Derivation>, t: set<Derivation>)
    requires enc.Valid()
    ensures Ands(enc, s, t) == {} <==> s == {} && t == {}
  {
    if s != {} && t != {} {
      var x :| x in s;
      var y :| y in t;
      AndsContain(enc, s, t, x, y);
    }
  }

  lemma AndsMove(enc: Encoding, s: set<Derivation>, t: set<Derivation>, u: set<Derivation>, g: Derivation)
    requires enc.Valid() && s != {} && t != {} && u != {}
    ensures g in Ands(enc, Ands(enc, s, t), u) <==> g in Ands(enc, s, Ands(enc, t, u))
  {
    hide *;
    AndsEmpty(enc, s, t);
    AndsEmpty(enc, t, u);
    if g in Ands(enc, Ands(enc, s, t), u) {
      var p, z := AndsSource(enc, Ands(enc, s, t), u, g);
      var x, y := AndsSource(enc, s, t, p);
      AndAssociates(enc, x, y, z);
      AndsContain(enc, t, u, y, z);
      AndsContain(enc, s, Ands(enc, t, u), x, And(enc, y, z));
    }
    if g in Ands(enc, s, Ands(enc, t, u)) {
      var x, q := AndsSource(enc, s, Ands(enc, t, u), g);
      var y, z := AndsSource(enc, t, u, q);
      AndAssociates(enc, x, y, z);
      AndsContain(enc, s, t, x, y);
      AndsContain(enc, Ands(enc, s, t), u, And(enc, x, y), z);
    }
  }

  lemma AndsAssociate(enc: Encoding, s: set<Derivation>, t: set<Derivation>, u: set<Derivation>)
    requires enc.Valid()
    ensures Ands(enc, Ands(enc, s, t), u) == Ands(enc, s, Ands(enc, t, u))
  {
    hide *;
    if s == {} || t == {} || u == {} {
      AndsWithNone(enc, s);
      AndsWithNone(enc, t);
      AndsWithNone(enc, u);
      AndsWithNone(enc, Ands(enc, s, t));
      AndsWithNone(enc, Ands(enc, t, u));
    } else {
      forall g ensures g in Ands(enc, Ands(enc, s, t), u) <==> g in Ands(enc, s, Ands(enc, t, u)) {
        AndsMove(enc, s, t, u, g);
      }
    }
  }

  // ----- carriers -----

  ghost predicate IsCanonical(enc: Encoding, c: Carrier)
    requires enc.Valid()
  {
    Canonical(enc, c) == c
  }

  /** Conjunction without the early exit: everything is multiplied out. */
  function Multiply(enc: Encoding, a: Carrier, b: Carrier): Carrier
    requires enc.Valid()
  {
    Canonical(enc, RawConjunction(enc, a, b))
  }

  /** A carrier of given gates and alternatives. */
  function Of(enc: Encoding, flat: RefSet, s: set<Derivation>): Carrier
    requires enc.Valid()
  {
    Carrier(flat, Groups(enc, s))
  }

  ghost predicate AllNormal(s: set<Derivation>) {
    forall g | g in s :: NormalGroup(g) == g
  }

  lemma CanonicalIs(enc: Encoding, c: Carrier)
    requires enc.Valid() && IsCanonical(enc, c)
    ensures NormalRefs(c.flat) == c.flat && AllNormal(Elements(c.alternatives))
    ensures c == Of(enc, c.flat, Elements(c.alternatives))
  {
    hide NormalRefs, NormalGroup;
    var s := NormalGroups(c.alternatives);
    assert Elements(Groups(enc, s)) == s;
    forall g | g in Elements(c.alternatives) ensures NormalGroup(g) == g {
      var o :| o in c.alternatives && NormalGroup(o) == g;
      NormalGroupFixed(o);
    }
  }

  lemma NormalStays(qs: seq<Derivation>)
    requires AllNormal(Elements(qs))
    ensures NormalGroups(qs) == Elements(qs)
  {
    hide NormalGroup;
    forall g ensures g in NormalGroups(qs) <==> g in Elements(qs) {
      if g in Elements(qs) { assert NormalGroup(g) == g; }
      if g in NormalGroups(qs) {
        var o :| o in qs && NormalGroup(o) == g;
        assert o in Elements(qs);
      }
    }
  }

  lemma AndsNormal(enc: Encoding, s: set<Derivation>, t: set<Derivation>)
    requires enc.Valid() && AllNormal(s) && AllNormal(t)
    ensures AllNormal(Ands(enc, s, t))
  {
    hide And, NormalGroup;
    forall g | g in Ands(enc, s, t) ensures NormalGroup(g) == g {
      if s != {} && t != {} {
        var x, y := AndsSource(enc, s, t, g);
        AndContents(enc, x, y);
      }
    }
  }

  lemma RawAlternatives(enc: Encoding, a: Carrier, b: Carrier)
    requires enc.Valid()
    ensures Elements(RawConjunction(enc, a, b).alternatives) == Ands(enc, Elements(a.alternatives), Elements(b.alternatives))
  {
    var xs, ys := a.alternatives, b.alternatives;
    assert xs != [] ==> xs[0] in Elements(xs);
    assert ys != [] ==> ys[0] in Elements(ys);
    if xs != [] && ys != [] {
      hide And, Products;
      forall g ensures g in Products(enc, xs, ys) <==> g in Ands(enc, Elements(xs), Elements(ys)) {
        ProductsContain(enc, xs, ys, g);
      }
    }
  }

  /** Multiplying canonical carriers: gates united, alternatives conjoined pairwise. */
  lemma MultiplyIs(enc: Encoding, a: Carrier, b: Carrier)
    requires enc.Valid() && IsCanonical(enc, a) && IsCanonical(enc, b)
    ensures Multiply(enc, a, b) == Of(enc, CombineRefs(a.flat, b.flat), Ands(enc, Elements(a.alternatives), Elements(b.alternatives)))
    ensures IsCanonical(enc, Multiply(enc, a, b))
    ensures Elements(Multiply(enc, a, b).alternatives) == Ands(enc, Elements(a.alternatives), Elements(b.alternatives))
  {
    var r := RawConjunction(enc, a, b);
    CanonicalIs(enc, a);
    CanonicalIs(enc, b);
    RawAlternatives(enc, a, b);
    CanonicalIdempotent(enc, r);
    CombinedNormal(a.flat, b.flat);
    assert r.flat == CombineRefs(a.flat, b.flat);
    hide Ands, RawConjunction, NormalGroups, CombineRefs, NormalRefs, AllNormal;
    AndsNormal(enc, Elements(a.alternatives), Elements(b.alternatives));
    NormalStays(r.alternatives);
  }

  lemma CombinedNormal(p: RefSet, q: RefSet)
    ensures NormalRefs(CombineRefs(p, q)) == CombineRefs(p, q)
  {
    NormalRefsExactly(Joined(p, q), Joined(p, q));
    NormalRefsExactly(CombineRefs(p, q), Joined(p, q));
    hide NormalRefs;
  }

  ghost predicate RefsUnion(r: RefSet, p: RefSet, q: RefSet) {
    && Elements(r.assertions) == Elements(p.assertions) + Elements(q.assertions)
    && Elements(r.nodes) == Elements(p.nodes) + Elements(q.nodes)
    && Elements(r.snapshots) == Elements(p.snapshots) + Elements(q.snapshots)
  }

  lemma CombineUnion(p: RefSet, q: RefSet)
    ensures RefsUnion(CombineRefs(p, q), p, q)
  {
    ElementsConcat(p.assertions, q.assertions);
    ElementsConcat(p.nodes, q.nodes);
    ElementsConcat(p.snapshots, q.snapshots);
  }

  /** Normal reference sets with the same members are equal. */
  lemma SameMembersSameRefs(p: RefSet, q: RefSet)
    requires NormalRefs(p) == p && NormalRefs(q) == q && SameRefs(p, q)
    ensures p == q
  {
    NormalRefsExactly(p, q);
  }

  lemma CombineAssociates(p: RefSet, q: RefSet, r: RefSet)
    ensures CombineRefs(CombineRefs(p, q), r) == CombineRefs(p, CombineRefs(q, r))
  {
    hide CombineRefs, NormalRefs;
    CombineUnion(p, q);
    CombineUnion(q, r);
    CombineUnion(CombineRefs(p, q), r);
    CombineUnion(p, CombineRefs(q, r));
    CombinedNormal(CombineRefs(p, q), r);
    CombinedNormal(p, CombineRefs(q, r));
    SameMembersSameRefs(CombineRefs(CombineRefs(p, q), r), CombineRefs(p, CombineRefs(q, r)));
  }

  /** Multiplying out is associative, for all carriers: any number of alternatives, any gates. */
  lemma MultiplyAssociates(enc: Encoding, a: Carrier, b: Carrier, c: Carrier)
    requires enc.Valid() && IsCanonical(enc, a) && IsCanonical(enc, b) && IsCanonical(enc, c)
    ensures Multiply(enc, Multiply(enc, a, b), c) == Multiply(enc, a, Multiply(enc, b, c))
  {
    hide Multiply, IsCanonical, Ands, CombineRefs, Groups;
    MultiplyIs(enc, a, b);
    MultiplyIs(enc, b, c);
    MultiplyIs(enc, Multiply(enc, a, b), c);
    MultiplyIs(enc, a, Multiply(enc, b, c));
    AndsAssociate(enc, Elements(a.alternatives), Elements(b.alternatives), Elements(c.alternatives));
    CombineAssociates(a.flat, b.flat, c.flat);
  }

  lemma MultiplyCommutes(enc: Encoding, a: Carrier, b: Carrier)
    requires enc.Valid() && IsCanonical(enc, a) && IsCanonical(enc, b)
    ensures Multiply(enc, a, b) == Multiply(enc, b, a)
  {
    hide Multiply, Canonical, RawConjunction;
    ConjoinCommutes(enc, a, b);
    ConjoinIs(enc, a, b);
    ConjoinIs(enc, b, a);
  }

  /** Conjunction of canonical carriers: the early exit, or everything multiplied out. */
  lemma ConjoinIs(enc: Encoding, a: Carrier, b: Carrier)
    requires enc.Valid() && IsCanonical(enc, a) && IsCanonical(enc, b)
    ensures Conjoin(enc, a, b) == if a == b then a else Multiply(enc, a, b)
  {
    hide Canonical, RawConjunction;
  }

  lemma ConjoinIsCanonical(enc: Encoding, a: Carrier, b: Carrier)
    requires enc.Valid()
    ensures IsCanonical(enc, Canonical(enc, a)) && IsCanonical(enc, Conjoin(enc, a, b))
  {
    CanonicalIdempotent(enc, a);
    CanonicalIdempotent(enc, RawConjunction(enc, Canonical(enc, a), Canonical(enc, b)));
    hide Canonical, RawConjunction;
  }

  // ----- what multiplying once more changes -----

  /** Every pair of alternatives is there as one alternative, and each is such a pair. */
  ghost predicate Closed(enc: Encoding, s: set<Derivation>)
    requires enc.Valid()
  {
    && (forall x, y | x in s && y in s :: And(enc, x, y) in s)
    && (forall x | x in s :: And(enc, x, x) == x)
  }

  /** Whatever two alternatives of the first and one of the second bring together, one of each
      brings together too. */
  ghost predicate Spanned(enc: Encoding, s: set<Derivation>, t: set<Derivation>)
    requires enc.Valid()
  {
    forall x, y, z | x in s && y in s && z in t :: And(enc, And(enc, x, y), z) in Ands(enc, s, t)
  }

  /** Multiplying a carrier with itself changes nothing exactly when it has no alternatives or
      they are closed. */
  lemma SquareExactly(enc: Encoding, c: Carrier)
    requires enc.Valid() && IsCanonical(enc, c)
    ensures Multiply(enc, c, c) == c <==> c.alternatives == [] || Closed(enc, Elements(c.alternatives))
  {
    var s := Elements(c.alternatives);
    hide Multiply, IsCanonical, CombineRefs, Groups, Closed, Ands;
    CanonicalIs(enc, c);
    MultiplyIs(enc, c, c);
    CombineSame(c.flat);
    assert c.alternatives != [] ==> c.alternatives[0] in s;
    if c.alternatives != [] {
      ClosedExactly(enc, s);
    } else {
      NoAlternatives(enc);
    }
  }

  lemma NoAlternatives(enc: Encoding)
    requires enc.Valid()
    ensures Ands(enc, {}, {}) == {}
  {
  }

  lemma CombineSame(p: RefSet)
    requires NormalRefs(p) == p
    ensures CombineRefs(p, p) == p
  {
    hide CombineRefs, NormalRefs;
    CombineUnion(p, p);
    CombinedNormal(p, p);
    SameMembersSameRefs(CombineRefs(p, p), p);
  }

  lemma ClosedExactly(enc: Encoding, s: set<Derivation>)
    requires enc.Valid() && s != {}
    ensures Ands(enc, s, s) == s <==> Closed(enc, s)
  {
    hide And, Ands;
    if Ands(enc, s, s) == s {
      forall x, y | x in s && y in s ensures And(enc, x, y) in s { AndsContain(enc, s, s, x, y); }
      forall g | g in s ensures And(enc, g, g) == g {
        var x, y := AndsSource(enc, s, s, g);
        SquareOfAnd(enc, x, y);
      }
    }
    if Closed(enc, s) {
      forall g ensures g in Ands(enc, s, s) <==> g in s {
        if g in s { AndsContain(enc, s, s, g, g); }
        if g in Ands(enc, s, s) { var x, y := AndsSource(enc, s, s, g); }
      }
    }
  }

  lemma SquareOfAnd(enc: Encoding, x: Derivation, y: Derivation)
    requires enc.Valid()
    ensures And(enc, And(enc, x, y), And(enc, x, y)) == And(enc, x, y)
  {
    hide *;
    AndContents(enc, x, y);
    BothLaws(ContentsOf(And(enc, x, y)), ContentsOf(x), ContentsOf(y));
    AndCongruent(enc, And(enc, x, y), And(enc, x, y), x, y);
  }

  /** Multiplying one side in a second time changes nothing exactly when that side has no
      alternatives, or the other has none and they are closed, or the other spans the pairs. */
  lemma RepeatExactly(enc: Encoding, a: Carrier, c: Carrier)
    requires enc.Valid() && IsCanonical(enc, a) && IsCanonical(enc, c)
    ensures Multiply(enc, a, Multiply(enc, a, c)) == Multiply(enc, a, c) <==> Repeats(enc, a, c)
  {
    var s, t := Elements(a.alternatives), Elements(c.alternatives);
    assert a.alternatives != [] ==> a.alternatives[0] in s;
    assert c.alternatives != [] ==> c.alternatives[0] in t;
    hide Multiply, IsCanonical, CombineRefs, Groups, Closed, Ands, Spanned;
    CanonicalIs(enc, a);
    CanonicalIs(enc, c);
    MultiplyIs(enc, a, c);
    MultiplyIs(enc, a, Multiply(enc, a, c));
    CombineAssociates(a.flat, a.flat, c.flat);
    CombineSame(a.flat);
    OnlyAlternatives(enc, CombineRefs(a.flat, c.flat), Ands(enc, s, Ands(enc, s, t)), Ands(enc, s, t));
    AndsWithNone(enc, s);
    AndsWithNone(enc, t);
    if s != {} && t == {} { ClosedExactly(enc, s); }
    if s != {} && t != {} { SpannedExactly(enc, s, t); }
  }

  ghost predicate Repeats(enc: Encoding, a: Carrier, c: Carrier)
    requires enc.Valid()
  {
    || a.alternatives == []
    || (c.alternatives == [] && Closed(enc, Elements(a.alternatives)))
    || (c.alternatives != [] && Spanned(enc, Elements(a.alternatives), Elements(c.alternatives)))
  }

  lemma AndsWithNone(enc: Encoding, s: set<Derivation>)
    requires enc.Valid()
    ensures Ands(enc, s, {}) == s && Ands(enc, {}, s) == s
  {
  }

  lemma OnlyAlternatives(enc: Encoding, flat: RefSet, s: set<Derivation>, t: set<Derivation>)
    requires enc.Valid()
    ensures Of(enc, flat, s) == Of(enc, flat, t) <==> s == t
  {
    assert Elements(Groups(enc, s)) == s && Elements(Groups(enc, t)) == t;
    hide Groups;
  }

  lemma SpannedExactly(enc: Encoding, s: set<Derivation>, t: set<Derivation>)
    requires enc.Valid() && s != {} && t != {}
    ensures Ands(enc, s, Ands(enc, s, t)) == Ands(enc, s, t) <==> Spanned(enc, s, t)
  {
    hide And, Ands;
    AndsAssociate(enc, s, s, t);
    AndsEmpty(enc, s, s);
    if Ands(enc, s, Ands(enc, s, t)) == Ands(enc, s, t) {
      forall x, y, z | x in s && y in s && z in t ensures And(enc, And(enc, x, y), z) in Ands(enc, s, t) {
        AndsContain(enc, s, s, x, y);
        AndsContain(enc, Ands(enc, s, s), t, And(enc, x, y), z);
      }
    }
    if Spanned(enc, s, t) {
      forall g ensures g in Ands(enc, Ands(enc, s, s), t) <==> g in Ands(enc, s, t) {
        if g in Ands(enc, Ands(enc, s, s), t) {
          var p, z := AndsSource(enc, Ands(enc, s, s), t, g);
          var x, y := AndsSource(enc, s, s, p);
        }
        if g in Ands(enc, s, t) {
          var x, z := AndsSource(enc, s, t, g);
          AndAbsorbs(enc, x, z);
          AndsContain(enc, s, s, x, x);
          AndsContain(enc, Ands(enc, s, s), t, And(enc, x, x), z);
        }
      }
    }
  }

  /** One alternative, multiplied in beside others, is multiplied in for good. */
  lemma OneRepeats(enc: Encoding, a: Carrier, c: Carrier)
    requires enc.Valid() && |a.alternatives| == 1 && c.alternatives != []
    ensures Repeats(enc, a, c)
  {
    hide And, Ands;
    var s, t := Elements(a.alternatives), Elements(c.alternatives);
    forall x, y, z | x in s && y in s && z in t ensures And(enc, And(enc, x, y), z) in Ands(enc, s, t) {
      assert x == a.alternatives[0] && y == a.alternatives[0];
      AndAbsorbs(enc, x, z);
      AndsContain(enc, s, t, x, z);
    }
  }

  // ----- bracketings -----

  /** For canonical carriers, when the two bracketings agree: the early exit is never taken, or it
      is taken where multiplying out would not have changed anything. */
  ghost predicate BracketsAgree(enc: Encoding, a: Carrier, b: Carrier, c: Carrier)
    requires enc.Valid()
  {
    if a == b && b == c then true
    else if a == b then Multiply(enc, a, c) == a || Repeats(enc, a, c)
    else if b == c then Multiply(enc, c, a) == c || Repeats(enc, c, a)
    else
      var p, q := Multiply(enc, a, b), Multiply(enc, b, c);
      if p == c && q != a then c.alternatives == [] || Closed(enc, Elements(c.alternatives))
      else if q == a && p != c then a.alternatives == [] || Closed(enc, Elements(a.alternatives))
      else true
  }

  /** When each of the outer two is the conjunction of the others, they are equal. */
  lemma BothExits(enc: Encoding, a: Carrier, b: Carrier, c: Carrier)
    requires enc.Valid() && IsCanonical(enc, a) && IsCanonical(enc, b) && IsCanonical(enc, c)
    requires Multiply(enc, a, b) == c && Multiply(enc, b, c) == a
    ensures a == c
  {
    var s, t, u := Elements(a.alternatives), Elements(b.alternatives), Elements(c.alternatives);
    hide Multiply, IsCanonical, CombineRefs, Groups, Ands;
    CanonicalIs(enc, a);
    CanonicalIs(enc, c);
    MultiplyIs(enc, a, b);
    MultiplyIs(enc, b, c);
    CombineUnion(a.flat, b.flat);
    CombineUnion(b.flat, c.flat);
    SameMembersSameRefs(a.flat, c.flat);
    AndsBack(enc, s, t, u);
  }

  lemma AndsBack(enc: Encoding, s: set<Derivation>, t: set<Derivation>, u: set<Derivation>)
    requires enc.Valid() && Ands(enc, s, t) == u && Ands(enc, t, u) == s
    ensures s == u
  {
    hide And, Ands;
    AndsWithNone(enc, s);
    AndsWithNone(enc, t);
    AndsWithNone(enc, u);
    AndsEmpty(enc, s, t);
    AndsEmpty(enc, t, u);
    if s != {} && t != {} && u != {} {
      forall g | g in u ensures g in s {
        var x, y := AndsSource(enc, s, t, g);
        AndAbsorbs(enc, y, x);
        AndFlip(enc, x, y);
        AndsContain(enc, t, u, y, g);
      }
      forall g | g in s ensures g in u {
        var y, z := AndsSource(enc, t, u, g);
        AndFlip(enc, z, y);
        AndsContain(enc, s, t, g, y);
      }
    }
  }

  /** Adding a part again, on either side, changes nothing. */
  lemma AndFlip(enc: Encoding, x: Derivation, y: Derivation)
    requires enc.Valid()
    ensures And(enc, y, And(enc, x, y)) == And(enc, x, y)
    ensures And(enc, And(enc, y, x), y) == And(enc, y, x)
  {
    hide *;
    AndContents(enc, x, y);
    AndContents(enc, y, x);
    BothLaws(ContentsOf(y), ContentsOf(y), ContentsOf(x));
    BothLaws(ContentsOf(y), ContentsOf(x), ContentsOf(y));
    AndCongruent(enc, y, And(enc, x, y), x, y);
    AndCongruent(enc, And(enc, y, x), y, y, x);
  }

  lemma BracketsExactly(enc: Encoding, a: Carrier, b: Carrier, c: Carrier)
    requires enc.Valid() && IsCanonical(enc, a) && IsCanonical(enc, b) && IsCanonical(enc, c)
    ensures Conjoin(enc, Conjoin(enc, a, b), c) == Conjoin(enc, a, Conjoin(enc, b, c)) <==> BracketsAgree(enc, a, b, c)
  {
    hide Multiply, IsCanonical, Closed, Repeats, Conjoin;
    var p, q := Multiply(enc, a, b), Multiply(enc, b, c);
    MultiplyIs(enc, a, b);
    MultiplyIs(enc, b, c);
    ConjoinIs(enc, a, b);
    ConjoinIs(enc, b, c);
    ConjoinIs(enc, p, c);
    ConjoinIs(enc, a, q);
    ConjoinIs(enc, a, c);
    MultiplyAssociates(enc, a, b, c);
    if a == b {
      RepeatExactly(enc, a, c);
    } else if b == c {
      MultiplyCommutes(enc, a, c);
      MultiplyCommutes(enc, p, c);
      RepeatExactly(enc, c, a);
    } else {
      if p == c && q == a { BothExits(enc, a, b, c); }
      SquareExactly(enc, c);
      SquareExactly(enc, a);
    }
  }

  /** Exactly when the bracketing of a conjunction of three does not show, for all carriers. */
  lemma ConjoinAssociatesExactly(enc: Encoding, a: Carrier, b: Carrier, c: Carrier)
    requires enc.Valid()
    ensures Conjoin(enc, Conjoin(enc, a, b), c) == Conjoin(enc, a, Conjoin(enc, b, c))
       <==> BracketsAgree(enc, Canonical(enc, a), Canonical(enc, b), Canonical(enc, c))
  {
    var x, y, z := Canonical(enc, a), Canonical(enc, b), Canonical(enc, c);
    hide Conjoin, Canonical, IsCanonical, BracketsAgree;
    ConjoinIsCanonical(enc, a, b);
    ConjoinIsCanonical(enc, b, c);
    ConjoinIsCanonical(enc, c, a);
    BracketsExactly(enc, x, y, z);
    ConjoinCanonical(enc, a, b);
    ConjoinCanonical(enc, b, c);
    ConjoinCanonical(enc, Conjoin(enc, a, b), c);
    ConjoinCanonical(enc, a, Conjoin(enc, b, c));
  }

  /** In particular it does not show as long as no two carriers that meet are equal. */
  lemma DifferentAssociate(enc: Encoding, a: Carrier, b: Carrier, c: Carrier)
    requires enc.Valid() && Canonical(enc, a) != Canonical(enc, b) && Canonical(enc, b) != Canonical(enc, c)
    requires Conjoin(enc, a, b) != Canonical(enc, c) && Canonical(enc, a) != Conjoin(enc, b, c)
    ensures Conjoin(enc, Conjoin(enc, a, b), c) == Conjoin(enc, a, Conjoin(enc, b, c))
  {
    hide Canonical, RawConjunction, Closed, Repeats;
    ConjoinAssociatesExactly(enc, a, b, c);
  }
}
