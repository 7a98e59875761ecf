/** Carriers for which the bracketing of conjunctions shows. */
module CarrierExamples {
  // The first of them is shown to be within the limits of the bounded operations.

  import opened Orders
  import opened Restrictions
  import opened Carriers
  import opened CarrierLaws
  import opened CarrierCosts

  function Pin(record: string): RecordRef {
    RecordRef("G", "r", record)
  }

  function Proof(record: string): Derivation {
    Derivation("proof", [Pin(record)], [], map[], [], [])
  }

  /** A carrier with two alternatives, one with a third, and one with a gate only. */
  const TWO := Carrier(NO_REFS, [Proof("A"), Proof("B")])
  const THIRD := Carrier(NO_REFS, [Proof("C")])
  const GATE := Carrier(RefSet([Pin("C")], [], []), [])

  lemma SingleAssertion(r: RecordRef)
    ensures Records(Elements([r])) == [r]
    ensures Snapshots(Elements<GraphRef>([])) == [] && Records(Elements<RecordRef>([])) == []
  {
    var q := Records(Elements([r]));
    assert Elements([r]) == {r};
    KeysInjective();
    assert |q| == 1 && q[0] in Elements(q);
    assert |Elements<RecordRef>([])| == 0 && |Elements<GraphRef>([])| == 0;
  }

  lemma ProofNormal(record: string)
    ensures NormalGroup(Proof(record)) == Proof(record)
    ensures ContentsOf(Proof(record)).premises == {Pin(record)}
  {
    SingleAssertion(Pin(record));
    hide Records, Snapshots, InputSet;
  }

  lemma NamesDiffer()
    ensures Pin("A") != Pin("B") && Pin("A") != Pin("C") && Pin("B") != Pin("C")
  {
    assert "A"[0] != "B"[0] && "A"[0] != "C"[0] && "B"[0] != "C"[0];
  }

  lemma TwoIs(enc: Encoding)
    requires enc.Valid()
    ensures Elements(Canonical(enc, TWO).alternatives) == {Proof("A"), Proof("B")}
    ensures Elements(Canonical(enc, THIRD).alternatives) == {Proof("C")}
    ensures Canonical(enc, TWO).alternatives != [] && Canonical(enc, THIRD).alternatives != []
  {
    ProofNormal("A");
    ProofNormal("B");
    ProofNormal("C");
    hide NormalGroup, Proof;
    var s := NormalGroups(TWO.alternatives);
    assert TWO.alternatives[0] == Proof("A") && TWO.alternatives[1] == Proof("B");
    assert s == {Proof("A"), Proof("B")};
    assert THIRD.alternatives[0] == Proof("C") && NormalGroups(THIRD.alternatives) == {Proof("C")};
    assert Elements(Groups(enc, s)) == s;
    assert Proof("A") in Elements(Canonical(enc, TWO).alternatives);
    assert Proof("C") in Elements(Canonical(enc, THIRD).alternatives);
  }

  /** No alternative of the product rests on both "A" and "B". */
  lemma NeverBoth(enc: Encoding, g: Derivation)
    requires enc.Valid() && g in Ands(enc, {Proof("A"), Proof("B")}, {Proof("C")})
    ensures Pin("C") in ContentsOf(g).premises
    ensures !(Pin("A") in ContentsOf(g).premises && Pin("B") in ContentsOf(g).premises)
  {
    NamesDiffer();
    hide And, Ands, ContentsOf;
    var x, y := AndsSource(enc, {Proof("A"), Proof("B")}, {Proof("C")}, g);
    AndContents(enc, x, y);
    ProofNormal("A");
    ProofNormal("B");
    ProofNormal("C");
    hide NormalGroup, Proof;
  }

  lemma NotSpanned(enc: Encoding)
    requires enc.Valid()
    ensures !Spanned(enc, {Proof("A"), Proof("B")}, {Proof("C")})
  {
    var a, b, c := Proof("A"), Proof("B"), Proof("C");
    var g := And(enc, And(enc, a, b), c);
    AndContents(enc, a, b);
    AndContents(enc, And(enc, a, b), c);
    ProofNormal("A");
    ProofNormal("B");
    hide And, Ands, ContentsOf, NormalGroup, Proof;
    if g in Ands(enc, {a, b}, {c}) { NeverBoth(enc, g); }
  }

  lemma NotAbsorbed(enc: Encoding)
    requires enc.Valid()
    ensures Multiply(enc, Canonical(enc, TWO), Canonical(enc, THIRD)) != Canonical(enc, TWO)
    ensures Canonical(enc, TWO) != Canonical(enc, THIRD)
  {
    var x, z := Canonical(enc, TWO), Canonical(enc, THIRD);
    TwoIs(enc);
    NamesDiffer();
    ProofNormal("A");
    ProofNormal("C");
    ConjoinIsCanonical(enc, TWO, THIRD);
    ConjoinIsCanonical(enc, THIRD, TWO);
    hide Multiply, Canonical, IsCanonical, Ands, And, CombineRefs, NormalGroup, Proof, ContentsOf;
    MultiplyIs(enc, x, z);
    assert Proof("A") in Elements(x.alternatives) && Proof("A") !in Elements(z.alternatives);
    if Multiply(enc, x, z) == x { NeverBoth(enc, Proof("A")); }
  }

  /** With two alternatives on one side conjunction is not associative: equal sides are returned
      unchanged, but a nested conjunction mixes the alternatives. */
  lemma SeveralDoNotAssociate(enc: Encoding)
    requires enc.Valid()
    ensures Conjoin(enc, Conjoin(enc, TWO, TWO), THIRD) != Conjoin(enc, TWO, Conjoin(enc, TWO, THIRD))
  {
    ConjoinAssociatesExactly(enc, TWO, TWO, THIRD);
    TwoIs(enc);
    hide Multiply, Canonical, Conjoin, Spanned;
    NotSpanned(enc);
    NotAbsorbed(enc);
  }

  lemma GateIs(enc: Encoding)
    requires enc.Valid()
    ensures Canonical(enc, GATE).alternatives == []
    ensures Canonical(enc, THIRD).flat.assertions == [] && Canonical(enc, GATE).flat.assertions == [Pin("C")]
  {
    SingleAssertion(Pin("C"));
    GroupsEmpty(enc, []);
    hide Records, Snapshots, Groups;
  }

  lemma FlatDiffers(enc: Encoding)
    requires enc.Valid()
    ensures Multiply(enc, Canonical(enc, THIRD), Canonical(enc, GATE)) != Canonical(enc, THIRD)
    ensures Canonical(enc, THIRD) != Canonical(enc, GATE)
  {
    var x, z := Canonical(enc, THIRD), Canonical(enc, GATE);
    GateIs(enc);
    ConjoinIsCanonical(enc, THIRD, GATE);
    ConjoinIsCanonical(enc, GATE, THIRD);
    hide Canonical, IsCanonical, CombineRefs, Ands, Multiply;
    MultiplyIs(enc, x, z);
    CombineUnion(x.flat, z.flat);
    assert Pin("C") in Elements(z.flat.assertions);
  }

  lemma NotClosed(enc: Encoding)
    requires enc.Valid()
    ensures !Closed(enc, {Proof("C")})
  {
    assert "proof"[0] != AND[0];
    assert And(enc, Proof("C"), Proof("C")).operator == AND;
    assert Proof("C") in {Proof("C")};
  }

  /** Even with one alternative the bracketing shows: repeated before a gate it stays as it is,
      repeated after the gate it is conjoined with itself. */
  lemma OneDoesNotAssociate(enc: Encoding)
    requires enc.Valid()
    ensures Conjoin(enc, Conjoin(enc, THIRD, THIRD), GATE) != Conjoin(enc, THIRD, Conjoin(enc, THIRD, GATE))
  {
    ConjoinAssociatesExactly(enc, THIRD, THIRD, GATE);
    TwoIs(enc);
    GateIs(enc);
    hide Multiply, Canonical, Conjoin, Closed;
    NotClosed(enc);
    FlatDiffers(enc);
  }

  // ----- the first example is within the limits -----

  const CAPS := Limits(MAX_GROUPS, MAX_REFS, MAX_BYTES, MAX_WORK)

  /** Nothing to explain, or the flat list of inputs of a conjunction. */
  ghost predicate Shallow(g: Derivation) {
    g.parameters == map[] || (g.operator == AND && exists items :: Flat(g, items))
  }

  predicate Flat(g: Derivation, items: seq<Json>) {
    g.parameters == map["inputs" := Arr(items)] && forall v | v in items :: Within(v, 3)
  }

  /** A valid alternative with at most `k` references and a flat explanation. */
  ghost predicate Tame(g: Derivation, k: nat) {
    && 1 <= GroupCount(g) <= k && Id(g.operator) && GoodIds(Gates(g))
    && |g.inputSnapshots| <= k && (forall i | 0 <= i < |g.inputSnapshots| :: GraphIds(g.inputSnapshots[i]))
    && Shallow(g)
  }

  /** No gates, between one and `n` alternatives, each tame. */
  ghost predicate Tiny(c: Carrier, n: nat, k: nat) {
    c.flat == NO_REFS && 1 <= |c.alternatives| <= n && forall g | g in c.alternatives :: Tame(g, k)
  }

  lemma TameValid(g: Derivation, k: nat)
    requires Tame(g, k) && k <= MAX_REFS
    ensures ValidGroup(g)
  {
    hide RefsCount;
    if g.parameters != map[] {
      var items :| Flat(g, items);
      forall i | 0 <= i < |items| ensures Within(items[i], MAX_DEPTH - 1) { Deeper(items[i], 3, MAX_DEPTH - 1); }
    }
  }

  lemma {:induction false} Deeper(v: Json, m: int, n: int)
    requires Within(v, m) && m <= n
    ensures Within(v, n)
  {
    match v
    case Arr(items) => forall i | 0 <= i < |items| ensures Within(items[i], n - 1) { Deeper(items[i], m - 1, n - 1); }
    case Obj(fields) => forall k | k in fields ensures Within(fields[k], n - 1) { Deeper(fields[k], m - 1, n - 1); }
    case _ =>
  }

  lemma {:induction false} CountsBound(gs: seq<Derivation>, k: nat)
    requires forall g | g in gs :: GroupCount(g) <= k
    ensures GroupCounts(gs) <= Area(k, |gs|)
  {
    hide GroupCount;
    if gs == [] {
      assert k * 0 == 0;
    } else {
      CountsBound(gs[..|gs| - 1], k);
      assert k * |gs| == k * (|gs| - 1) + k;
    }
  }

  lemma AreaAtMost(m: nat, n: nat, i: nat, j: nat)
    requires m <= i && n <= j
    ensures Area(m, n) <= Area(i, j)
  {
    assert m * n <= i * n && i * n <= i * j;
  }

  lemma TinyValid(c: Carrier, n: nat, k: nat)
    requires Tiny(c, n, k) && n <= MAX_GROUPS && Area(k, n) <= MAX_REFS && k <= MAX_REFS
    ensures ValidCarrier(CAPS, c)
  {
    CountsBound(c.alternatives, k);
    AreaAtMost(k, |c.alternatives|, k, n);
    hide Tame, ValidGroup, GroupCount, Area;
    forall i | 0 <= i < |c.alternatives| ensures ValidGroup(c.alternatives[i]) {
      assert c.alternatives[i] in c.alternatives;
      TameValid(c.alternatives[i], k);
    }
  }

  lemma {:induction false} FewElements<T>(q: seq<T>)
    ensures |Elements(q)| <= |q| && (q != [] ==> |Elements(q)| >= 1)
  {
    if q != [] {
      FewElements(q[1..]);
      assert Elements(q) == {q[0]} + Elements(q[1..]);
    }
  }

  lemma FewRecords(s: set<RecordRef>)
    ensures |Records(s)| == |s|
  {
    KeysInjective();
  }

  lemma FewSnapshots(s: set<GraphRef>)
    ensures |Snapshots(s)| == |s|
  {
    KeysInjective();
  }

  /** Removing repeats keeps at least one reference and adds none. */
  lemma NormalCount(r: RefSet)
    ensures RefsCount(NormalRefs(r)) <= RefsCount(r) && (RefsCount(r) > 0 ==> RefsCount(NormalRefs(r)) > 0)
  {
    FewElements(r.assertions);
    FewElements(r.nodes);
    FewElements(r.snapshots);
    FewRecords(Elements(r.assertions));
    FewRecords(Elements(r.nodes));
    FewSnapshots(Elements(r.snapshots));
    hide Records, Snapshots, Elements;
  }

  lemma RecordIdsStay(q: seq<RecordRef>, p: seq<RecordRef>)
    requires Elements(p) == Elements(q) && forall i | 0 <= i < |q| :: RecordIds(q[i])
    ensures forall i | 0 <= i < |p| :: RecordIds(p[i])
  {
    hide RecordIds;
    forall i | 0 <= i < |p| ensures RecordIds(p[i]) { assert p[i] in Elements(q); }
  }

  lemma GraphIdsStay(q: seq<GraphRef>, p: seq<GraphRef>)
    requires Elements(p) == Elements(q) && forall i | 0 <= i < |q| :: GraphIds(q[i])
    ensures forall i | 0 <= i < |p| :: GraphIds(p[i])
  {
    hide GraphIds;
    forall i | 0 <= i < |p| ensures GraphIds(p[i]) { assert p[i] in Elements(q); }
  }

  lemma NormalIds(r: RefSet)
    requires GoodIds(r)
    ensures GoodIds(NormalRefs(r))
  {
    NormalRefsExactly(r, r);
    hide NormalRefs, Elements, RecordIds, GraphIds;
    var n := NormalRefs(r);
    RecordIdsStay(r.assertions, n.assertions);
    RecordIdsStay(r.nodes, n.nodes);
    GraphIdsStay(r.snapshots, n.snapshots);
  }

  lemma TameNormal(g: Derivation, k: nat)
    requires Tame(g, k)
    ensures Tame(NormalGroup(g), k)
  {
    var n := NormalGroup(g);
    assert Gates(n) == NormalRefs(Gates(g)) && n.operator == g.operator && n.parameters == g.parameters;
    assert n.inputSnapshots == Snapshots(Elements(g.inputSnapshots));
    NormalCount(Gates(g));
    NormalIds(Gates(g));
    FewElements(g.inputSnapshots);
    FewSnapshots(Elements(g.inputSnapshots));
    SameShallow(g, n);
    hide NormalGroup, NormalRefs, RefsCount, GoodIds, Records, Snapshots, Gates, Shallow, GraphIds, Id;
    assert Elements(n.inputSnapshots) == Elements(g.inputSnapshots);
    hide Elements;
    GraphIdsStay(g.inputSnapshots, n.inputSnapshots);
  }

  lemma SameShallow(g: Derivation, n: Derivation)
    requires g.operator == n.operator && g.parameters == n.parameters && Shallow(g)
    ensures Shallow(n)
  {
    if g.parameters != map[] {
      var items :| Flat(g, items);
      assert Flat(n, items);
    }
  }

  lemma FewNormal(gs: seq<Derivation>)
    ensures |NormalGroups(gs)| <= |gs|
  {
    hide NormalGroup;
    var qs := seq(|gs|, i requires 0 <= i < |gs| => NormalGroup(gs[i]));
    assert NormalGroups(gs) == Elements(qs) by {
      forall g ensures g in NormalGroups(gs) <==> g in Elements(qs) {
        if g in NormalGroups(gs) {
          var o :| o in gs && NormalGroup(o) == g;
          var i :| 0 <= i < |gs| && gs[i] == o;
          assert qs[i] == g;
        }
      }
    }
    FewElements(qs);
  }

  lemma TinyCanonical(enc: Encoding, c: Carrier, n: nat, k: nat)
    requires enc.Valid() && Tiny(c, n, k)
    ensures Tiny(Canonical(enc, c), n, k)
  {
    NormalNoRefs();
    FewNormal(c.alternatives);
    GroupsEmpty(enc, c.alternatives);
    hide Tame, NormalGroup, NormalRefs;
    var qs := Canonical(enc, c).alternatives;
    forall g | g in qs ensures Tame(g, k) {
      assert g in Elements(qs);
      var o :| o in c.alternatives && NormalGroup(o) == g;
      TameNormal(o, k);
    }
  }

  /** The text of an alternative without parameters is nested three deep. */
  lemma GroupDepth(g: Derivation)
    requires g.parameters == map[]
    ensures Within(GroupJson(g), 3)
  {
    forall r: RecordRef, kind ensures Within(RecordJson(kind, r), 1) {}
    forall r: GraphRef ensures Within(GraphJson(r), 1) {}
    hide RecordJson, GraphJson;
    forall kind, q: seq<RecordRef> ensures Within(RecordList(kind, q), 2) {}
    forall q: seq<GraphRef> ensures Within(GraphList(q), 2) {}
    hide RecordList, GraphList;
    forall k | k in GroupFields(g) ensures Within(GroupField(g, k), 2) {}
    hide GroupField;
  }

  lemma InputsDepth(g: Derivation, v: Json)
    requires Shallow(g) && v in InputsOf(g)
    ensures Within(v, 3)
  {
    if g.parameters == map[] {
      GroupDepth(g);
      assert InputsOf(g) == [GroupJson(g)];
    } else {
      var items :| Flat(g, items);
      assert InputsOf(g) == items;
    }
  }

  lemma PinsGood(r: RefSet)
    requires GoodIds(r)
    ensures |Snapshots(Elements(Pins(r)))| <= RefsCount(r)
    ensures
      var q := Snapshots(Elements(Pins(r)));
      forall i | 0 <= i < |q| :: GraphIds(q[i])
  {
    assert forall i | 0 <= i < |Pins(r)| :: GraphIds(Pins(r)[i]);
    FewElements(Pins(r));
    FewSnapshots(Elements(Pins(r)));
    hide GraphIds, GoodIds;
    GraphIdsStay(Pins(r), Snapshots(Elements(Pins(r))));
  }

  lemma CombinedTame(x: Derivation, y: Derivation, j: nat, k: nat)
    requires Tame(x, j) && Tame(y, k)
    ensures
      var r := CombineRefs(Gates(x), Gates(y));
      1 <= RefsCount(r) <= j + k && GoodIds(r)
  {
    var joined := Joined(Gates(x), Gates(y));
    assert RefsCount(joined) == GroupCount(x) + GroupCount(y) && GoodIds(joined);
    hide NormalRefs, RefsCount, GoodIds, Shallow;
    NormalCount(joined);
    NormalIds(joined);
  }

  lemma AndShallow(enc: Encoding, x: Derivation, y: Derivation)
    requires enc.Valid() && Shallow(x) && Shallow(y)
    ensures Shallow(And(enc, x, y))
  {
    GatesOfAnd(enc, x, y);
    ConjunctsSet(enc, x, y);
    hide And, Conjuncts, InputsOf, Shallow;
    forall v | v in Conjuncts(enc, x, y) ensures Within(v, 3) {
      assert v in Elements(Conjuncts(enc, x, y));
      assert v in InputsOf(x) + InputsOf(y);
      InputsDepth(if v in InputsOf(x) then x else y, v);
    }
    IsShallow(And(enc, x, y), Conjuncts(enc, x, y));
  }

  lemma IsShallow(g: Derivation, items: seq<Json>)
    requires g.operator == AND && Flat(g, items)
    ensures Shallow(g)
  {
  }

  lemma TameAnd(enc: Encoding, x: Derivation, y: Derivation, j: nat, k: nat)
    requires enc.Valid() && Tame(x, j) && Tame(y, k)
    ensures Tame(And(enc, x, y), j + k)
  {
    var r, g := CombineRefs(Gates(x), Gates(y)), And(enc, x, y);
    CombinedTame(x, y, j, k);
    GatesOfAnd(enc, x, y);
    PinsGood(r);
    AndShallow(enc, x, y);
    assert Gates(g) == r && Id(AND);
    hide And, RefsCount, GoodIds, CombineRefs, Pins, Conjuncts, Gates, Shallow, Id, GraphIds, Snapshots, Elements;
  }

  lemma TinyProduct(enc: Encoding, x: Carrier, y: Carrier, m: nat, j: nat, n: nat, k: nat)
    requires enc.Valid() && Tiny(x, m, j) && Tiny(y, n, k)
    ensures Tiny(RawConjunction(enc, x, y), Area(m, n), j + k)
  {
    var gs := Products(enc, x.alternatives, y.alternatives);
    CombineNoRefs();
    ProductsEmpty(enc, x.alternatives, y.alternatives);
    NonzeroProduct(|x.alternatives|, |y.alternatives|);
    AreaAtMost(|x.alternatives|, |y.alternatives|, m, n);
    assert RawConjunction(enc, x, y) == Carrier(NO_REFS, gs);
    hide Tame, And, Products, CombineRefs;
    forall g | g in gs ensures Tame(g, j + k) {
      ProductsContain(enc, x.alternatives, y.alternatives, g);
      var u, v :| u in x.alternatives && v in y.alternatives && g == And(enc, u, v);
      TameAnd(enc, u, v, j, k);
    }
  }

  lemma TinyRaw(enc: Encoding, x: Carrier, y: Carrier, m: nat, j: nat, n: nat, k: nat)
    requires enc.Valid() && Tiny(x, m, j) && Tiny(y, n, k) && m <= 4 && n <= 4 && j <= 4 && k <= 4
    ensures RawFits(CAPS, x, y) && Tiny(RawConjunction(enc, x, y), 16, 8)
  {
    TinyProduct(enc, x, y, m, j, n, k);
    AreaAtMost(m, n, 4, 4);
    TinyWider(RawConjunction(enc, x, y), Area(m, n), j + k, 16, 8);
    CountsTiny(x, m, j);
    CountsTiny(y, n, k);
    AreaAtMost(GroupCounts(x.alternatives), |y.alternatives|, 16, 4);
    AreaAtMost(GroupCounts(y.alternatives), |x.alternatives|, 16, 4);
    AreaAtMost(|x.alternatives|, |y.alternatives|, 4, 4);
    CombineNoRefs();
    assert Area(16, 4) == 64 && Area(4, 4) == 16 && x.flat == NO_REFS && y.flat == NO_REFS && RefsCount(NO_REFS) == 0;
    hide RawConjunction, Tiny, CombineRefs, Area, RefsCount;
  }

  /** Small carriers can be conjoined within the limits. */
  lemma TinyFits(enc: Encoding, a: Carrier, b: Carrier, m: nat, j: nat, n: nat, k: nat)
    requires enc.Valid() && Tiny(a, m, j) && Tiny(b, n, k) && m <= 4 && n <= 4 && j <= 4 && k <= 4
    ensures ConjoinFits(enc, CAPS, a, b)
  {
    var x, y := Canonical(enc, a), Canonical(enc, b);
    hide Tiny, Canonical, RawConjunction, RawFits, ValidCarrier, Area;
    TinyCanonical(enc, a, m, j);
    TinyCanonical(enc, b, n, k);
    TinyRaw(enc, x, y, m, j, n, k);
    AreaAtMost(j, m, 4, 4);
    AreaAtMost(k, n, 4, 4);
    SmallAreas();
    TinyValid(a, m, j);
    TinyValid(b, n, k);
    TinyValid(RawConjunction(enc, x, y), 16, 8);
  }

  lemma SmallAreas()
    ensures Area(4, 4) == 16 && Area(8, 16) == 128
  {
  }

  lemma TinyWider(c: Carrier, m: nat, j: nat, n: nat, k: nat)
    requires Tiny(c, m, j) && m <= n && j <= k
    ensures Tiny(c, n, k)
  {
    hide Shallow, GoodIds, GroupCount;
  }

  lemma CountsTiny(c: Carrier, m: nat, j: nat)
    requires Tiny(c, m, j) && m <= 4 && j <= 4
    ensures GroupCounts(c.alternatives) <= 16 && |c.alternatives| <= 4 && RefsCount(c.flat) == 0
  {
    CountsBound(c.alternatives, j);
    AreaAtMost(j, |c.alternatives|, 4, 4);
  }

  /** Both bracketings are within the limits: given a budget for their costs, every call succeeds. */
  lemma BracketingsFit(enc: Encoding)
    requires enc.Valid()
    ensures ConjoinFits(enc, CAPS, TWO, TWO) && ConjoinFits(enc, CAPS, Conjoin(enc, TWO, TWO), THIRD)
    ensures ConjoinFits(enc, CAPS, TWO, THIRD) && ConjoinFits(enc, CAPS, TWO, Conjoin(enc, TWO, THIRD))
  {
    assert Tiny(TWO, 2, 1) && Tiny(THIRD, 1, 1);
    TinyFits(enc, TWO, TWO, 2, 1, 2, 1);
    TinyCanonical(enc, TWO, 2, 1);
    assert Conjoin(enc, TWO, TWO) == Canonical(enc, TWO);
    NotAbsorbed(enc);
    TinyFits(enc, TWO, THIRD, 2, 1, 1, 1);
    TinyCanonical(enc, THIRD, 1, 1);
    TinyProduct(enc, Canonical(enc, TWO), Canonical(enc, THIRD), 2, 1, 1, 1);
    TinyCanonical(enc, RawConjunction(enc, Canonical(enc, TWO), Canonical(enc, THIRD)), 2, 2);
    hide *;
    ConjoinDifferent(enc, TWO, THIRD);
    TinyFits(enc, Conjoin(enc, TWO, TWO), THIRD, 2, 1, 1, 1);
    TinyFits(enc, TWO, Conjoin(enc, TWO, THIRD), 2, 1, 2, 2);
  }

  lemma ConjoinDifferent(enc: Encoding, a: Carrier, b: Carrier)
    requires enc.Valid() && Canonical(enc, a) != Canonical(enc, b)
    ensures Conjoin(enc, a, b) == Canonical(enc, RawConjunction(enc, Canonical(enc, a), Canonical(enc, b)))
  {
    hide Canonical, RawConjunction;
  }
}
