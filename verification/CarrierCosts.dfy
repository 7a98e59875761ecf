/** What the bounded carrier operations accept and what they charge: the validity rules, the
    limits, and the exact work and bytes each operation takes from its budget. */
module CarrierCosts {
  import opened Orders
  import opened Restrictions
  import opened Carriers

  const MAX_GROUPS := 128
  const MAX_REFS := 1000
  const MAX_BYTES := 33554432
  const MAX_WORK := 1000000
  const MAX_DEPTH := 32
  const MAX_ID := 512

  datatype Limits = Limits(groups: nat, references: nat, bytes: nat, work: nat)

  datatype Code = BadReference | TooManyReferences | EmptyGroup | BudgetExceeded | DisjunctionProfile

  datatype Outcome<T> = Ok(value: T) | Err(code: Code)

  // ----- counts and validity -----

  /** A product of counts, looked into only by lemmas about arithmetic. */
  function Area(m: nat, n: nat): nat {
    m * n
  }

  function RefsCount(r: RefSet): nat {
    |r.assertions| + |r.nodes| + |r.snapshots|
  }

  function GroupCount(g: Derivation): nat {
    RefsCount(Gates(g))
  }

  function GroupCounts(gs: seq<Derivation>): nat {
    if gs == [] then 0 else GroupCounts(gs[..|gs| - 1]) + GroupCount(gs[|gs| - 1])
  }

  predicate Id(s: string) {
    s != "" && |s| <= MAX_ID
  }

  predicate RecordIds(r: RecordRef) {
    Id(r.graph) && Id(r.revision) && Id(r.record)
  }

  predicate GraphIds(r: GraphRef) {
    Id(r.graph) && Id(r.revision)
  }

  predicate GoodIds(r: RefSet) {
    && (forall i | 0 <= i < |r.assertions| :: RecordIds(r.assertions[i]))
    && (forall i | 0 <= i < |r.nodes| :: RecordIds(r.nodes[i]))
    && (forall i | 0 <= i < |r.snapshots| :: GraphIds(r.snapshots[i]))
  }

  /** No value nested more than `room` levels below this one. */
  predicate Within(v: Json, room: int) {
    room >= 0 && match v
      case Arr(items) => forall i | 0 <= i < |items| :: Within(items[i], room - 1)
      case Obj(fields) => forall k | k in fields :: Within(fields[k], room - 1)
      case _ => true
  }

  predicate ValidGroup(g: Derivation) {
    && GroupCount(g) > 0 && Id(g.operator)
    && GroupCount(g) <= MAX_REFS && GoodIds(Gates(g))
    && |g.inputSnapshots| <= MAX_REFS && (forall i | 0 <= i < |g.inputSnapshots| :: GraphIds(g.inputSnapshots[i]))
    && forall k | k in g.parameters :: Within(g.parameters[k], MAX_DEPTH)
  }

  predicate ValidCarrier(limits: Limits, c: Carrier) {
    && |c.alternatives| <= limits.groups
    && RefsCount(c.flat) <= MAX_REFS && GoodIds(c.flat)
    && RefsCount(c.flat) + GroupCounts(c.alternatives) <= limits.references
    && forall i | 0 <= i < |c.alternatives| :: ValidGroup(c.alternatives[i])
  }

  // ----- costs -----

  datatype Cost = Cost(work: nat, bytes: nat) {
    function Plus(other: Cost): Cost {
      Cost(work + other.work, bytes + other.bytes)
    }

    predicate AtMost(other: Cost) {
      work <= other.work && bytes <= other.bytes
    }
  }

  const FREE := Cost(0, 0)
  const STEP := Cost(1, 0)

  function ChargeCost(enc: Encoding, text: Written): Cost {
    Cost(1, enc.size(text))
  }

  /** The number of values in a JSON value, counting itself. */
  function Size(v: Json): nat
    decreases v, 1, 0
  {
    match v
    case Arr(items) => 1 + SizeItems(v, |items|)
    case Obj(fields) => 1 + SizeFields(v, SortStrings(fields.Keys))
    case _ => 1
  }

  function SizeItems(v: Json, n: nat): nat
    requires v.Arr? && n <= |v.items|
    decreases v, 0, n
  {
    if n == 0 then 0 else SizeItems(v, n - 1) + Size(v.items[n - 1])
  }

  function SizeFields(v: Json, keys: seq<string>): nat
    requires v.Obj? && forall i | 0 <= i < |keys| :: keys[i] in v.fields
    decreases v, 0, |keys|
  {
    if keys == [] then 0
    else SizeFields(v, keys[..|keys| - 1]) + Size(v.fields[keys[|keys| - 1]])
  }

  function ParametersSize(g: Derivation): nat {
    Size(Obj(g.parameters)) - 1
  }

  function GroupsWork(gs: seq<Derivation>): nat {
    if gs == [] then 0 else GroupsWork(gs[..|gs| - 1]) + 1 + ParametersSize(gs[|gs| - 1])
  }

  function ValidateCost(enc: Encoding, c: Carrier): Cost {
    Cost(GroupsWork(c.alternatives), 0).Plus(ChargeCost(enc, CarrierText(c)))
  }

  function KeyCost(enc: Encoding, gs: seq<Derivation>): Cost {
    if gs == [] then FREE
    else KeyCost(enc, gs[..|gs| - 1]).Plus(STEP).Plus(ChargeCost(enc, GroupText(NormalGroup(gs[|gs| - 1]))))
  }

  function CanonicalCost(enc: Encoding, c: Carrier): Cost {
    ValidateCost(enc, c).Plus(ChargeCost(enc, CarrierText(c))).Plus(KeyCost(enc, c.alternatives))
  }

  function MakeCost(enc: Encoding, gates: RefSet, parents: Json): Cost {
    ChargeCost(enc, GatesText(gates, parents))
  }

  function AndCost(enc: Encoding, x: Derivation, y: Derivation): Cost
    requires enc.Valid()
  {
    STEP.Plus(ChargeCost(enc, GroupText(x))).Plus(ChargeCost(enc, GroupText(y)))
      .Plus(ChargeCost(enc, RefsText(Gates(x), Gates(y))))
      .Plus(MakeCost(enc, CombineRefs(Gates(x), Gates(y)), Arr(Conjuncts(enc, x, y))))
  }

  function AndRowCost(enc: Encoding, x: Derivation, ys: seq<Derivation>): Cost
    requires enc.Valid()
  {
    if ys == [] then FREE else AndRowCost(enc, x, ys[..|ys| - 1]).Plus(AndCost(enc, x, ys[|ys| - 1]))
  }

  function ProductsCost(enc: Encoding, xs: seq<Derivation>, ys: seq<Derivation>): Cost
    requires enc.Valid()
  {
    if xs == [] then FREE
    else ProductsCost(enc, xs[..|xs| - 1], ys).Plus(AndRowCost(enc, xs[|xs| - 1], ys))
  }

  function JoinCost(enc: Encoding, a: Carrier, b: Carrier): Cost
    requires enc.Valid()
  {
    if a.alternatives == [] then ChargeCost(enc, GroupsText(b.alternatives))
    else if b.alternatives == [] then ChargeCost(enc, GroupsText(a.alternatives))
    else ProductsCost(enc, a.alternatives, b.alternatives)
  }

  /** The cost of conjoining two carriers that are already canonical, before the final form. */
  function RawCost(enc: Encoding, a: Carrier, b: Carrier): Cost
    requires enc.Valid()
  {
    ChargeCost(enc, RefsText(a.flat, b.flat)).Plus(JoinCost(enc, a, b))
  }

  function ConjoinCost(enc: Encoding, a: Carrier, b: Carrier): Cost
    requires enc.Valid()
  {
    var x, y := Canonical(enc, a), Canonical(enc, b);
    CanonicalCost(enc, a).Plus(CanonicalCost(enc, b)).Plus(
      if x == y then FREE else RawCost(enc, x, y).Plus(CanonicalCost(enc, RawConjunction(enc, x, y))))
  }

  /** The references a product of alternatives would hold in all. */
  function ProductRefs(a: Carrier, b: Carrier): nat {
    Area(GroupCounts(a.alternatives), |b.alternatives|) + Area(GroupCounts(b.alternatives), |a.alternatives|)
    + RefsCount(CombineRefs(a.flat, b.flat))
  }

  predicate RawFits(limits: Limits, a: Carrier, b: Carrier) {
    && RefsCount(a.flat) + RefsCount(b.flat) <= limits.references
    && (a.alternatives != [] && b.alternatives != [] ==>
          Area(|a.alternatives|, |b.alternatives|) <= limits.groups && ProductRefs(a, b) <= limits.references)
  }

  /** Whether a conjunction is within the limits: valid inputs, and either equal sides or a
      result that is itself valid. */
  predicate ConjoinFits(enc: Encoding, limits: Limits, a: Carrier, b: Carrier)
    requires enc.Valid()
  {
    var x, y := Canonical(enc, a), Canonical(enc, b);
    && ValidCarrier(limits, a) && ValidCarrier(limits, b)
    && (x != y ==> RawFits(limits, x, y) && ValidCarrier(limits, RawConjunction(enc, x, y)))
  }

  /** How many alternatives a carrier becomes when its flat gates are distributed. */
  function Spread(c: Carrier): nat {
    if c.alternatives == [] then 1 else |c.alternatives|
  }

  function BranchRefs(c: Carrier): nat {
    Area(RefsCount(c.flat), Spread(c)) + GroupCounts(c.alternatives)
  }

  function BranchCost(enc: Encoding, flat: RefSet, g: Derivation): Cost {
    ChargeCost(enc, GroupText(g)).Plus(ChargeCost(enc, RefsText(flat, Gates(g))))
      .Plus(MakeCost(enc, CombineRefs(flat, Gates(g)), Arr([FlatJson(flat), GroupJson(g)])))
  }

  function BranchListCost(enc: Encoding, flat: RefSet, gs: seq<Derivation>): Cost {
    if gs == [] then FREE
    else BranchListCost(enc, flat, gs[..|gs| - 1]).Plus(BranchCost(enc, flat, gs[|gs| - 1]))
  }

  function BranchesCost(enc: Encoding, c: Carrier): Cost {
    if c.alternatives == []
    then ChargeCost(enc, FlatText(c.flat)).Plus(MakeCost(enc, c.flat, FlatJson(c.flat)))
    else BranchListCost(enc, c.flat, c.alternatives)
  }

  /** No branch without a restriction: the one thing an alternative cannot express. */
  predicate NoEmptyBranch(c: Carrier) {
    if c.alternatives == [] then RefsCount(c.flat) > 0
    else forall i | 0 <= i < |c.alternatives| :: RefsCount(c.flat) + GroupCount(c.alternatives[i]) > 0
  }

  predicate BranchesFit(limits: Limits, c: Carrier) {
    BranchRefs(c) <= limits.references && NoEmptyBranch(c)
  }

  function DistributeCost(enc: Encoding, branch: Carrier, flat: Carrier): Cost
    requires enc.Valid()
  {
    var joined := Conjoin(enc, branch, flat);
    ConjoinCost(enc, branch, flat).Plus(BranchesCost(enc, joined))
      .Plus(CanonicalCost(enc, Carrier(NO_REFS, Branches(joined))))
  }

  predicate DistributeFits(enc: Encoding, limits: Limits, branch: Carrier, flat: Carrier)
    requires enc.Valid()
  {
    var joined := Conjoin(enc, branch, flat);
    && ConjoinFits(enc, limits, branch, flat) && BranchesFit(limits, joined)
    && ValidCarrier(limits, Carrier(NO_REFS, Branches(joined)))
  }

  function DisjoinCost(enc: Encoding, a: Carrier, b: Carrier): Cost
    requires enc.Valid()
  {
    var x, y := Canonical(enc, a), Canonical(enc, b);
    CanonicalCost(enc, a).Plus(CanonicalCost(enc, b)).Plus(
      if Unconditional(x) || Unconditional(y) then FREE
      else BranchesCost(enc, x).Plus(BranchesCost(enc, y))
             .Plus(CanonicalCost(enc, Carrier(NO_REFS, Branches(x) + Branches(y)))))
  }

  predicate DisjoinFits(enc: Encoding, limits: Limits, a: Carrier, b: Carrier)
    requires enc.Valid()
  {
    var x, y := Canonical(enc, a), Canonical(enc, b);
    && ValidCarrier(limits, a) && ValidCarrier(limits, b) && Unconditional(x) == Unconditional(y)
    && (!Unconditional(x) ==>
          && Spread(x) + Spread(y) <= limits.groups
          && BranchRefs(x) + BranchRefs(y) <= limits.references
          && ValidCarrier(limits, Carrier(NO_REFS, Branches(x) + Branches(y))))
  }
}
