/** The budget that bounds carrier composition, and the operations that draw on it. */
module CarrierBudget {
  import opened Orders
  import opened Restrictions
  import opened Carriers
  import opened CarrierCosts

  function Min(a: nat, b: nat): nat {
    if a <= b then a else b
  }

  lemma {:induction false} SizeItemsMonotone(v: Json, m: nat, n: nat)
    requires v.Arr? && m <= n <= |v.items|
    ensures SizeItems(v, m) <= SizeItems(v, n)
  {
    if m < n { SizeItemsMonotone(v, m, n - 1); }
  }

  lemma {:induction false} SizeFieldsMonotone(v: Json, keys: seq<string>, m: nat)
    requires v.Obj? && m <= |keys| && forall i | 0 <= i < |keys| :: keys[i] in v.fields
    ensures SizeFields(v, keys[..m]) <= SizeFields(v, keys)
  {
    if m == |keys| {
      assert keys[..m] == keys;
    } else {
      SizeFieldsMonotone(v, keys[..|keys| - 1], m);
      assert keys[..|keys| - 1][..m] == keys[..m];
    }
  }

  lemma {:induction false} GroupsWorkMonotone(gs: seq<Derivation>, m: nat)
    requires m <= |gs|
    ensures GroupsWork(gs[..m]) <= GroupsWork(gs)
    ensures GroupCounts(gs[..m]) <= GroupCounts(gs)
  {
    if m == |gs| {
      assert gs[..m] == gs;
    } else {
      GroupsWorkMonotone(gs[..|gs| - 1], m);
      assert gs[..|gs| - 1][..m] == gs[..m];
    }
  }

  lemma {:induction false} KeyCostMonotone(enc: Encoding, gs: seq<Derivation>, m: nat)
    requires m <= |gs|
    ensures KeyCost(enc, gs[..m]).AtMost(KeyCost(enc, gs))
  {
    if m == |gs| {
      assert gs[..m] == gs;
    } else {
      KeyCostMonotone(enc, gs[..|gs| - 1], m);
      assert gs[..|gs| - 1][..m] == gs[..m];
    }
  }

  ghost predicate ItemsWithin(v: Json, n: nat, room: int)
    requires v.Arr? && n <= |v.items|
  {
    forall i | 0 <= i < n :: Within(v.items[i], room)
  }

  ghost predicate KeysWithin(v: Json, keys: seq<string>, room: int) {
    v.Obj? && forall i | 0 <= i < |keys| :: keys[i] in v.fields && Within(v.fields[keys[i]], room)
  }

  lemma LeafWithin(v: Json, room: int)
    ensures Size(v) >= 1 && (Within(v, room) ==> room >= 0)
    ensures !v.Arr? && !v.Obj? ==> Size(v) == 1 && (room >= 0 ==> Within(v, room))
  {
  }

  lemma ArrWithin(v: Json, room: int)
    requires v.Arr?
    ensures Within(v, room) <==> room >= 0 && ItemsWithin(v, |v.items|, room - 1)
    ensures Size(v) == 1 + SizeItems(v, |v.items|)
  {
  }

  lemma OneMoreKey(v: Json, keys: seq<string>, i: nat, room: int)
    requires v.Obj? && i < |keys| && forall h | 0 <= h < |keys| :: keys[h] in v.fields
    ensures KeysWithin(v, keys[..i + 1], room) <==> KeysWithin(v, keys[..i], room) && Within(v.fields[keys[i]], room)
    ensures SizeFields(v, keys[..i + 1]) == SizeFields(v, keys[..i]) + Size(v.fields[keys[i]])
    ensures KeysWithin(v, keys, room) ==> KeysWithin(v, keys[..i + 1], room)
  {
    hide Within, Size;
    var more := keys[..i + 1];
    assert more[..i] == keys[..i] && more[i] == keys[i];
    if KeysWithin(v, keys[..i], room) && Within(v.fields[keys[i]], room) {
      forall h | 0 <= h < |more| ensures Within(v.fields[more[h]], room) {
        assert h < i ==> more[h] == keys[..i][h];
      }
    }
    if KeysWithin(v, more, room) {
      forall h | 0 <= h < i ensures Within(v.fields[keys[..i][h]], room) { assert more[h] == keys[..i][h]; }
      assert Within(v.fields[more[i]], room);
    }
  }

  lemma FieldsWithin(v: Json, room: int)
    requires v.Obj?
    ensures Within(v, room + 1) <==> room >= -1 && forall k | k in v.fields :: Within(v.fields[k], room)
  {
  }

  lemma SizeUnfolds(v: Json)
    requires v.Obj?
    ensures
      var keys := SortStrings(v.fields.Keys);
      && (forall i | 0 <= i < |keys| :: keys[i] in v.fields)
      && Size(v) == 1 + SizeFields(v, keys)
  {
    hide Ascending;
    var keys := SortStrings(v.fields.Keys);
    forall i | 0 <= i < |keys| ensures keys[i] in v.fields { assert keys[i] in Elements(keys); }
  }

  /** The fields of an object, checked in key order. */
  lemma ObjWithin(v: Json, room: int)
    requires v.Obj?
    ensures
      var keys := SortStrings(v.fields.Keys);
      && (forall i | 0 <= i < |keys| :: keys[i] in v.fields)
      && (KeysWithin(v, keys, room) <==> forall k | k in v.fields :: Within(v.fields[k], room))
      && (Within(v, room + 1) <==> room >= -1 && KeysWithin(v, keys, room))
      && Size(v) == 1 + SizeFields(v, keys)
  {
    FieldsWithin(v, room);
    SizeUnfolds(v);
    hide Within, Size, SizeFields, Ascending;
    var fields, keys := v.fields, SortStrings(v.fields.Keys);
    forall i | 0 <= i < |keys| ensures keys[i] in fields { assert keys[i] in Elements(keys); }
    if KeysWithin(v, keys, room) {
      forall k | k in fields ensures Within(fields[k], room) {
        assert k in Elements(keys);
        var i :| 0 <= i < |keys| && keys[i] == k;
      }
    }
  }

  lemma NoEmptyGroup(g: Derivation)
    ensures ValidGroup(g) ==> GroupCount(g) > 0
  {
  }

  /** A map from texts to the alternatives of a set. */
  ghost predicate Keyed(enc: Encoding, groups: map<string, Derivation>, s: set<Derivation>) {
    && (forall k | k in groups :: groups[k] in s && enc.group(groups[k]) == k)
    && (forall g | g in s :: enc.group(g) in groups)
  }

  lemma OneMoreGroup(enc: Encoding, groups: map<string, Derivation>, gs: seq<Derivation>, i: nat)
    requires enc.Valid() && i < |gs| && Keyed(enc, groups, NormalGroups(gs[..i]))
    ensures
      var g := NormalGroup(gs[i]);
      Keyed(enc, if enc.group(g) in groups then groups else groups[enc.group(g) := g], NormalGroups(gs[..i + 1]))
  {
    hide NormalGroup;
    var g := NormalGroup(gs[i]);
    assert gs[..i + 1] == gs[..i] + [gs[i]];
    assert NormalGroups(gs[..i + 1]) == NormalGroups(gs[..i]) + {g};
  }

  /** The values of the map by ascending text. */
  method InKeyOrder(enc: Encoding, groups: map<string, Derivation>, ghost s: set<Derivation>)
      returns (out: seq<Derivation>)
    requires enc.Valid() && Keyed(enc, groups, s)
    ensures out == Groups(enc, s)
  {
    var keys := SortStrings(groups.Keys);
    forall i | 0 <= i < |keys| ensures keys[i] in groups { assert keys[i] in Elements(keys); }
    out := seq(|keys|, i requires 0 <= i < |keys| && keys[i] in groups => groups[keys[i]]);
    assert Lists(groups, keys, out);
    InKeyOrderIsListing(enc, groups, s, keys, out);
  }

  /** A sequence listing the map by the given keys. */
  ghost predicate Lists(groups: map<string, Derivation>, keys: seq<string>, out: seq<Derivation>) {
    |out| == |keys| && forall i | 0 <= i < |keys| :: keys[i] in groups && out[i] == groups[keys[i]]
  }

  lemma ListsAll(enc: Encoding, groups: map<string, Derivation>, s: set<Derivation>,
                 keys: seq<string>, out: seq<Derivation>)
    requires enc.Valid() && Keyed(enc, groups, s) && Elements(keys) == groups.Keys && Lists(groups, keys, out)
    ensures Elements(out) == s
  {
    forall g ensures g in Elements(out) <==> g in s {
      if g in s {
        assert enc.group(g) in Elements(keys);
        var i :| 0 <= i < |keys| && keys[i] == enc.group(g);
        assert out[i] in Elements(out) && groups[keys[i]] in s;
        SameText(enc, out[i], g);
      }
      if g in Elements(out) {
        var i :| 0 <= i < |out| && out[i] == g;
        assert keys[i] in groups;
      }
    }
  }

  lemma SameText(enc: Encoding, g: Derivation, h: Derivation)
    requires enc.Valid() && enc.group(g) == enc.group(h)
    ensures g == h
  {
  }

  lemma SingleKeys(a: string, b: string)
    requires StringLess(a, b)
    ensures KeyLess([a], [b])
  {
    StringTrichotomy(a, a);
  }

  lemma ListsAscending(enc: Encoding, groups: map<string, Derivation>, s: set<Derivation>,
                       keys: seq<string>, out: seq<Derivation>)
    requires Keyed(enc, groups, s) && Ascending(StringLess, keys) && Lists(groups, keys, out)
    ensures Ascending(By(GroupKey(enc)), out)
  {
    forall i, j | 0 <= i < j < |out| ensures KeyLess(GroupKey(enc)(out[i]), GroupKey(enc)(out[j])) {
      assert StringLess(keys[i], keys[j]);
      SingleKeys(keys[i], keys[j]);
    }
  }

  lemma InKeyOrderIsListing(enc: Encoding, groups: map<string, Derivation>, s: set<Derivation>,
                            keys: seq<string>, out: seq<Derivation>)
    requires enc.Valid() && Keyed(enc, groups, s)
    requires Ascending(StringLess, keys) && Elements(keys) == groups.Keys && Lists(groups, keys, out)
    ensures out == Groups(enc, s)
  {
    hide Keyed, Lists, Ascending, StringLess;
    GroupKeyInjective(enc);
    ListsAll(enc, groups, s, keys, out);
    ListsAscending(enc, groups, s, keys, out);
    ListingUnique(GroupKey(enc), out);
  }

  lemma AreaFacts(m: nat, n: nat)
    ensures Area(m, 0) == 0 == Area(0, m) && Area(m, n + 1) == Area(m, n) + m && Area(m + 1, n) == Area(m, n) + n
    ensures Area(m, 1) == m && Area(m, n) == Area(n, m)
  {
  }

  lemma AreaAdds(a: nat, b: nat, n: nat)
    ensures Area(a + b, n) == Area(a, n) + Area(b, n)
  {
  }

  lemma AreaMonotone(m: nat, a: nat, b: nat)
    requires a <= b
    ensures Area(m, a) <= Area(m, b)
  {
    assert m * a <= m * b;
  }

  lemma CombineNonempty(a: RefSet, b: RefSet)
    ensures RefsCount(CombineRefs(a, b)) == 0 <==> RefsCount(a) + RefsCount(b) == 0
  {
    assert |a.assertions + b.assertions| > 0 ==> (a.assertions + b.assertions)[0] in Elements(a.assertions + b.assertions);
    assert |a.nodes + b.nodes| > 0 ==> (a.nodes + b.nodes)[0] in Elements(a.nodes + b.nodes);
    assert |a.snapshots + b.snapshots| > 0 ==> (a.snapshots + b.snapshots)[0] in Elements(a.snapshots + b.snapshots);
    if RefsCount(a) + RefsCount(b) == 0 {
      assert Joined(a, b) == NO_REFS;
      NormalNoRefs();
    }
  }

  lemma {:induction false} AndRowCostMonotone(enc: Encoding, x: Derivation, ys: seq<Derivation>, m: nat)
    requires enc.Valid() && m <= |ys|
    ensures AndRowCost(enc, x, ys[..m]).AtMost(AndRowCost(enc, x, ys))
  {
    hide AndCost;
    if m == |ys| {
      assert ys[..m] == ys;
    } else {
      AndRowCostMonotone(enc, x, ys[..|ys| - 1], m);
      assert ys[..|ys| - 1][..m] == ys[..m];
    }
  }

  lemma RowStart(enc: Encoding, x: Derivation, ys: seq<Derivation>)
    requires enc.Valid()
    ensures ys[..0] == [] && ys[..|ys|] == ys
    ensures AndRow(enc, x, []) == [] && AndRowCost(enc, x, []) == FREE
    ensures Area(GroupCount(x), 0) == 0 && GroupCounts([]) == 0
  {
  }

  lemma CountsStep(ys: seq<Derivation>, j: nat)
    requires j < |ys|
    ensures GroupCounts(ys[..j + 1]) == GroupCounts(ys[..j]) + GroupCount(ys[j])
    ensures GroupCounts(ys[..j + 1]) <= GroupCounts(ys)
  {
    hide GroupCount;
    assert ys[..j + 1][..j] == ys[..j];
    GroupsWorkMonotone(ys, j + 1);
  }

  /** What one more alternative on the right adds, and that it stays within the whole row. */
  lemma RowStep(enc: Encoding, x: Derivation, ys: seq<Derivation>, j: nat)
    requires enc.Valid() && j < |ys|
    ensures AndRow(enc, x, ys[..j + 1]) == AndRow(enc, x, ys[..j]) + [And(enc, x, ys[j])]
    ensures AndRowCost(enc, x, ys[..j + 1]) == AndRowCost(enc, x, ys[..j]).Plus(AndCost(enc, x, ys[j]))
    ensures AndRowCost(enc, x, ys[..j + 1]).AtMost(AndRowCost(enc, x, ys))
  {
    hide And, AndCost;
    assert ys[..j + 1][..j] == ys[..j];
    AndRowCostMonotone(enc, x, ys, j + 1);
  }

  lemma RowCounts(x: Derivation, ys: seq<Derivation>, j: nat)
    requires j < |ys|
    ensures Area(GroupCount(x), j + 1) == Area(GroupCount(x), j) + GroupCount(x)
    ensures Area(GroupCount(x), j + 1) <= Area(GroupCount(x), |ys|)
    ensures GroupCounts(ys[..j + 1]) == GroupCounts(ys[..j]) + GroupCount(ys[j])
    ensures GroupCounts(ys[..j + 1]) <= GroupCounts(ys)
  {
    hide GroupCount, Area, GroupCounts;
    AreaFacts(GroupCount(x), j);
    AreaMonotone(GroupCount(x), j + 1, |ys|);
    CountsStep(ys, j);
  }

  lemma ProductsStart(enc: Encoding, xs: seq<Derivation>, ys: seq<Derivation>)
    requires enc.Valid()
    ensures xs[..0] == [] && xs[..|xs|] == xs
    ensures Products(enc, [], ys) == [] && ProductsCost(enc, [], ys) == FREE
    ensures Area(GroupCounts([]), |ys|) == 0 == Area(GroupCounts(ys), 0)
  {
  }

  lemma {:induction false} ProductsCostMonotone(enc: Encoding, xs: seq<Derivation>, ys: seq<Derivation>, m: nat)
    requires enc.Valid() && m <= |xs|
    ensures ProductsCost(enc, xs[..m], ys).AtMost(ProductsCost(enc, xs, ys))
  {
    hide AndRowCost;
    if m == |xs| {
      assert xs[..m] == xs;
    } else {
      ProductsCostMonotone(enc, xs[..|xs| - 1], ys, m);
      assert xs[..|xs| - 1][..m] == xs[..m];
    }
  }

  /** What one more alternative on the left adds, and that it stays within the whole product. */
  lemma ProductsStep(enc: Encoding, xs: seq<Derivation>, ys: seq<Derivation>, i: nat)
    requires enc.Valid() && i < |xs|
    ensures Products(enc, xs[..i + 1], ys) == Products(enc, xs[..i], ys) + AndRow(enc, xs[i], ys)
    ensures ProductsCost(enc, xs[..i + 1], ys) == ProductsCost(enc, xs[..i], ys).Plus(AndRowCost(enc, xs[i], ys))
    ensures ProductsCost(enc, xs[..i + 1], ys).AtMost(ProductsCost(enc, xs, ys))
  {
    hide AndRow, AndRowCost;
    assert xs[..i + 1][..i] == xs[..i];
    ProductsCostMonotone(enc, xs, ys, i + 1);
  }

  lemma ProductsCounts(xs: seq<Derivation>, ys: seq<Derivation>, i: nat)
    requires i < |xs|
    ensures Area(GroupCounts(xs[..i + 1]), |ys|) == Area(GroupCounts(xs[..i]), |ys|) + Area(GroupCount(xs[i]), |ys|)
    ensures Area(GroupCounts(xs[..i + 1]), |ys|) <= Area(GroupCounts(xs), |ys|)
    ensures Area(GroupCounts(ys), i + 1) == Area(GroupCounts(ys), i) + GroupCounts(ys)
    ensures Area(GroupCounts(ys), i + 1) <= Area(GroupCounts(ys), |xs|)
  {
    hide *;
    CountsStep(xs, i);
    AreaStep(GroupCounts(xs[..i + 1]), GroupCounts(xs[..i]), GroupCount(xs[i]), GroupCounts(xs), |ys|);
    AreaRight(GroupCounts(ys), i, |xs|);
  }

  lemma AreaStep(next: nat, a: nat, b: nat, total: nat, n: nat)
    requires next == a + b && next <= total
    ensures Area(next, n) == Area(a, n) + Area(b, n) && Area(next, n) <= Area(total, n)
  {
    hide Area;
    AreaLeft(a, b, total, n);
  }

  lemma AreaLeft(a: nat, b: nat, total: nat, n: nat)
    requires a + b <= total
    ensures Area(a + b, n) == Area(a, n) + Area(b, n) && Area(a + b, n) <= Area(total, n)
  {
    hide Area;
    AreaAdds(a, b, n);
    AreaAdds(a + b, total - a - b, n);
  }

  lemma AreaRight(m: nat, i: nat, n: nat)
    requires i < n
    ensures Area(m, i + 1) == Area(m, i) + m && Area(m, i + 1) <= Area(m, n)
  {
    hide Area;
    AreaFacts(m, i);
    AreaMonotone(m, i + 1, n);
  }

  /** Canonical alternatives keep at least one premise each. */
  lemma CanonicalPositive(enc: Encoding, limits: Limits, c: Carrier)
    requires enc.Valid() && ValidCarrier(limits, c)
    ensures
      var gs := Canonical(enc, c).alternatives;
      forall i | 0 <= i < |gs| :: 0 < GroupCount(gs[i])
  {
    hide NormalGroup, GroupCount, ValidGroup, GoodIds, RefsCount;
    var gs := Canonical(enc, c).alternatives;
    forall i | 0 <= i < |gs| ensures 0 < GroupCount(gs[i]) {
      assert gs[i] in Elements(gs);
      var g :| g in c.alternatives && NormalGroup(g) == gs[i];
      var h :| 0 <= h < |c.alternatives| && c.alternatives[h] == g;
      NoEmptyGroup(c.alternatives[h]);
      NormalPositive(g);
    }
  }

  lemma NormalPositive(g: Derivation)
    requires GroupCount(g) > 0
    ensures GroupCount(NormalGroup(g)) > 0
  {
    if g.premises != [] { assert g.premises[0] in Elements(g.premises); }
    else if g.nodePremises != [] { assert g.nodePremises[0] in Elements(g.nodePremises); }
    else { assert g.snapshotPremises[0] in Elements(g.snapshotPremises); }
  }

  lemma ConditionalBranches(c: Carrier)
    requires !Unconditional(c) && forall i | 0 <= i < |c.alternatives| :: 0 < GroupCount(c.alternatives[i])
    ensures NoEmptyBranch(c)
  {
    if RefsCount(c.flat) == 0 { assert c.flat == NO_REFS; }
  }

  lemma BranchStart(enc: Encoding, flat: RefSet, gs: seq<Derivation>)
    ensures gs[..0] == [] && gs[..|gs|] == gs && BranchListCost(enc, flat, []) == FREE
  {
  }

  lemma {:induction false} BranchListCostMonotone(enc: Encoding, flat: RefSet, gs: seq<Derivation>, m: nat)
    requires m <= |gs|
    ensures BranchListCost(enc, flat, gs[..m]).AtMost(BranchListCost(enc, flat, gs))
  {
    hide BranchCost;
    if m == |gs| {
      assert gs[..m] == gs;
    } else {
      BranchListCostMonotone(enc, flat, gs[..|gs| - 1], m);
      assert gs[..|gs| - 1][..m] == gs[..m];
    }
  }

  /** What one more branch adds, and that it stays within the whole list. */
  lemma BranchStep(enc: Encoding, c: Carrier, i: nat)
    requires i < |c.alternatives|
    ensures
      var gs, flat := c.alternatives, c.flat;
      && BranchListCost(enc, flat, gs[..i + 1]) == BranchListCost(enc, flat, gs[..i]).Plus(BranchCost(enc, flat, gs[i]))
      && BranchListCost(enc, flat, gs[..i + 1]).AtMost(BranchListCost(enc, flat, gs))
      && RefsCount(flat) + GroupCount(gs[i]) <= BranchRefs(c)
  {
    hide BranchCost, Area, RefsCount, GroupCount;
    var gs := c.alternatives;
    assert gs[..i + 1][..i] == gs[..i];
    BranchListCostMonotone(enc, c.flat, gs, i + 1);
    CountsStep(gs, i);
    AreaFacts(RefsCount(c.flat), 0);
    AreaMonotone(RefsCount(c.flat), 1, |gs|);
  }

  datatype Check = Passed | Failed(code: Code)

  class Budget {
    const limits: Limits
    var bytes: nat
    var work: nat

    /** Every limit is capped. */
    constructor (asked: Limits)
      ensures limits.groups == if asked.groups <= 128 then asked.groups else 128
      ensures limits.references == if asked.references <= 1000 then asked.references else 1000
      ensures limits.bytes == if asked.bytes <= 32 * 1024 * 1024 then asked.bytes else 32 * 1024 * 1024
      ensures limits.work == if asked.work <= 1_000_000 then asked.work else 1_000_000
      ensures Left() == Cost(limits.work, limits.bytes)
    {
      limits := Limits(Min(asked.groups, MAX_GROUPS), Min(asked.references, MAX_REFS),
                       Min(asked.bytes, MAX_BYTES), Min(asked.work, MAX_WORK));
      bytes := Min(asked.bytes, MAX_BYTES);
      work := Min(asked.work, MAX_WORK);
    }

    function Left(): Cost
      reads this
    {
      Cost(work, bytes)
    }

    method Step() returns (ok: bool)
      modifies this
      ensures ok <==> STEP.AtMost(old(Left()))
      ensures ok ==> old(Left()) == Left().Plus(STEP)
      ensures bytes == old(bytes)
    {
      ok := work > 0;
      if ok { work := work - 1; }
    }

    /** One step and the length of the text. */
    method Charge(enc: Encoding, text: Written) returns (ok: bool)
      modifies this
      ensures ok <==> ChargeCost(enc, text).AtMost(old(Left()))
      ensures ok ==> old(Left()) == Left().Plus(ChargeCost(enc, text))
    {
      ok := Step();
      if ok {
        ok := enc.size(text) <= bytes;
        if ok { bytes := bytes - enc.size(text); }
      }
    }

    /** Counts the values in a JSON value and refuses one nested too deeply. */
    method ValueDepth(v: Json, depth: nat) returns (ok: bool)
      modifies this
      ensures ok <==> Within(v, MAX_DEPTH - depth) && Size(v) <= old(work)
      ensures ok ==> work == old(work) - Size(v)
      ensures bytes == old(bytes)
      decreases v, 1
    {
      LeafWithin(v, MAX_DEPTH - depth);
      hide Within, Size, SizeItems, SizeFields, ItemsWithin, KeysWithin;
      ok := Step();
      if !ok || depth > MAX_DEPTH { return false; }
      if v.Arr? {
        ArrWithin(v, MAX_DEPTH - depth);
        ok := ItemsDepth(v, depth + 1);
      } else if v.Obj? {
        ObjWithin(v, MAX_DEPTH - depth - 1);
        ok := FieldsDepth(v, SortStrings(v.fields.Keys), depth + 1);
      }
    }

    method ItemsDepth(v: Json, depth: nat) returns (ok: bool)
      requires v.Arr?
      modifies this
      ensures ok <==> ItemsWithin(v, |v.items|, MAX_DEPTH - depth) && SizeItems(v, |v.items|) <= old(work)
      ensures ok ==> work == old(work) - SizeItems(v, |v.items|)
      ensures bytes == old(bytes)
      decreases v, 0
    {
      hide Within;
      ok := true;
      for i := 0 to |v.items|
        invariant ok && bytes == old(bytes)
        invariant work == old(work) - SizeItems(v, i)
        invariant ItemsWithin(v, i, MAX_DEPTH - depth)
      {
        ok := ValueDepth(v.items[i], depth);
        if !ok {
          SizeItemsMonotone(v, i + 1, |v.items|);
          return;
        }
      }
    }

    method FieldsDepth(v: Json, keys: seq<string>, depth: nat) returns (ok: bool)
      requires v.Obj? && forall i | 0 <= i < |keys| :: keys[i] in v.fields
      modifies this
      ensures ok <==> KeysWithin(v, keys, MAX_DEPTH - depth) && SizeFields(v, keys) <= old(work)
      ensures ok ==> work == old(work) - SizeFields(v, keys)
      ensures bytes == old(bytes)
      decreases v, 0
    {
      assert keys[..0] == [] && keys[..|keys|] == keys && KeysWithin(v, [], MAX_DEPTH - depth);
      assert SizeFields(v, []) == 0;
      hide Within, KeysWithin, SizeFields;
      ok := true;
      for i := 0 to |keys|
        invariant ok && bytes == old(bytes)
        invariant work == old(work) - SizeFields(v, keys[..i])
        invariant KeysWithin(v, keys[..i], MAX_DEPTH - depth)
      {
        OneMoreKey(v, keys, i, MAX_DEPTH - depth);
        ok := ValueDepth(v.fields[keys[i]], depth);
        if !ok {
          SizeFieldsMonotone(v, keys, i + 1);
          return;
        }
      }
    }

    /** `validate_record_refs`: at most a thousand references, all with bounded identifiers. */
    method CheckRefs(r: RefSet) returns (c: Check)
      ensures c.Passed? <==> RefsCount(r) <= MAX_REFS && GoodIds(r)
      ensures c == Failed(TooManyReferences) <==> RefsCount(r) > MAX_REFS
      ensures c.Failed? ==> c.code == TooManyReferences || c.code == BadReference
    {
      if RefsCount(r) > MAX_REFS { return Failed(TooManyReferences); }
      if !GoodIds(r) { return Failed(BadReference); }
      return Passed;
    }

    /** Everything about one alternative except that it has premises. */
    method CheckGroup(g: Derivation) returns (c: Check)
      requires GroupCount(g) > 0
      modifies this
      ensures c.Passed? <==> ValidGroup(g) && ParametersSize(g) <= old(work)
      ensures c.Passed? ==> work == old(work) - ParametersSize(g)
      ensures bytes == old(bytes)
      ensures c.Failed? ==> c.code != EmptyGroup && c.code != DisjunctionProfile
    {
      hide Within, KeysWithin, GoodIds, Size, SizeFields, Id, RecordIds, GraphIds, RefsCount, Ascending;
      if !Id(g.operator) { return Failed(BadReference); }
      c := CheckRefs(Gates(g));
      if c.Failed? { return; }
      if |g.inputSnapshots| > MAX_REFS
         || exists i | 0 <= i < |g.inputSnapshots| :: !GraphIds(g.inputSnapshots[i]) {
        return Failed(BadReference);
      }
      ObjWithin(Obj(g.parameters), MAX_DEPTH);
      var ok := FieldsDepth(Obj(g.parameters), SortStrings(g.parameters.Keys), 0);
      if !ok { return Failed(BudgetExceeded); }
    }

    method Validate(enc: Encoding, c: Carrier) returns (r: Check)
      modifies this
      ensures r.Passed? <==> ValidCarrier(limits, c) && ValidateCost(enc, c).AtMost(old(Left()))
      ensures r.Passed? ==> old(Left()) == Left().Plus(ValidateCost(enc, c))
      ensures r == Failed(EmptyGroup) ==> exists g | g in c.alternatives :: GroupCount(g) == 0
      ensures r.Failed? ==> r.code != DisjunctionProfile
    {
      hide ValidGroup, GoodIds, GroupCount, ParametersSize;
      var gs := c.alternatives;
      if |gs| > limits.groups { return Failed(BudgetExceeded); }
      var count := RefsCount(c.flat);
      r := CheckRefs(c.flat);
      if r.Failed? { return; }
      assert gs[..0] == [] && gs[..|gs|] == gs;
      for i := 0 to |gs|
        invariant r.Passed? && bytes == old(bytes)
        invariant count == RefsCount(c.flat) + GroupCounts(gs[..i])
        invariant forall h | 0 <= h < i :: ValidGroup(gs[h])
        invariant work == old(work) - GroupsWork(gs[..i])
      {
        assert gs[..i + 1][..i] == gs[..i];
        GroupsWorkMonotone(gs, i + 1);
        NoEmptyGroup(gs[i]);
        var ok := Step();
        if !ok { return Failed(BudgetExceeded); }
        if GroupCount(gs[i]) == 0 { return Failed(EmptyGroup); }
        count := count + GroupCount(gs[i]);
        if count > limits.references { return Failed(BudgetExceeded); }
        r := CheckGroup(gs[i]);
        if r.Failed? { return; }
      }
      if count > limits.references { return Failed(BudgetExceeded); }
      var ok := Charge(enc, CarrierText(c));
      if !ok { return Failed(BudgetExceeded); }
    }

    /** One canonical copy of every alternative, in the order of their texts. */
    method CollectGroups(enc: Encoding, gs: seq<Derivation>) returns (ok: bool, out: seq<Derivation>)
      requires enc.Valid()
      modifies this
      ensures ok <==> KeyCost(enc, gs).AtMost(old(Left()))
      ensures ok ==> out == Groups(enc, NormalGroups(gs)) && old(Left()) == Left().Plus(KeyCost(enc, gs))
    {
      hide NormalGroup, Groups;
      var groups: map<string, Derivation> := map[];
      ok, out := true, [];
      assert gs[..0] == [] && gs[..|gs|] == gs;
      for i := 0 to |gs|
        invariant ok && Keyed(enc, groups, NormalGroups(gs[..i]))
        invariant old(Left()) == Left().Plus(KeyCost(enc, gs[..i]))
      {
        assert gs[..i + 1][..i] == gs[..i];
        KeyCostMonotone(enc, gs, i + 1);
        ok := Step();
        if !ok { return; }
        var g := NormalGroup(gs[i]);
        ok := Charge(enc, GroupText(g));
        if !ok { return; }
        OneMoreGroup(enc, groups, gs, i);
        if enc.group(g) !in groups { groups := groups[enc.group(g) := g]; }
      }
      out := InKeyOrder(enc, groups, NormalGroups(gs));
    }

    /** The carrier in canonical form. */
    method Canonicalize(enc: Encoding, c: Carrier) returns (r: Outcome<Carrier>)
      requires enc.Valid()
      modifies this
      ensures r.Ok? <==> ValidCarrier(limits, c) && CanonicalCost(enc, c).AtMost(old(Left()))
      ensures r.Ok? ==> r.value == Canonical(enc, c) && old(Left()) == Left().Plus(CanonicalCost(enc, c))
      ensures r.Err? ==> r.code != DisjunctionProfile
      ensures r == Err(EmptyGroup) ==> exists g | g in c.alternatives :: GroupCount(g) == 0
    {
      hide ValidCarrier, NormalRefs, Groups, KeyCost, GroupsWork;
      var check := Validate(enc, c);
      if check.Failed? { return Err(check.code); }
      var ok := Charge(enc, CarrierText(c));
      if !ok { return Err(BudgetExceeded); }
      var groups;
      ok, groups := CollectGroups(enc, c.alternatives);
      if !ok { return Err(BudgetExceeded); }
      return Ok(Carrier(NormalRefs(c.flat), groups));
    }

    /** The union of two reference lists, if both together are within the limit. */
    method UniteRefs(enc: Encoding, a: RefSet, b: RefSet) returns (r: Outcome<RefSet>)
      modifies this
      ensures r.Ok? <==> RefsCount(a) + RefsCount(b) <= limits.references
                         && ChargeCost(enc, RefsText(a, b)).AtMost(old(Left()))
      ensures r.Ok? ==> r.value == CombineRefs(a, b) && old(Left()) == Left().Plus(ChargeCost(enc, RefsText(a, b)))
      ensures r.Err? ==> r.code == BudgetExceeded
    {
      hide CombineRefs;
      if RefsCount(a) + RefsCount(b) > limits.references { return Err(BudgetExceeded); }
      var ok := Charge(enc, RefsText(a, b));
      if !ok { return Err(BudgetExceeded); }
      return Ok(CombineRefs(a, b));
    }

    method Make(enc: Encoding, operator: string, gates: RefSet, parents: Json) returns (r: Outcome<Derivation>)
      modifies this
      ensures r.Ok? <==> RefsCount(gates) > 0 && MakeCost(enc, gates, parents).AtMost(old(Left()))
      ensures r.Ok? ==> r.value == MakeGroup(operator, gates, parents)
                        && old(Left()) == Left().Plus(MakeCost(enc, gates, parents))
      ensures r == Err(EmptyGroup) <==> RefsCount(gates) == 0
      ensures r.Err? ==> r.code == EmptyGroup || r.code == BudgetExceeded
    {
      hide MakeGroup;
      if RefsCount(gates) == 0 { return Err(EmptyGroup); }
      var ok := Charge(enc, GatesText(gates, parents));
      if !ok { return Err(BudgetExceeded); }
      return Ok(MakeGroup(operator, gates, parents));
    }

    /** The conjunction of two alternatives. */
    method MakeAnd(enc: Encoding, x: Derivation, y: Derivation) returns (ok: bool, g: Derivation)
      requires enc.Valid() && 0 < GroupCount(x) && GroupCount(x) + GroupCount(y) <= limits.references
      modifies this
      ensures ok <==> AndCost(enc, x, y).AtMost(old(Left()))
      ensures ok ==> g == And(enc, x, y) && old(Left()) == Left().Plus(AndCost(enc, x, y))
    {
      hide CombineRefs, Conjuncts, MakeGroup;
      CombineNonempty(Gates(x), Gates(y));
      g := x;
      ok := Step();
      if !ok { return; }
      ok := Charge(enc, GroupText(x));
      if !ok { return; }
      ok := Charge(enc, GroupText(y));
      if !ok { return; }
      var gates := UniteRefs(enc, Gates(x), Gates(y));
      if gates.Err? { return false, x; }
      var made := Make(enc, AND, gates.value, Arr(Conjuncts(enc, x, y)));
      if made.Err? { return false, x; }
      g := made.value;
    }

    /** The conjunctions of one alternative with each of several, with a running reference count. */
    method MakeRow(enc: Encoding, x: Derivation, ys: seq<Derivation>, start: nat)
        returns (ok: bool, row: seq<Derivation>, raw: nat)
      requires enc.Valid() && 0 < GroupCount(x)
      requires start + Area(GroupCount(x), |ys|) + GroupCounts(ys) <= limits.references
      modifies this
      ensures ok <==> AndRowCost(enc, x, ys).AtMost(old(Left()))
      ensures ok ==> row == AndRow(enc, x, ys) && raw == start + Area(GroupCount(x), |ys|) + GroupCounts(ys)
      ensures ok ==> old(Left()) == Left().Plus(AndRowCost(enc, x, ys))
    {
      hide And, AndRow, AndCost, AndRowCost, GroupCount, GroupCounts, Area;
      ok, row, raw := true, [], start;
      RowStart(enc, x, ys);
      for j := 0 to |ys|
        invariant ok && row == AndRow(enc, x, ys[..j])
        invariant raw == start + Area(GroupCount(x), j) + GroupCounts(ys[..j])
        invariant old(Left()) == Left().Plus(AndRowCost(enc, x, ys[..j]))
      {
        RowStep(enc, x, ys, j);
        RowCounts(x, ys, j);
        raw := raw + GroupCount(x) + GroupCount(ys[j]);
        assert raw <= limits.references;
        var g;
        ok, g := MakeAnd(enc, x, ys[j]);
        if !ok { return; }
        row := row + [g];
      }
    }

    /** The conjunctions of every alternative on the left with every one on the right. */
    method MakeProducts(enc: Encoding, flat: RefSet, xs: seq<Derivation>, ys: seq<Derivation>)
        returns (ok: bool, groups: seq<Derivation>)
      requires enc.Valid() && forall i | 0 <= i < |xs| :: 0 < GroupCount(xs[i])
      requires RefsCount(flat) + Area(GroupCounts(xs), |ys|) + Area(GroupCounts(ys), |xs|) <= limits.references
      modifies this
      ensures ok <==> ProductsCost(enc, xs, ys).AtMost(old(Left()))
      ensures ok ==> groups == Products(enc, xs, ys) && old(Left()) == Left().Plus(ProductsCost(enc, xs, ys))
    {
      hide AndRow, AndRowCost, Products, ProductsCost, GroupCount, GroupCounts, Area, RefsCount;
      ok, groups := true, [];
      var raw := RefsCount(flat);
      ProductsStart(enc, xs, ys);
      for i := 0 to |xs|
        invariant ok && groups == Products(enc, xs[..i], ys)
        invariant raw == RefsCount(flat) + Area(GroupCounts(xs[..i]), |ys|) + Area(GroupCounts(ys), i)
        invariant old(Left()) == Left().Plus(ProductsCost(enc, xs[..i], ys))
      {
        ProductsStep(enc, xs, ys, i);
        ProductsCounts(xs, ys, i);
        var row;
        ok, row, raw := MakeRow(enc, xs[i], ys, raw);
        if !ok { return; }
        groups := groups + row;
      }
    }

    /** The alternatives of a conjunction of canonical carriers. */
    method JoinAlternatives(enc: Encoding, flat: RefSet, a: Carrier, b: Carrier) returns (r: Outcome<seq<Derivation>>)
      requires enc.Valid() && forall i | 0 <= i < |a.alternatives| :: 0 < GroupCount(a.alternatives[i])
      requires flat == CombineRefs(a.flat, b.flat)
      modifies this
      ensures r.Ok? <==> (a.alternatives != [] && b.alternatives != [] ==>
                            Area(|a.alternatives|, |b.alternatives|) <= limits.groups
                            && ProductRefs(a, b) <= limits.references)
                         && JoinCost(enc, a, b).AtMost(old(Left()))
      ensures r.Ok? ==> r.value == RawConjunction(enc, a, b).alternatives
                        && old(Left()) == Left().Plus(JoinCost(enc, a, b))
      ensures r.Err? ==> r.code == BudgetExceeded
    {
      hide CombineRefs, Products, ProductsCost, GroupCount, GroupCounts, Area, RefsCount;
      var xs, ys := a.alternatives, b.alternatives;
      if xs == [] {
        var ok := Charge(enc, GroupsText(ys));
        if !ok { return Err(BudgetExceeded); }
        return Ok(ys);
      }
      if ys == [] {
        var ok := Charge(enc, GroupsText(xs));
        if !ok { return Err(BudgetExceeded); }
        return Ok(xs);
      }
      if Area(|xs|, |ys|) > limits.groups { return Err(BudgetExceeded); }
      if Area(GroupCounts(xs), |ys|) + Area(GroupCounts(ys), |xs|) + RefsCount(flat) > limits.references {
        return Err(BudgetExceeded);
      }
      var ok, groups := MakeProducts(enc, flat, xs, ys);
      if !ok { return Err(BudgetExceeded); }
      return Ok(groups);
    }

    /** Both carriers. */
    method Conjunction(enc: Encoding, a: Carrier, b: Carrier) returns (r: Outcome<Carrier>)
      requires enc.Valid()
      modifies this
      ensures r.Ok? <==> ConjoinFits(enc, limits, a, b) && ConjoinCost(enc, a, b).AtMost(old(Left()))
      ensures r.Ok? ==> r.value == Conjoin(enc, a, b) && old(Left()) == Left().Plus(ConjoinCost(enc, a, b))
      ensures r.Err? ==> r.code != DisjunctionProfile
    {
      hide Canonical, CanonicalCost, ValidCarrier, CombineRefs, JoinCost, ProductRefs, GroupCount, RefsCount, Area;
      var left := Canonicalize(enc, a);
      if left.Err? { return Err(left.code); }
      var right := Canonicalize(enc, b);
      if right.Err? { return Err(right.code); }
      var x, y := left.value, right.value;
      if x == y { return Ok(x); }
      CanonicalPositive(enc, limits, a);
      var flat := UniteRefs(enc, x.flat, y.flat);
      if flat.Err? { return Err(flat.code); }
      var alternatives := JoinAlternatives(enc, flat.value, x, y);
      if alternatives.Err? { return Err(alternatives.code); }
      assert Carrier(flat.value, alternatives.value) == RawConjunction(enc, x, y);
      hide RawConjunction;
      r := Canonicalize(enc, Carrier(flat.value, alternatives.value));
    }

    method MakeBranch(enc: Encoding, flat: RefSet, g: Derivation) returns (r: Outcome<Derivation>)
      requires RefsCount(flat) + GroupCount(g) <= limits.references
      modifies this
      ensures r.Ok? <==> RefsCount(flat) + GroupCount(g) > 0 && BranchCost(enc, flat, g).AtMost(old(Left()))
      ensures r.Ok? ==> r.value == Branch(flat, g) && old(Left()) == Left().Plus(BranchCost(enc, flat, g))
      ensures r.Err? ==> r.code == EmptyGroup || r.code == BudgetExceeded
    {
      hide CombineRefs, MakeGroup, FlatJson, GroupJson;
      CombineNonempty(flat, Gates(g));
      hide RefsCount;
      var ok := Charge(enc, GroupText(g));
      if !ok { return Err(BudgetExceeded); }
      var gates := UniteRefs(enc, flat, Gates(g));
      if gates.Err? { return Err(BudgetExceeded); }
      r := Make(enc, BRANCH, gates.value, Arr([FlatJson(flat), GroupJson(g)]));
    }

    /** The flat gates moved into every alternative, or into one made of them alone. */
    method MakeBranches(enc: Encoding, c: Carrier) returns (r: Outcome<seq<Derivation>>)
      modifies this
      ensures r.Ok? <==> BranchesFit(limits, c) && BranchesCost(enc, c).AtMost(old(Left()))
      ensures r.Ok? ==> r.value == Branches(c) && old(Left()) == Left().Plus(BranchesCost(enc, c))
      ensures r.Err? ==> r.code == EmptyGroup || r.code == BudgetExceeded
    {
      hide Area, RefsCount, GroupCount, GroupCounts, MakeGroup, FlatJson, Branch, BranchCost, BranchListCost;
      var gs := c.alternatives;
      if BranchRefs(c) > limits.references { return Err(BudgetExceeded); }
      if gs == [] {
        var ok := Charge(enc, FlatText(c.flat));
        if !ok { return Err(BudgetExceeded); }
        var made := Make(enc, FLAT, c.flat, FlatJson(c.flat));
        if made.Err? { return Err(made.code); }
        return Ok([made.value]);
      }
      r := MakeBranchList(enc, c);
    }

    method MakeBranchList(enc: Encoding, c: Carrier) returns (r: Outcome<seq<Derivation>>)
      requires c.alternatives != [] && BranchRefs(c) <= limits.references
      modifies this
      ensures r.Ok? <==> NoEmptyBranch(c) && BranchListCost(enc, c.flat, c.alternatives).AtMost(old(Left()))
      ensures r.Ok? ==> r.value == Branches(c)
                        && old(Left()) == Left().Plus(BranchListCost(enc, c.flat, c.alternatives))
      ensures r.Err? ==> r.code == EmptyGroup || r.code == BudgetExceeded
    {
      hide RefsCount, GroupCount, BranchRefs, Branch, BranchCost, BranchListCost;
      var gs, out: seq<Derivation> := c.alternatives, [];
      BranchStart(enc, c.flat, gs);
      for i := 0 to |gs|
        invariant |out| == i && forall h | 0 <= h < i :: out[h] == Branch(c.flat, gs[h])
        invariant forall h | 0 <= h < i :: RefsCount(c.flat) + GroupCount(gs[h]) > 0
        invariant old(Left()) == Left().Plus(BranchListCost(enc, c.flat, gs[..i]))
      {
        BranchStep(enc, c, i);
        var made := MakeBranch(enc, c.flat, gs[i]);
        if made.Err? { return Err(made.code); }
        out := out + [made.value];
      }
      return Ok(out);
    }

    /** Both carriers, with every gate inside an alternative. */
    method Distribute(enc: Encoding, branch: Carrier, flat: Carrier) returns (r: Outcome<Carrier>)
      requires enc.Valid()
      modifies this
      ensures r.Ok? <==> DistributeFits(enc, limits, branch, flat)
                         && DistributeCost(enc, branch, flat).AtMost(old(Left()))
      ensures r.Ok? ==> r.value == DistributeOver(enc, branch, flat)
                        && old(Left()) == Left().Plus(DistributeCost(enc, branch, flat))
      ensures r.Err? ==> r.code != DisjunctionProfile
    {
      hide Canonical, CanonicalCost, ValidCarrier, Conjoin, ConjoinCost, ConjoinFits, Branches, BranchesCost,
           BranchesFit;
      var joined := Conjunction(enc, branch, flat);
      if joined.Err? { return joined; }
      var branches := MakeBranches(enc, joined.value);
      if branches.Err? { return Err(branches.code); }
      r := Canonicalize(enc, Carrier(NO_REFS, branches.value));
    }

    /** Either carrier. Exactly one unconditional side is refused, not simplified away. */
    method Disjunction(enc: Encoding, a: Carrier, b: Carrier) returns (r: Outcome<Carrier>)
      requires enc.Valid()
      modifies this
      ensures r.Ok? <==> DisjoinFits(enc, limits, a, b) && DisjoinCost(enc, a, b).AtMost(old(Left()))
      ensures r.Ok? ==> r.value == Disjoin(enc, a, b) && old(Left()) == Left().Plus(DisjoinCost(enc, a, b))
      ensures r == Err(DisjunctionProfile) ==>
                Unconditional(Canonical(enc, a)) != Unconditional(Canonical(enc, b))
    {
      hide Canonical, CanonicalCost, ValidCarrier, Unconditional, Spread, BranchRefs, Branches, BranchesCost;
      var left := Canonicalize(enc, a);
      if left.Err? { return left; }
      var right := Canonicalize(enc, b);
      if right.Err? { return right; }
      var x, y := left.value, right.value;
      if Unconditional(x) || Unconditional(y) {
        if Unconditional(x) && Unconditional(y) { return Ok(Carrier(NO_REFS, [])); }
        return Err(DisjunctionProfile);
      }
      CanonicalPositive(enc, limits, a);
      CanonicalPositive(enc, limits, b);
      ConditionalBranches(x);
      ConditionalBranches(y);
      hide NoEmptyBranch;
      if Spread(x) + Spread(y) > limits.groups { return Err(BudgetExceeded); }
      if BranchRefs(x) + BranchRefs(y) > limits.references { return Err(BudgetExceeded); }
      var first := MakeBranches(enc, x);
      if first.Err? { return Err(first.code); }
      var second := MakeBranches(enc, y);
      if second.Err? { return Err(second.code); }
      r := Canonicalize(enc, Carrier(NO_REFS, first.value + second.value));
    }
  }
}
