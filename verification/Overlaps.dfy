/** The loops of `lineage_to_in_domain`, proved against the reference definition. */
module Overlaps {
  import opened Orders
  import opened Forests
  import opened Levels
  import opened Runs
  import opened Hierarchies
  import opened Lineages

  /** The fixed envelope reserved before any item is retained. */
  const ENVELOPE: nat := 4096

  /** Each retained item costs its size and one separator. */
  function Cost(size: Item -> nat, items: seq<Item>): nat {
    if items == [] then 0 else Cost(size, items[..|items| - 1]) + size(items[|items| - 1]) + 1
  }

  function SourceItems(s: seq<GraphRef>): seq<Item> { seq(|s|, i requires 0 <= i < |s| => SourceItem(s[i])) }

  function LeafItems(s: seq<string>): seq<Item> { seq(|s|, i requires 0 <= i < |s| => LeafItem(s[i])) }

  function OverlapItems(s: seq<Overlap>): seq<Item> { seq(|s|, i requires 0 <= i < |s| => OverlapItem(s[i])) }

  function MemberItems(s: seq<Member>): seq<Item> { seq(|s|, i requires 0 <= i < |s| => MemberItem(s[i])) }

  function LineageCost(size: Item -> nat, before: Snapshot, after: Snapshot, l: Lineage): nat {
    ENVELOPE + Cost(size, SourceItems(before.sources)) + Cost(size, SourceItems(after.sources))
    + Cost(size, LeafItems(l.removed)) + Cost(size, LeafItems(l.added))
    + Cost(size, OverlapItems(l.overlaps))
    + Cost(size, MemberItems(l.retired)) + Cost(size, MemberItems(l.splits))
    + Cost(size, MemberItems(l.created)) + Cost(size, MemberItems(l.merges))
  }

  predicate InScope(before: Snapshot, after: Snapshot, domain: string) {
    && (exists r | r in before.sources :: r.graph == domain)
    && (exists r | r in after.sources :: r.graph == domain)
    && before.perspective == after.perspective && before.context == after.context
  }

  lemma {:induction false} CostMonotone(size: Item -> nat, items: seq<Item>, i: nat)
    requires i <= |items|
    ensures Cost(size, items[..i]) <= Cost(size, items)
    decreases |items| - i
  {
    if i < |items| {
      assert items[..i + 1][..i] == items[..i];
      CostMonotone(size, items, i + 1);
    } else {
      assert items[..i] == items;
    }
  }

  /** `retain`, item after item. */
  method RetainAll(size: Item -> nat, items: seq<Item>, bytes: nat) returns (total: nat, fits: bool)
    requires bytes <= MAX_OUTPUT
    ensures fits <==> bytes + Cost(size, items) <= MAX_OUTPUT
    ensures fits ==> total == bytes + Cost(size, items)
  {
    total := bytes;
    for i := 0 to |items|
      invariant total == bytes + Cost(size, items[..i]) <= MAX_OUTPUT
    {
      assert items[..i + 1][..i] == items[..i];
      CostMonotone(size, items, i + 1);
      if size(items[i]) > MAX_OUTPUT - total || total + size(items[i]) + 1 > MAX_OUTPUT {
        return total, false;
      }
      total := total + size(items[i]) + 1;
    }
    assert items[..|items|] == items;
    fits := true;
  }

  // ----- counting shared leaves -----

  function Both(before: map<string, Member>, after: map<string, Member>, s: set<string>, p: Pair): set<string> {
    set n | n in s && n in before && n in after && before[n] == p.0 && after[n] == p.1
  }

  ghost predicate CountedAt(before: map<string, Member>, after: map<string, Member>, s: set<string>,
                            counts: map<Pair, nat>, p: Pair) {
    && (p in counts <==> Both(before, after, s, p) != {})
    && (p in counts ==> counts[p] == |Both(before, after, s, p)|)
  }

  ghost predicate Counted(before: map<string, Member>, after: map<string, Member>, s: set<string>, counts: map<Pair, nat>) {
    forall p :: CountedAt(before, after, s, counts, p)
  }

  lemma BothGrows(before: map<string, Member>, after: map<string, Member>, s: set<string>, n: string, p: Pair)
    requires n !in s && n in before
    ensures n in after && p == (before[n], after[n]) ==>
              Both(before, after, s + {n}, p) == Both(before, after, s, p) + {n} && n !in Both(before, after, s, p)
    ensures !(n in after && p == (before[n], after[n])) ==>
              Both(before, after, s + {n}, p) == Both(before, after, s, p)
  {
  }

  lemma CountOne(before: map<string, Member>, after: map<string, Member>, s: set<string>, counts: map<Pair, nat>, n: string)
    requires Counted(before, after, s, counts) && n !in s && n in before
    ensures n !in after ==> Counted(before, after, s + {n}, counts)
    ensures n in after ==>
              var p := (before[n], after[n]);
              Counted(before, after, s + {n}, counts[p := (if p in counts then counts[p] else 0) + 1])
  {
    hide Both;
    var more := s + {n};
    if n in after {
      var q := (before[n], after[n]);
      var counts' := counts[q := (if q in counts then counts[q] else 0) + 1];
      forall p ensures CountedAt(before, after, more, counts', p) {
        BothGrows(before, after, s, n, p);
        assert CountedAt(before, after, s, counts, p);
      }
    } else {
      forall p ensures CountedAt(before, after, more, counts, p) {
        BothGrows(before, after, s, n, p);
        assert CountedAt(before, after, s, counts, p);
      }
    }
  }

  lemma NoneCounted(before: map<string, Member>, after: map<string, Member>)
    ensures Counted(before, after, {}, map[])
  {
  }

  function Missing(listing: seq<string>, keys: set<string>): seq<string> {
    if listing == [] then []
    else
      var rest := Missing(listing[..|listing| - 1], keys);
      var n := listing[|listing| - 1];
      if n in keys then rest else rest + [n]
  }

  lemma {:induction false} MissingSorted(listing: seq<string>, keys: set<string>)
    requires Ascending(StringLess, listing)
    ensures Elements(Missing(listing, keys)) == Elements(listing) - keys
    ensures Ascending(StringLess, Missing(listing, keys))
  {
    hide StringLess;
    if listing == [] {
      assert Missing(listing, keys) == listing == [];
      assert Elements(listing) == {} && {} - keys == {};
    } else {
      var rest := listing[..|listing| - 1];
      MissingSorted(rest, keys);
      var n := listing[|listing| - 1];
      assert listing == rest + [n];
      var m := Missing(rest, keys);
      ElementsGrow(rest, n);
      ElementsGrow(m, n);
      assert Elements(listing) - keys == (Elements(rest) - keys) + if n in keys then {} else {n};
      forall i | 0 <= i < |m| ensures StringLess(m[i], n) {
        assert m[i] in Elements(m);
        var k :| 0 <= k < |rest| && rest[k] == m[i];
        assert listing[k] == m[i];
      }
    }
  }

  lemma MissingIs(listing: seq<string>, keys: set<string>)
    requires Ascending(StringLess, listing)
    ensures Missing(listing, keys) == SortStrings(Elements(listing) - keys)
  {
    StringOrder();
    MissingSorted(listing, keys);
    AscendingUnique(StringLess, Missing(listing, keys), SortStrings(Elements(listing) - keys));
  }

  lemma PrefixGrows<T(!new)>(less: (T, T) -> bool, q: seq<T>, i: nat)
    requires StrictTotal(less) && Ascending(less, q) && i < |q|
    ensures q[i] !in Elements(q[..i])
    ensures q[..i + 1][..i] == q[..i] && Elements(q[..i + 1]) == Elements(q[..i]) + {q[i]}
  {
    assert q[..i + 1] == q[..i] + [q[i]];
  }

  /** One pass over the earlier owners: shared counts per pair, and the leaves now gone. */
  method CountShared(before: map<string, Member>, after: map<string, Member>)
    returns (counts: map<Pair, nat>, removed: seq<string>)
    ensures Counted(before, after, before.Keys, counts)
    ensures removed == SortStrings(before.Keys - after.Keys)
  {
    hide Counted, StringLess, StrictTotal, Ascending, Elements;
    counts, removed := map[], [];
    var leaves := SortStrings(before.Keys);
    StringOrder();
    NoneCounted(before, after);
    NoElements(leaves);
    for i := 0 to |leaves|
      invariant Counted(before, after, Elements(leaves[..i]), counts)
      invariant removed == Missing(leaves[..i], after.Keys)
    {
      PrefixGrows(StringLess, leaves, i);
      ListedIn(leaves, i);
      CountOne(before, after, Elements(leaves[..i]), counts, leaves[i]);
      if leaves[i] in after {
        var p := (before[leaves[i]], after[leaves[i]]);
        counts := counts[p := (if p in counts then counts[p] else 0) + 1];
      } else {
        removed := removed + [leaves[i]];
      }
    }
    assert leaves[..|leaves|] == leaves;
    assert Elements(leaves) == before.Keys;
    assert removed == Missing(leaves, after.Keys);
    MissingIs(leaves, after.Keys);
  }

  lemma NoElements<T>(q: seq<T>)
    ensures Elements(q[..0]) == {}
  {
  }

  lemma ListedIn<T>(q: seq<T>, i: nat)
    requires i < |q|
    ensures q[i] in Elements(q)
  {
  }

  method AddedLeaves(after: set<string>, before: set<string>) returns (added: seq<string>)
    ensures added == SortStrings(after - before)
  {
    hide StringLess, Ascending, Elements;
    added := [];
    var leaves := SortStrings(after);
    for i := 0 to |leaves|
      invariant added == Missing(leaves[..i], before)
    {
      assert leaves[..i + 1][..i] == leaves[..i];
      if leaves[i] !in before {
        added := added + [leaves[i]];
      }
    }
    assert leaves[..|leaves|] == leaves;
    MissingIs(leaves, before);
  }

  /** Counted pairs are the overlapping ones, with the sizes of what they share. */
  lemma CountsAreShared(w: World, f: Forest, v: World, g: Forest,
                        before: map<string, Member>, after: map<string, Member>, counts: map<Pair, nat>)
    requires Partitions(w, f) && Partitions(v, g) && Owning(w, f, before) && Owning(v, g, after)
    requires Counted(before, after, before.Keys, counts)
    ensures counts.Keys == Overlapping(f, g)
    ensures forall p | p in counts :: counts[p] == |Shared(f, g, p)|
  {
    forall p ensures p in counts <==> p in Overlapping(f, g)
             ensures p in counts ==> counts[p] == |Shared(f, g, p)| {
      assert CountedAt(before, after, before.Keys, counts, p);
      if n :| n in Both(before, after, before.Keys, p) {
        BothOwned(w, f, v, g, before, after, p, n);
      }
      if p.0 in f.frontier && p.1 in g.frontier {
        BothIsShared(w, f, v, g, before, after, p);
      }
    }
  }

  lemma BothOwned(w: World, f: Forest, v: World, g: Forest,
                  before: map<string, Member>, after: map<string, Member>, p: Pair, n: string)
    requires Owning(w, f, before) && Owning(v, g, after) && n in Both(before, after, before.Keys, p)
    ensures p.0 in f.frontier && p.1 in g.frontier
  {
    assert Covers(f, before[n], n) && Covers(g, after[n], n);
  }

  lemma BothIsShared(w: World, f: Forest, v: World, g: Forest,
                     before: map<string, Member>, after: map<string, Member>, p: Pair)
    requires Partitions(w, f) && Partitions(v, g) && Owning(w, f, before) && Owning(v, g, after)
    requires p.0 in f.frontier && p.1 in g.frontier
    ensures Both(before, after, before.Keys, p) == Shared(f, g, p)
  {
    assert Placed(w, f, p.0) && Placed(v, g, p.1);
    forall n ensures n in Both(before, after, before.Keys, p) <==> n in Shared(f, g, p) {
      if n in Both(before, after, before.Keys, p) {
        assert Covers(f, before[n], n) && Covers(g, after[n], n);
      }
      if n in Shared(f, g, p) {
        assert Covers(f, p.0, n) && Covers(g, p.1, n);
        OwnerUnique(w, f, p.0, n);
        OwnerUnique(v, g, p.1, n);
      }
    }
  }

  // ----- degrees and lists -----

  function DegreeOf(degrees: map<Member, nat>, m: Member): nat {
    if m in degrees then degrees[m] else 0
  }

  ghost predicate DegreeAt(pairs: set<Pair>, outs: map<Member, nat>, ins: map<Member, nat>, m: Member) {
    DegreeOf(outs, m) == OutDegree(pairs, m) && DegreeOf(ins, m) == InDegree(pairs, m)
  }

  ghost predicate Degrees(pairs: set<Pair>, outs: map<Member, nat>, ins: map<Member, nat>) {
    forall m :: DegreeAt(pairs, outs, ins, m)
  }

  lemma DegreeGrows(pairs: set<Pair>, p: Pair, m: Member)
    requires p !in pairs
    ensures OutDegree(pairs + {p}, m) == OutDegree(pairs, m) + if p.0 == m then 1 else 0
    ensures InDegree(pairs + {p}, m) == InDegree(pairs, m) + if p.1 == m then 1 else 0
  {
    PickGrows(pairs, p, From(m));
    PickGrows(pairs, p, Into(m));
    assert forall s :: (set q: Pair | q in s && q.0 == m) == Picked(s, From(m));
    assert forall s :: (set q: Pair | q in s && q.1 == m) == Picked(s, Into(m));
  }

  function Picked(pairs: set<Pair>, pick: Pair -> bool): set<Pair> {
    set p | p in pairs && pick(p)
  }

  lemma PickGrows(pairs: set<Pair>, p: Pair, pick: Pair -> bool)
    requires p !in pairs
    ensures |Picked(pairs + {p}, pick)| == |Picked(pairs, pick)| + if pick(p) then 1 else 0
  {
    assert Picked(pairs + {p}, pick) == Picked(pairs, pick) + if pick(p) then {p} else {};
  }

  lemma DegreeOne(pairs: set<Pair>, outs: map<Member, nat>, ins: map<Member, nat>, p: Pair)
    requires Degrees(pairs, outs, ins) && p !in pairs
    ensures Degrees(pairs + {p}, outs[p.0 := DegreeOf(outs, p.0) + 1],
                    ins[p.1 := DegreeOf(ins, p.1) + 1])
  {
    hide OutDegree, InDegree;
    var more := pairs + {p};
    var outs', ins' := outs[p.0 := DegreeOf(outs, p.0) + 1], ins[p.1 := DegreeOf(ins, p.1) + 1];
    forall m ensures DegreeAt(more, outs', ins', m) {
      DegreeGrows(pairs, p, m);
      assert DegreeAt(pairs, outs, ins, m);
    }
  }

  lemma NoDegrees()
    ensures Degrees({}, map[], map[])
  {
  }

  method OverlapsAndDegrees(ghost f: Forest, ghost g: Forest, counts: map<Pair, nat>)
    returns (overlaps: seq<Overlap>, outs: map<Member, nat>, ins: map<Member, nat>)
    requires forall p | p in counts :: counts[p] == |Shared(f, g, p)|
    ensures overlaps == OverlapList(f, g, SortPairs(counts.Keys))
    ensures Degrees(counts.Keys, outs, ins)
  {
    hide Degrees, Shared, MemberLess, StrictTotal, Ascending, Elements;
    overlaps, outs, ins := [], map[], map[];
    var keys := SortPairs(counts.Keys);
    MemberOrder();
    PairsOrdered(MemberLess);
    NoDegrees();
    NoElements(keys);
    for i := 0 to |keys|
      invariant overlaps == OverlapList(f, g, keys[..i])
      invariant Degrees(Elements(keys[..i]), outs, ins)
    {
      var p := keys[i];
      PrefixGrows(PairOrder(MemberLess), keys, i);
      ListedIn(keys, i);
      DegreeOne(Elements(keys[..i]), outs, ins, p);
      outs := outs[p.0 := DegreeOf(outs, p.0) + 1];
      ins := ins[p.1 := DegreeOf(ins, p.1) + 1];
      overlaps := overlaps + [Overlap(p.0, p.1, counts[p])];
    }
    assert keys[..|keys|] == keys;
  }

  /** Members of degree zero and of degree above one, in frontier order. */
  method ByDegree(listing: seq<Member>, degrees: map<Member, nat>,
                  ghost isNone: Member -> bool, ghost isMany: Member -> bool)
    returns (none: seq<Member>, many: seq<Member>)
    requires forall m :: isNone(m) <==> DegreeOf(degrees, m) == 0
    requires forall m :: isMany(m) <==> DegreeOf(degrees, m) > 1
    ensures none == Where(listing, isNone)
    ensures many == Where(listing, isMany)
  {
    none, many := [], [];
    for i := 0 to |listing|
      invariant none == Where(listing[..i], isNone)
      invariant many == Where(listing[..i], isMany)
    {
      assert listing[..i + 1][..i] == listing[..i];
      var m := listing[i];
      var d := DegreeOf(degrees, m);
      if d == 0 {
        none := none + [m];
      } else if d > 1 {
        many := many + [m];
      }
    }
    assert listing[..|listing|] == listing;
  }

  lemma DegreesDecide(pairs: set<Pair>, outs: map<Member, nat>, ins: map<Member, nat>, m: Member)
    requires Degrees(pairs, outs, ins)
    ensures Retired(pairs)(m) <==> DegreeOf(outs, m) == 0
    ensures Split(pairs)(m) <==> DegreeOf(outs, m) > 1
    ensures Created(pairs)(m) <==> DegreeOf(ins, m) == 0
    ensures Merged(pairs)(m) <==> DegreeOf(ins, m) > 1
  {
    assert DegreeAt(pairs, outs, ins, m);
  }

  // ----- the operation -----

  ghost function Reference(prior: Hierarchy, next: Hierarchy): Lineage
    reads prior, next
  {
    LineageOf(prior.Shape(), next.Shape(), prior.frontier, next.frontier,
              prior.Config().world.nodes, next.Config().world.nodes)
  }

  /** Charges every retained list; the flag says whether all of them fit. */
  method ChargeAll(before: Snapshot, after: Snapshot, l: Lineage, size: Item -> nat) returns (fits: bool)
    ensures fits <==> LineageCost(size, before, after, l) <= MAX_OUTPUT
  {
    hide Cost;
    var lists := [SourceItems(before.sources), SourceItems(after.sources), LeafItems(l.removed), LeafItems(l.added),
                  OverlapItems(l.overlaps), MemberItems(l.retired), MemberItems(l.splits),
                  MemberItems(l.created), MemberItems(l.merges)];
    var bytes: nat := ENVELOPE;
    for i := 0 to |lists|
      invariant bytes == ENVELOPE + ListsCost(size, lists[..i]) <= MAX_OUTPUT
    {
      assert lists[..i + 1][..i] == lists[..i];
      ListsMonotone(size, lists, i + 1);
      var total, ok := RetainAll(size, lists[i], bytes);
      if !ok {
        NineLists(size, before, after, l);
        return false;
      }
      bytes := total;
    }
    assert lists[..|lists|] == lists;
    NineLists(size, before, after, l);
    fits := true;
  }

  function ListsCost(size: Item -> nat, lists: seq<seq<Item>>): nat {
    if lists == [] then 0 else ListsCost(size, lists[..|lists| - 1]) + Cost(size, lists[|lists| - 1])
  }

  lemma {:induction false} ListsMonotone(size: Item -> nat, lists: seq<seq<Item>>, i: nat)
    requires i <= |lists|
    ensures ListsCost(size, lists[..i]) <= ListsCost(size, lists)
    decreases |lists| - i
  {
    hide Cost;
    if i < |lists| {
      assert lists[..i + 1][..i] == lists[..i];
      ListsMonotone(size, lists, i + 1);
    } else {
      assert lists[..i] == lists;
    }
  }

  lemma ListsAppend(size: Item -> nat, lists: seq<seq<Item>>, last: seq<Item>)
    ensures ListsCost(size, lists + [last]) == ListsCost(size, lists) + Cost(size, last)
  {
    hide Cost;
    assert (lists + [last])[..|lists|] == lists;
  }

  lemma NineLists(size: Item -> nat, before: Snapshot, after: Snapshot, l: Lineage)
    ensures ENVELOPE + ListsCost(size,
      [SourceItems(before.sources), SourceItems(after.sources), LeafItems(l.removed), LeafItems(l.added),
       OverlapItems(l.overlaps), MemberItems(l.retired), MemberItems(l.splits),
       MemberItems(l.created), MemberItems(l.merges)]) == LineageCost(size, before, after, l)
  {
    hide Cost, SourceItems, LeafItems, OverlapItems, MemberItems;
    var a, b, c := SourceItems(before.sources), SourceItems(after.sources), LeafItems(l.removed);
    var d, e, f := LeafItems(l.added), OverlapItems(l.overlaps), MemberItems(l.retired);
    var g, h, i := MemberItems(l.splits), MemberItems(l.created), MemberItems(l.merges);
    ListsAppend(size, [], a);
    ListsAppend(size, [a], b);
    ListsAppend(size, [a, b], c);
    ListsAppend(size, [a, b, c], d);
    ListsAppend(size, [a, b, c, d], e);
    ListsAppend(size, [a, b, c, d, e], f);
    ListsAppend(size, [a, b, c, d, e, f], g);
    ListsAppend(size, [a, b, c, d, e, f, g], h);
    ListsAppend(size, [a, b, c, d, e, f, g, h], i);
    assert [a, b, c, d, e, f, g, h] + [i] == [a, b, c, d, e, f, g, h, i];
    assert [a, b, c, d, e, f, g] + [h] == [a, b, c, d, e, f, g, h];
    assert [a, b, c, d, e, f] + [g] == [a, b, c, d, e, f, g];
    assert [a, b, c, d, e] + [f] == [a, b, c, d, e, f];
    assert [a, b, c, d] + [e] == [a, b, c, d, e] && [a, b, c] + [d] == [a, b, c, d];
    assert [a, b] + [c] == [a, b, c] && [a] + [b] == [a, b] && [] + [a] == [a];
  }

  /** Compares two complete frontiers. Neither hierarchy changes. The answer is the reference
      lineage exactly when both sides are in scope and the retained items and the result fit. */
  method LineageTo(prior: Hierarchy, next: Hierarchy, domain: string, itemSize: Item -> nat, resultSize: Lineage -> nat)
    returns (r: Result<Lineage>)
    requires prior.Valid() && next.Valid()
    ensures !InScope(prior.source, next.source, domain) ==> r == Err(ClusterScope)
    ensures InScope(prior.source, next.source, domain) ==>
              r == if LineageCost(itemSize, prior.source, next.source, Reference(prior, next)) <= MAX_OUTPUT
                      && resultSize(Reference(prior, next)) <= MAX_OUTPUT
                   then Ok(Reference(prior, next)) else Err(ClusterBudget)
  {
    hide Partitions, Owning, Good, Counted, Degrees, Cost, Ascending, ValidWorld, Overlapping, OverlapList, LineageCost,
         Where, SortStrings, SortPairs;
    if !InScope(prior.source, next.source, domain) {
      return Err(ClusterScope);
    }
    ghost var w, f, v, g := prior.Config().world, prior.Shape(), next.Config().world, next.Shape();
    GoodPartitions(prior.Config(), prior.View());
    GoodPartitions(next.Config(), next.View());
    var before := prior.Owners();
    var after := next.Owners();
    var counts, removed := CountShared(before, after);
    var added := AddedLeaves(after.Keys, before.Keys);
    CountsAreShared(w, f, v, g, before, after, counts);
    var overlaps, outs, ins := OverlapsAndDegrees(f, g, counts);
    ghost var pairs := Overlapping(f, g);
    ghost var gone, split := Retired(pairs), Split(pairs);
    ghost var fresh_, merged := Created(pairs), Merged(pairs);
    forall m ensures gone(m) <==> DegreeOf(outs, m) == 0 { DegreesDecide(pairs, outs, ins, m); }
    forall m ensures split(m) <==> DegreeOf(outs, m) > 1 { DegreesDecide(pairs, outs, ins, m); }
    forall m ensures fresh_(m) <==> DegreeOf(ins, m) == 0 { DegreesDecide(pairs, outs, ins, m); }
    forall m ensures merged(m) <==> DegreeOf(ins, m) > 1 { DegreesDecide(pairs, outs, ins, m); }
    var retired, splits := ByDegree(prior.frontier, outs, gone, split);
    var created, merges := ByDegree(next.frontier, ins, fresh_, merged);
    var l := Lineage(overlaps, splits, merges, retired, created, removed, added);
    OwningKeys(w, f, before);
    OwningKeys(v, g, after);
    assert l == Reference(prior, next);
    var fits := ChargeAll(prior.source, next.source, l, itemSize);
    if !fits || resultSize(l) > MAX_OUTPUT {
      return Err(ClusterBudget);
    }
    return Ok(l);
  }

  lemma OwningKeys(w: World, f: Forest, owners: map<string, Member>)
    requires Owning(w, f, owners)
    ensures owners.Keys == w.nodes
  {
  }
}
