/** `component_oracle`: the groups are exactly the mutual-reachability classes. */
module Components {
  import opened Orders
  import opened Distances

  ghost predicate Mutual(g: Graph, u: string, v: string) {
    Reaches(g, u, v) && Reaches(g, v, u)
  }

  lemma MutualSelf(g: Graph, u: string)
    ensures Mutual(g, u, u)
  {
    assert WalkTo(g, [u], u, u);
  }

  lemma MutualSymmetric(g: Graph, u: string, v: string)
    ensures Mutual(g, u, v) <==> Mutual(g, v, u)
  {
  }

  lemma MutualTrans(g: Graph, u: string, v: string, w: string)
    requires Mutual(g, u, v) && Mutual(g, v, w)
    ensures Mutual(g, u, w)
  {
    var a :| WalkTo(g, a, u, v);
    var b :| WalkTo(g, b, v, w);
    var c :| WalkTo(g, c, w, v);
    var d :| WalkTo(g, d, v, u);
    JoinWalks(g, a, b, u, v, w);
    JoinWalks(g, c, d, w, v, u);
  }

  /** Reading every pair both ways makes reachability symmetric, so weak classes are components. */
  lemma UndirectedMutual(g: Graph, u: string, v: string)
    requires !g.directed
    ensures Mutual(g, u, v) <==> Reaches(g, u, v)
  {
    if p :| WalkTo(g, p, u, v) {
      var q := seq(|p|, i requires 0 <= i < |p| => p[|p| - 1 - i]);
      forall i | 0 <= i < |q| - 1 ensures Edge(g, q[i], q[i + 1]) {
        var k := |p| - 2 - i;
        assert Edge(g, p[k], p[k + 1]);
      }
      assert WalkTo(g, q, v, u);
    }
  }

  /** `group` lists exactly the identifiers mutually reachable with its first member, in ascending
      order and so without repeats. */
  ghost predicate IsClass(g: Graph, identifiers: set<string>, group: seq<string>) {
    group != [] && Ascending(StringLess, group) && forall v :: v in group <==> v in identifiers && Mutual(g, group[0], v)
  }

  ghost predicate Disjoint(groups: seq<seq<string>>) {
    forall i, j, v | 0 <= i < j < |groups| && v in groups[i] :: v !in groups[j]
  }

  /** Groups are not empty, and their first members ascend. */
  ghost predicate FirstsAscending(groups: seq<seq<string>>) {
    forall i, j | 0 <= i < j < |groups| ::
      groups[i] != [] && groups[j] != [] && StringLess(groups[i][0], groups[j][0])
  }

  ghost predicate Grouped(groups: seq<seq<string>>, u: string) {
    exists i :: 0 <= i < |groups| && u in groups[i]
  }

  lemma FiniteReaches(g: Graph, u: string, v: string, d: Distance)
    requires IsDistance(g, u, v, d)
    ensures d.Finite? <==> Reaches(g, u, v)
  {
    if d.Finite? {
      var p :| WalkTo(g, p, u, v) && |p| == d.steps + 1;
    }
  }

  /** The identifiers mutually reachable with `ids[index]`, in identifier order. */
  method Group(g: Graph, ids: seq<string>, m: array2<Distance>, index: nat) returns (group: seq<string>)
    requires Ascending(StringLess, ids) && index < |ids| && m.Length0 == |ids| == m.Length1
    requires forall i, j | 0 <= i < |ids| && 0 <= j < |ids| :: IsDistance(g, ids[i], ids[j], m[i, j])
    ensures forall v :: v in group <==> v in ids && Mutual(g, ids[index], v)
    ensures Ascending(StringLess, group)
    ensures (forall j | 0 <= j < index :: !Mutual(g, ids[index], ids[j])) ==> group != [] && group[0] == ids[index]
  {
    hide IsDistance, Mutual, StringLess;
    group := [];
    for j := 0 to |ids|
      invariant forall v :: v in group <==> v in ids[..j] && Mutual(g, ids[index], v)
      invariant Ascending(StringLess, group)
      invariant (forall h | 0 <= h < index :: !Mutual(g, ids[index], ids[h])) ==>
                  if j <= index then group == [] else group != [] && group[0] == ids[index]
    {
      assert ids[..j + 1] == ids[..j] + [ids[j]];
      MutualEntries(g, ids[index], ids[j], m[index, j], m[j, index]);
      MutualSelf(g, ids[index]);
      if m[index, j].Finite? && m[j, index].Finite? {
        NextInOrder(ids, j, group);
        group := group + [ids[j]];
      }
    }
    assert ids[..|ids|] == ids;
  }

  lemma NextInOrder(ids: seq<string>, j: nat, group: seq<string>)
    requires Ascending(StringLess, ids) && Ascending(StringLess, group) && j < |ids|
    requires forall v | v in group :: v in ids[..j]
    ensures Ascending(StringLess, group + [ids[j]])
  {
    hide StringLess;
    var q := group + [ids[j]];
    forall i, k | 0 <= i < k < |q| ensures StringLess(q[i], q[k]) {
      if k == |group| {
        assert q[i] in group;
        var t :| 0 <= t < j && ids[t] == q[i];
      }
    }
  }

  lemma MutualEntries(g: Graph, u: string, v: string, d: Distance, e: Distance)
    requires IsDistance(g, u, v, d) && IsDistance(g, v, u, e)
    ensures d.Finite? && e.Finite? <==> Mutual(g, u, v)
  {
    FiniteReaches(g, u, v, d);
    FiniteReaches(g, v, u, e);
  }

  /** Shrinks the set of remaining identifiers group by group. The groups come out in ascending
      order of their first members, so sorting the list of groups changes nothing. */
  method ComponentOracle(identifiers: set<string>, pairs: seq<(string, string)>, strong: bool)
    returns (result: seq<seq<string>>)
    requires Known(Graph(pairs, strong), identifiers)
    ensures forall i | 0 <= i < |result| :: IsClass(Graph(pairs, strong), identifiers, result[i])
    ensures Disjoint(result) && forall u | u in identifiers :: Grouped(result, u)
    ensures FirstsAscending(result)
  {
    hide IsDistance, StringLess, Mutual, IsClass, Disjoint, FirstsAscending, Progress;
    var g := Graph(pairs, strong);
    var ids, m := MatrixDistances(identifiers, g);
    var remaining := identifiers;
    result := [];
    NoGroups(g, identifiers, ids);
    for index := 0 to |ids|
      invariant Progress(g, identifiers, ids, index, remaining, result)
      invariant forall i, j | 0 <= i < |ids| && 0 <= j < |ids| :: IsDistance(g, ids[i], ids[j], m[i, j])
    {
      InProgress(g, identifiers, ids, index, remaining, result);
      assert ids[index] in Elements(ids);
      if ids[index] in remaining {
        var group := Group(g, ids, m, index);
        NewGroup(g, identifiers, ids, index, remaining, result, group);
        remaining := remaining - Elements(group);
        result := result + [group];
      } else {
        SkipGroup(g, identifiers, ids, index, remaining, result);
      }
    }
    AllGrouped(g, identifiers, ids, remaining, result);
  }

  lemma NoGroups(g: Graph, identifiers: set<string>, ids: seq<string>)
    requires Elements(ids) == identifiers && Ascending(StringLess, ids)
    ensures Progress(g, identifiers, ids, 0, identifiers, [])
  {
  }

  lemma InProgress(g: Graph, identifiers: set<string>, ids: seq<string>, index: nat,
                   remaining: set<string>, result: seq<seq<string>>)
    requires Progress(g, identifiers, ids, index, remaining, result)
    ensures Elements(ids) == identifiers
  {
  }

  lemma AllGrouped(g: Graph, identifiers: set<string>, ids: seq<string>, remaining: set<string>, result: seq<seq<string>>)
    requires Progress(g, identifiers, ids, |ids|, remaining, result)
    ensures forall i | 0 <= i < |result| :: IsClass(g, identifiers, result[i])
    ensures Disjoint(result) && FirstsAscending(result)
    ensures forall u | u in identifiers :: Grouped(result, u)
  {
    hide IsClass, Disjoint, FirstsAscending;
    forall u | u in identifiers ensures Grouped(result, u) {
      assert u in Elements(ids);
      var t :| 0 <= t < |ids| && ids[t] == u;
      assert Done(ids, remaining, t);
    }
  }

  ghost predicate Done(ids: seq<string>, remaining: set<string>, t: nat)
    requires t < |ids|
  {
    ids[t] !in remaining
  }

  ghost predicate Progress(g: Graph, identifiers: set<string>, ids: seq<string>, index: nat,
                           remaining: set<string>, result: seq<seq<string>>) {
    && Elements(ids) == identifiers && Ascending(StringLess, ids) && index <= |ids|
    && (forall i | 0 <= i < |result| :: IsClass(g, identifiers, result[i]))
    && Disjoint(result)
    && (forall u :: u in remaining <==> u in identifiers && !Grouped(result, u))
    && (forall t: nat | t < index :: Done(ids, remaining, t))
    && (forall i | 0 <= i < |result| :: FromEarlier(ids, index, result[i]))
    && FirstsAscending(result)
  }

  ghost predicate FromEarlier(ids: seq<string>, index: nat, group: seq<string>)
    requires index <= |ids|
  {
    group != [] && exists t :: 0 <= t < index && group[0] == ids[t]
  }

  lemma SkipGroup(g: Graph, identifiers: set<string>, ids: seq<string>, index: nat,
                  remaining: set<string>, result: seq<seq<string>>)
    requires Progress(g, identifiers, ids, index, remaining, result)
    requires index < |ids| && ids[index] !in remaining
    ensures Progress(g, identifiers, ids, index + 1, remaining, result)
  {
    hide IsClass, Disjoint;
  }

  /** An identifier still remaining is mutual with no member of an earlier group. */
  lemma NotMutual(g: Graph, identifiers: set<string>, result: seq<seq<string>>, u: string, v: string)
    requires forall i | 0 <= i < |result| :: IsClass(g, identifiers, result[i])
    requires u in identifiers && !Grouped(result, u) && Grouped(result, v)
    ensures !Mutual(g, u, v)
  {
    hide Mutual;
    var i :| 0 <= i < |result| && v in result[i];
    assert IsClass(g, identifiers, result[i]);
    MutualSymmetric(g, u, v);
    if Mutual(g, v, u) {
      MutualTrans(g, result[i][0], v, u);
    }
  }

  lemma NewGroup(g: Graph, identifiers: set<string>, ids: seq<string>, index: nat,
                 remaining: set<string>, result: seq<seq<string>>, group: seq<string>)
    requires Progress(g, identifiers, ids, index, remaining, result)
    requires index < |ids| && ids[index] in remaining
    requires forall v :: v in group <==> v in ids && Mutual(g, ids[index], v)
    requires Ascending(StringLess, group)
    requires (forall j | 0 <= j < index :: !Mutual(g, ids[index], ids[j])) ==> group != [] && group[0] == ids[index]
    ensures Progress(g, identifiers, ids, index + 1, remaining - Elements(group), result + [group])
  {
    hide Mutual, StringLess, FirstsAscending, Disjoint, IsClass, Grouped;
    var u := ids[index];
    forall j | 0 <= j < index ensures !Mutual(g, u, ids[j]) {
      assert ids[j] in Elements(ids);
      assert Done(ids, remaining, j);
      NotMutual(g, identifiers, result, u, ids[j]);
    }
    MutualSelf(g, u);
    GroupIsClass(g, identifiers, ids, group);
    StaysDisjoint(g, identifiers, result, group, u);
    GroupedMore(result, group);
    FirstsAscend(ids, index, result, group);
    var all := result + [group];
    forall i | 0 <= i < |all| ensures IsClass(g, identifiers, all[i]) && FromEarlier(ids, index + 1, all[i]) {
      if i == |result| {
        assert all[i][0] == ids[index];
      } else {
        assert IsClass(g, identifiers, result[i]) && FromEarlier(ids, index, result[i]);
      }
    }
    var left := remaining - Elements(group);
    assert u in group && u !in left;
    forall v ensures v in left <==> v in identifiers && !Grouped(all, v) {
      assert v in group <==> v in Elements(group);
    }
    forall t: nat | t < index + 1 ensures Done(ids, left, t) {
      assert t < index ==> Done(ids, remaining, t);
    }
  }

  lemma GroupIsClass(g: Graph, identifiers: set<string>, ids: seq<string>, group: seq<string>)
    requires Elements(ids) == identifiers && group != []
    requires forall v :: v in group <==> v in ids && Mutual(g, group[0], v)
    requires Ascending(StringLess, group)
    ensures IsClass(g, identifiers, group)
  {
    hide Mutual;
    forall v ensures v in group <==> v in identifiers && Mutual(g, group[0], v) {
      assert v in ids <==> v in Elements(ids);
    }
  }

  lemma StaysDisjoint(g: Graph, identifiers: set<string>, result: seq<seq<string>>, group: seq<string>, u: string)
    requires forall i | 0 <= i < |result| :: IsClass(g, identifiers, result[i])
    requires Disjoint(result) && u in identifiers && !Grouped(result, u)
    requires forall v | v in group :: Mutual(g, u, v)
    ensures Disjoint(result + [group])
  {
    hide Mutual, IsClass;
    var all := result + [group];
    forall i, j, v | 0 <= i < j < |all| && v in all[i] ensures v !in all[j] {
      if j == |result| && v in group {
        assert Grouped(result, v);
        NotMutual(g, identifiers, result, u, v);
      }
    }
  }

  lemma GroupedMore(result: seq<seq<string>>, group: seq<string>)
    ensures forall u :: Grouped(result + [group], u) <==> Grouped(result, u) || u in group
  {
    var all := result + [group];
    forall u ensures Grouped(all, u) <==> Grouped(result, u) || u in group {
      if Grouped(result, u) {
        var i :| 0 <= i < |result| && u in result[i];
        assert u in all[i];
      }
      if u in group { assert u in all[|result|]; }
    }
  }

  lemma FirstsAscend(ids: seq<string>, index: nat, result: seq<seq<string>>, group: seq<string>)
    requires Ascending(StringLess, ids) && index < |ids| && group != [] && group[0] == ids[index]
    requires forall i | 0 <= i < |result| :: FromEarlier(ids, index, result[i])
    requires FirstsAscending(result)
    ensures FirstsAscending(result + [group])
  {
    hide StringLess;
    var all := result + [group];
    forall i, j | 0 <= i < j < |all|
      ensures all[i] != [] && all[j] != [] && StringLess(all[i][0], all[j][0])
    {
      assert FromEarlier(ids, index, result[i]);
    }
  }
}
