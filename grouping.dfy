/**
 * Grouping rows by key, as pandas `groupby` does: one group per distinct
 * key, holding the values of that key's rows in row order. Groups are kept
 * in order of first appearance.
 */
module Grouping {
  datatype Group<K, V> = Group(key: K, members: seq<V>)

  /** Position of the first group with key k, or |gs| when there is none. */
  function Find<K(==), V>(gs: seq<Group<K, V>>, k: K): (i: nat)
    ensures i <= |gs|
    ensures i < |gs| ==> gs[i].key == k
    ensures forall j :: 0 <= j < i ==> gs[j].key != k
    decreases |gs|
  {
    if gs == [] then 0
    else if gs[0].key == k then 0
    else
      var i := 1 + Find(gs[1..], k);
      assert forall j :: 1 <= j < i ==> gs[j] == gs[1..][j - 1];
      i
  }

  /** Add one row to the groups: to its key's group, or as a new group at the end. */
  function Insert<K(==), V>(gs: seq<Group<K, V>>, k: K, v: V): seq<Group<K, V>>
  {
    var i := Find(gs, k);
    if i == |gs| then gs + [Group(k, [v])] else gs[i := Group(k, gs[i].members + [v])]
  }

  function GroupBy<K(==), V>(pairs: seq<(K, V)>): seq<Group<K, V>>
    decreases |pairs|
  {
    if pairs == [] then []
    else
      var n := |pairs| - 1;
      Insert(GroupBy(pairs[..n]), pairs[n].0, pairs[n].1)
  }

  /** Reference definition of a group: the values of the rows with key k, in row order. */
  function Select<K(==), V>(pairs: seq<(K, V)>, k: K): seq<V>
    decreases |pairs|
  {
    if pairs == [] then []
    else
      var n := |pairs| - 1;
      Select(pairs[..n], k) + (if pairs[n].0 == k then [pairs[n].1] else [])
  }

  function GroupKeys<K, V>(gs: seq<Group<K, V>>): set<K>
  {
    set i | 0 <= i < |gs| :: gs[i].key
  }

  function PairKeys<K, V>(pairs: seq<(K, V)>): set<K>
  {
    set j | 0 <= j < |pairs| :: pairs[j].0
  }

  ghost predicate DistinctKeys<K, V>(gs: seq<Group<K, V>>)
  {
    forall i, j :: 0 <= i < j < |gs| ==> gs[i].key != gs[j].key
  }

  /** The total weight of a sequence of values. */
  function Weight<V>(w: V -> nat, vs: seq<V>): nat
    decreases |vs|
  {
    if vs == [] then 0 else Weight(w, vs[..|vs| - 1]) + w(vs[|vs| - 1])
  }

  /** The total weight of all groups' members. */
  function GroupsWeight<K, V>(w: V -> nat, gs: seq<Group<K, V>>): nat
    decreases |gs|
  {
    if gs == [] then 0 else GroupsWeight(w, gs[..|gs| - 1]) + Weight(w, gs[|gs| - 1].members)
  }

  function Values<K, V>(pairs: seq<(K, V)>): (vs: seq<V>)
    ensures |vs| == |pairs|
  {
    seq(|pairs|, j requires 0 <= j < |pairs| => pairs[j].1)
  }

  lemma SelectSnoc<K, V>(pairs: seq<(K, V)>, p: (K, V), k: K)
    ensures Select(pairs + [p], k) == Select(pairs, k) + (if p.0 == k then [p.1] else [])
  {
    assert (pairs + [p])[..|pairs|] == pairs;
  }

  /** A key that exactly one row has selects that row's value alone. */
  lemma {:induction false} SelectSingle<K, V>(pairs: seq<(K, V)>, j: int)
    requires 0 <= j < |pairs|
    requires forall i :: 0 <= i < |pairs| && i != j ==> pairs[i].0 != pairs[j].0
    ensures Select(pairs, pairs[j].0) == [pairs[j].1]
    decreases |pairs|
  {
    var n := |pairs| - 1;
    var k := pairs[j].0;
    if j < n {
      SelectSingle(pairs[..n], j);
    } else {
      forall i | 0 <= i < n ensures pairs[..n][i].0 != k {
        assert pairs[..n][i] == pairs[i];
      }
      SelectAbsent(pairs[..n], k);
    }
  }

  /** A key that no row has selects nothing. */
  lemma {:induction false} SelectAbsent<K, V>(pairs: seq<(K, V)>, k: K)
    requires k !in PairKeys(pairs)
    ensures Select(pairs, k) == []
    decreases |pairs|
  {
    if pairs != [] {
      var n := |pairs| - 1;
      assert PairKeys(pairs[..n]) <= PairKeys(pairs) by {
        forall x | x in PairKeys(pairs[..n]) ensures x in PairKeys(pairs) {
          var j :| 0 <= j < n && pairs[..n][j].0 == x;
          assert pairs[j].0 == x;
        }
      }
      SelectAbsent(pairs[..n], k);
      assert pairs[n].0 in PairKeys(pairs);
    }
  }

  lemma PairKeysSnoc<K, V>(pairs: seq<(K, V)>, p: (K, V))
    ensures PairKeys(pairs + [p]) == PairKeys(pairs) + {p.0}
  {
    var ps := pairs + [p];
    forall x | x in PairKeys(ps) ensures x in PairKeys(pairs) + {p.0} {
      var j :| 0 <= j < |ps| && ps[j].0 == x;
      if j < |pairs| { assert pairs[j].0 == x; }
    }
    forall x | x in PairKeys(pairs) ensures x in PairKeys(ps) {
      var j :| 0 <= j < |pairs| && pairs[j].0 == x;
      assert ps[j].0 == x;
    }
    assert ps[|pairs|].0 == p.0;
  }

  /** Inserting a row adds its key to the keys and keeps them distinct. */
  lemma InsertKeys<K, V>(gs: seq<Group<K, V>>, k: K, v: V)
    requires DistinctKeys(gs)
    ensures DistinctKeys(Insert(gs, k, v))
    ensures GroupKeys(Insert(gs, k, v)) == GroupKeys(gs) + {k}
  {
    var gs' := Insert(gs, k, v);
    var i := Find(gs, k);
    assert |gs'| >= |gs|;
    assert forall j :: 0 <= j < |gs| ==> gs'[j].key == gs[j].key;
    forall x | x in GroupKeys(gs') ensures x in GroupKeys(gs) + {k} {
      var j :| 0 <= j < |gs'| && gs'[j].key == x;
      if j < |gs| { assert gs[j].key == x; }
    }
    forall x | x in GroupKeys(gs) ensures x in GroupKeys(gs') {
      var j :| 0 <= j < |gs| && gs[j].key == x;
      assert gs'[j].key == x;
    }
    if i == |gs| {
      assert gs'[|gs|].key == k;
    } else {
      assert gs'[i].key == k;
    }
  }

  /** Inserting a row appends its value to its key's group and changes no other group. */
  lemma InsertMembers<K, V>(gs: seq<Group<K, V>>, k: K, v: V)
    requires DistinctKeys(gs)
    ensures forall j :: 0 <= j < |gs| ==>
      Insert(gs, k, v)[j].members == gs[j].members + (if gs[j].key == k then [v] else [])
    ensures |Insert(gs, k, v)| == |gs| || Insert(gs, k, v)[|gs|] == Group(k, [v])
  {
    var i := Find(gs, k);
    if i == |gs| {
      assert Insert(gs, k, v)[|gs|].key == k;
      assert k !in GroupKeys(gs);
    }
  }

  /**
   * GroupBy agrees with the reference definition: keys are distinct, there is
   * a group exactly for each key some row has, each group holds exactly the
   * values of its key's rows in row order, and no group is empty.
   */
  lemma {:induction false} GroupBySpec<K, V>(pairs: seq<(K, V)>)
    ensures DistinctKeys(GroupBy(pairs))
    ensures GroupKeys(GroupBy(pairs)) == PairKeys(pairs)
    ensures forall i :: 0 <= i < |GroupBy(pairs)| ==>
      GroupBy(pairs)[i].members == Select(pairs, GroupBy(pairs)[i].key)
    ensures forall i :: 0 <= i < |GroupBy(pairs)| ==> |GroupBy(pairs)[i].members| >= 1
    decreases |pairs|
  {
    if pairs != [] {
      var n := |pairs| - 1;
      var pre, p := pairs[..n], pairs[n];
      assert pairs == pre + [p];
      GroupBySpec(pre);
      var gs0 := GroupBy(pre);
      var gs := GroupBy(pairs);
      assert gs == Insert(gs0, p.0, p.1);
      PairKeysSnoc(pre, p);
      InsertKeys(gs0, p.0, p.1);
      InsertMembers(gs0, p.0, p.1);
      forall i | 0 <= i < |gs|
        ensures gs[i].members == Select(pairs, gs[i].key) && |gs[i].members| >= 1
      {
        SelectSnoc(pre, p, gs[i].key);
        if i == |gs0| {
          assert gs[i] == Group(p.0, [p.1]);
          assert p.0 !in PairKeys(pre);
          SelectAbsent(pre, p.0);
        } else {
          assert gs[i].key == gs0[i].key;
        }
      }
    }
  }

  lemma WeightSnoc<V>(w: V -> nat, vs: seq<V>, v: V)
    ensures Weight(w, vs + [v]) == Weight(w, vs) + w(v)
  {
    assert (vs + [v])[..|vs|] == vs;
  }

  /** Replacing one group changes the total by the difference of the two groups' weights. */
  lemma {:induction false} GroupsWeightUpdate<K, V>(w: V -> nat, gs: seq<Group<K, V>>, i: int, g: Group<K, V>)
    requires 0 <= i < |gs|
    ensures GroupsWeight(w, gs[i := g]) + Weight(w, gs[i].members) == GroupsWeight(w, gs) + Weight(w, g.members)
    decreases |gs|
  {
    var n := |gs| - 1;
    var gs' := gs[i := g];
    if i < n {
      assert gs'[..n] == gs[..n][i := g];
      GroupsWeightUpdate(w, gs[..n], i, g);
    } else {
      assert gs'[..n] == gs[..n];
    }
  }

  /** Inserting a row adds exactly its value's weight to the groups. */
  lemma InsertWeight<K, V>(w: V -> nat, gs: seq<Group<K, V>>, k: K, v: V)
    ensures GroupsWeight(w, Insert(gs, k, v)) == GroupsWeight(w, gs) + w(v)
  {
    var i := Find(gs, k);
    if i == |gs| {
      var g := Group(k, [v]);
      assert Insert(gs, k, v) == gs + [g];
      assert (gs + [g])[..|gs|] == gs;
      assert [v][..0] == [];
      assert Weight(w, [v]) == w(v);
    } else {
      var g := Group(k, gs[i].members + [v]);
      assert Insert(gs, k, v) == gs[i := g];
      GroupsWeightUpdate(w, gs, i, g);
      WeightSnoc(w, gs[i].members, v);
    }
  }

  /**
   * Grouping neither loses nor duplicates a row: the groups' members weigh
   * together exactly what all rows' values weigh.
   */
  lemma {:induction false} GroupByWeight<K, V>(w: V -> nat, pairs: seq<(K, V)>)
    ensures GroupsWeight(w, GroupBy(pairs)) == Weight(w, Values(pairs))
    decreases |pairs|
  {
    if pairs != [] {
      var n := |pairs| - 1;
      var pre, p := pairs[..n], pairs[n];
      GroupByWeight(w, pre);
      assert Values(pairs) == Values(pre) + [p.1];
      WeightSnoc(w, Values(pre), p.1);
      assert GroupBy(pairs) == Insert(GroupBy(pre), p.0, p.1);
      InsertWeight(w, GroupBy(pre), p.0, p.1);
    }
  }
}
