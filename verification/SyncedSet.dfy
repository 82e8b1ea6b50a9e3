/** Synced sets: the daemons that have the same view of the groups, listed in configuration order,
    and how the sets merge when the state exchange completes. */
module SyncedSet {
  import opened Outcomes
  import opened Configuration

  /** All known, in strictly increasing configuration order. */
  ghost predicate InConfOrder(order: seq<int>, s: seq<int>) {
    && (forall i :: 0 <= i < |s| ==> IndexIn(order, s[i]) >= 0)
    && (forall i, j :: 0 <= i < j < |s| ==> IndexIn(order, s[i]) < IndexIn(order, s[j]))
  }

  /** G_add_to_synced_set, with mine and theirs not yet merged. */
  function Merge(order: seq<int>, mine: seq<int>, theirs: seq<int>): Outcome<seq<int>>
    decreases |mine| + |theirs|
  {
    if mine == [] && theirs == [] then Go([])
    else if mine != [] && IndexIn(order, mine[0]) < 0 then Exit("G_add_to_synced_set: proc_id not in conf")
    else if theirs != [] && IndexIn(order, theirs[0]) < 0 then Exit("G_add_to_synced_set: proc_id not in conf")
    else if theirs == [] || (mine != [] && IndexIn(order, mine[0]) < IndexIn(order, theirs[0])) then
      Prepend(mine[0], Merge(order, mine[1..], theirs))
    else if mine == [] || IndexIn(order, theirs[0]) < IndexIn(order, mine[0]) then
      Prepend(theirs[0], Merge(order, mine, theirs[1..]))
    else Exit("G_add_to_synced_set: intersection isn't empty")
  }

  function Prepend(x: int, o: Outcome<seq<int>>): Outcome<seq<int>> {
    if o.Go? then Go([x] + o.value) else o
  }

  function MergeAll(order: seq<int>, mine: seq<int>, sets: seq<seq<int>>): Outcome<seq<int>>
    decreases |sets|
  {
    if sets == [] then Go(mine)
    else
      var m := Merge(order, mine, sets[0]);
      if m.Go? then MergeAll(order, m.value, sets[1..]) else m
  }

  ghost predicate Disjoint(a: seq<int>, b: seq<int>) {
    forall x :: x in a ==> x !in b
  }

  ghost predicate Below(order: seq<int>, x: int, s: seq<int>) {
    forall y :: y in s ==> IndexIn(order, x) < IndexIn(order, y)
  }

  lemma InConfOrderTail(order: seq<int>, s: seq<int>)
    requires InConfOrder(order, s) && s != []
    ensures InConfOrder(order, s[1..]) && Below(order, s[0], s[1..])
    ensures forall x :: x in s <==> x == s[0] || x in s[1..]
  {
    assert forall i :: 0 <= i < |s| - 1 ==> s[1..][i] == s[i + 1];
    assert forall i :: 0 < i < |s| ==> s[i] == s[1..][i - 1];
  }

  lemma InConfOrderCons(order: seq<int>, x: int, s: seq<int>)
    requires InConfOrder(order, s) && Below(order, x, s) && IndexIn(order, x) >= 0
    ensures InConfOrder(order, [x] + s)
    ensures forall y :: y in [x] + s <==> y == x || y in s
  {
    hide IndexIn;
    var t := [x] + s;
    forall i, j | 0 <= i < j < |t|
      ensures IndexIn(order, t[i]) < IndexIn(order, t[j])
    {
      if i == 0 {
        assert t[j] == s[j - 1] && s[j - 1] in s;
      } else {
        assert t[i] == s[i - 1] && t[j] == s[j - 1];
      }
    }
    forall i | 0 <= i < |t|
      ensures IndexIn(order, t[i]) >= 0
    {
      if i > 0 {
        assert t[i] == s[i - 1];
      }
    }
    hide *;
  }

  lemma BelowAll(order: seq<int>, x: int, y: int, s: seq<int>)
    requires IndexIn(order, x) < IndexIn(order, y) && Below(order, y, s)
    ensures Below(order, x, s)
  {
  }

  lemma SameIndex(order: seq<int>, x: int, y: int)
    ensures IndexIn(order, x) >= 0 && IndexIn(order, x) == IndexIn(order, y) ==> x == y
  {
  }

  ghost predicate AllKnown(order: seq<int>, s: seq<int>) {
    forall x :: x in s ==> x in order
  }

  lemma {:induction false} MergeNeedsKnown(order: seq<int>, mine: seq<int>, theirs: seq<int>)
    requires Merge(order, mine, theirs).Go?
    ensures AllKnown(order, mine) && AllKnown(order, theirs)
    decreases |mine| + |theirs|
  {
    hide IndexIn;
    if mine != [] || theirs != [] {
      var first := theirs == [] || (mine != [] && IndexIn(order, mine[0]) < IndexIn(order, theirs[0]));
      MergeNeedsKnown(order, if first then mine[1..] else mine, if first then theirs else theirs[1..]);
    }
  }

  lemma {:induction false} MergeNeedsDisjoint(order: seq<int>, mine: seq<int>, theirs: seq<int>)
    requires InConfOrder(order, mine) && InConfOrder(order, theirs) && Merge(order, mine, theirs).Go?
    ensures Disjoint(mine, theirs)
    decreases |mine| + |theirs|
  {
    hide IndexIn;
    if mine != [] && theirs != [] {
      InConfOrderTail(order, mine);
      InConfOrderTail(order, theirs);
      if IndexIn(order, mine[0]) < IndexIn(order, theirs[0]) {
        MergeNeedsDisjoint(order, mine[1..], theirs);
      } else {
        MergeNeedsDisjoint(order, mine, theirs[1..]);
      }
    }
  }

  /** Two sets in configuration order can be merged if and only if they have nobody in common; two
      lists of which one names a daemon outside the configuration never can. */
  lemma MergesExactly(order: seq<int>, mine: seq<int>, theirs: seq<int>)
    ensures InConfOrder(order, mine) && InConfOrder(order, theirs) ==> (Merge(order, mine, theirs).Go? <==> Disjoint(mine, theirs))
    ensures !AllKnown(order, mine) || !AllKnown(order, theirs) ==> Merge(order, mine, theirs).Exit?
  {
    hide Merge, IndexIn;
    if Merge(order, mine, theirs).Go? {
      MergeNeedsKnown(order, mine, theirs);
    }
    if InConfOrder(order, mine) && InConfOrder(order, theirs) {
      if Merge(order, mine, theirs).Go? {
        MergeNeedsDisjoint(order, mine, theirs);
      }
      if Disjoint(mine, theirs) {
        MergeExact(order, mine, theirs);
      }
    }
  }

  /** Merging two disjoint sets gives their union, in order. */
  lemma {:induction false} MergeExact(order: seq<int>, mine: seq<int>, theirs: seq<int>)
    requires InConfOrder(order, mine) && InConfOrder(order, theirs) && Disjoint(mine, theirs)
    ensures Merge(order, mine, theirs).Go?
    ensures InConfOrder(order, Merge(order, mine, theirs).value)
    ensures forall x :: x in Merge(order, mine, theirs).value <==> x in mine || x in theirs
    decreases |mine| + |theirs|
  {
    hide IndexIn;
    if mine == [] && theirs == [] {
    } else if theirs == [] || (mine != [] && IndexIn(order, mine[0]) < IndexIn(order, theirs[0])) {
      InConfOrderTail(order, mine);
      MergeExact(order, mine[1..], theirs);
      var rest := Merge(order, mine[1..], theirs).value;
      if theirs != [] {
        InConfOrderTail(order, theirs);
        BelowAll(order, mine[0], theirs[0], theirs[1..]);
      }
      assert Below(order, mine[0], rest);
      InConfOrderCons(order, mine[0], rest);
    } else {
      if mine != [] {
        assert mine[0] in mine && theirs[0] in theirs;
        SameIndex(order, mine[0], theirs[0]);
        InConfOrderTail(order, mine);
        BelowAll(order, theirs[0], mine[0], mine[1..]);
      }
      InConfOrderTail(order, theirs);
      MergeExact(order, mine, theirs[1..]);
      var rest := Merge(order, mine, theirs[1..]).value;
      assert Below(order, theirs[0], rest);
      InConfOrderCons(order, theirs[0], rest);
    }
  }

  lemma FirstIn(t: seq<int>)
    ensures t != [] ==> t[0] in t
  {
  }

  /** Two lists in configuration order with the same members are the same list. */
  lemma {:induction false} OrderIsUnique(order: seq<int>, s: seq<int>, t: seq<int>)
    requires InConfOrder(order, s) && InConfOrder(order, t) && forall x :: x in s <==> x in t
    ensures s == t
    decreases |s|
  {
    hide IndexIn;
    FirstIn(t);
    if s != [] {
      assert s[0] in s && s[0] in t;
      assert t[0] in t && t[0] in s;
      InConfOrderTail(order, s);
      InConfOrderTail(order, t);
      assert s[0] == t[0];
      assert s[0] !in s[1..] && t[0] !in t[1..];
      OrderIsUnique(order, s[1..], t[1..]);
    }
  }

  ghost predicate Partition(order: seq<int>, mine: seq<int>, sets: seq<seq<int>>) {
    && InConfOrder(order, mine)
    && (forall i :: 0 <= i < |sets| ==> InConfOrder(order, sets[i]) && Disjoint(mine, sets[i]))
    && (forall i, j :: 0 <= i < j < |sets| ==> Disjoint(sets[i], sets[j]))
  }

  ghost predicate Covers(mine: seq<int>, sets: seq<seq<int>>, x: int) {
    x in mine || exists i :: 0 <= i < |sets| && x in sets[i]
  }

  lemma CoversTail(mine: seq<int>, sets: seq<seq<int>>, merged: seq<int>, x: int)
    requires sets != [] && (x in merged <==> x in mine || x in sets[0])
    ensures Covers(merged, sets[1..], x) <==> Covers(mine, sets, x)
  {
    if i :| 0 <= i < |sets| && x in sets[i] {
      assert i == 0 || x in sets[1..][i - 1];
    }
    if i :| 0 <= i < |sets| - 1 && x in sets[1..][i] {
      assert x in sets[i + 1];
    }
  }

  lemma PartitionTail(order: seq<int>, mine: seq<int>, sets: seq<seq<int>>, merged: seq<int>)
    requires Partition(order, mine, sets) && sets != [] && InConfOrder(order, merged)
    requires forall x :: x in merged <==> x in mine || x in sets[0]
    ensures Partition(order, merged, sets[1..])
  {
    hide InConfOrder;
    forall i | 0 <= i < |sets| - 1
      ensures InConfOrder(order, sets[1..][i]) && Disjoint(merged, sets[1..][i])
    {
      assert sets[1..][i] == sets[i + 1];
      assert Disjoint(sets[0], sets[i + 1]) && Disjoint(mine, sets[i + 1]);
    }
    forall i, j | 0 <= i < j < |sets| - 1
      ensures Disjoint(sets[1..][i], sets[1..][j])
    {
      assert Disjoint(sets[i + 1], sets[j + 1]);
    }
  }

  /** Whatever the order in which the other sets are added, a daemon ends with the whole
      membership in configuration order, and so do all others. */
  lemma {:induction false} MergeAllExact(order: seq<int>, mine: seq<int>, sets: seq<seq<int>>, reg: seq<int>)
    requires Partition(order, mine, sets) && InConfOrder(order, reg)
    requires forall x :: x in reg <==> Covers(mine, sets, x)
    ensures MergeAll(order, mine, sets) == Go(reg)
    decreases |sets|
  {
    hide InConfOrder, Merge;
    if sets == [] {
      assert forall x :: x in reg <==> x in mine by {
        forall x ensures x in reg <==> x in mine {
          assert x in reg <==> Covers(mine, sets, x);
        }
      }
      OrderIsUnique(order, mine, reg);
    } else {
      MergeExact(order, mine, sets[0]);
      var merged := Merge(order, mine, sets[0]).value;
      PartitionTail(order, mine, sets, merged);
      forall x
        ensures x in reg <==> Covers(merged, sets[1..], x)
      {
        CoversTail(mine, sets, merged, x);
      }
      MergeAllExact(order, merged, sets[1..], reg);
    }
  }

  /** G_add_to_synced_set, as its loop runs. */
  method AddToSyncedSet(order: seq<int>, mine: seq<int>, theirs: seq<int>) returns (ok: bool, merged: seq<int>)
    ensures ok <==> Merge(order, mine, theirs).Go?
    ensures ok ==> merged == Merge(order, mine, theirs).value
  {
    hide IndexIn;
    merged := [];
    var i, j, left, right := 0, 0, -1, -1;
    PrependNone(Merge(order, mine, theirs));
    assert mine[0..] == mine && theirs[0..] == theirs;
    while i < |mine| || j < |theirs|
      invariant 0 <= i <= |mine| && 0 <= j <= |theirs|
      invariant left == -1 || (i < |mine| && left == IndexIn(order, mine[i]) && left >= 0)
      invariant right == -1 || (j < |theirs| && right == IndexIn(order, theirs[j]) && right >= 0)
      invariant Merge(order, mine, theirs) == PrependAll(merged, Merge(order, mine[i..], theirs[j..]))
      decreases |mine| - i + |theirs| - j
    {
      if i < |mine| && left == -1 {
        left := IndexIn(order, mine[i]);
        if left == -1 {
          return false, merged;
        }
      }
      if j < |theirs| && right == -1 {
        right := IndexIn(order, theirs[j]);
        if right == -1 {
          return false, merged;
        }
      }
      assert mine[i..] != [] ==> mine[i..][0] == mine[i] && mine[i..][1..] == mine[i + 1..];
      assert theirs[j..] != [] ==> theirs[j..][0] == theirs[j] && theirs[j..][1..] == theirs[j + 1..];
      if (left < right && left != -1) || right == -1 {
        PrependMore(merged, mine[i], Merge(order, mine[i + 1..], theirs[j..]));
        merged := merged + [mine[i]];
        i, left := i + 1, -1;
      } else if (right < left && right != -1) || left == -1 {
        PrependMore(merged, theirs[j], Merge(order, mine[i..], theirs[j + 1..]));
        merged := merged + [theirs[j]];
        j, right := j + 1, -1;
      } else {
        return false, merged;
      }
    }
    assert merged + [] == merged;
    return true, merged;
  }

  function PrependAll(s: seq<int>, o: Outcome<seq<int>>): Outcome<seq<int>> {
    if o.Go? then Go(s + o.value) else o
  }

  lemma PrependNone(o: Outcome<seq<int>>)
    ensures PrependAll([], o) == o
  {
    if o.Go? {
      assert [] + o.value == o.value;
    }
  }

  lemma PrependMore(s: seq<int>, x: int, o: Outcome<seq<int>>)
    ensures PrependAll(s, Prepend(x, o)) == PrependAll(s + [x], o)
  {
    if o.Go? {
      assert s + ([x] + o.value) == s + [x] + o.value;
    }
  }
}
