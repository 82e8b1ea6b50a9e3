/** The handlers of the groups module as the program runs them, walking its lists in loops. Each is
    proved equal to the function of GroupsBook that specifies it. */
module GroupsDaemon {
  import opened Groups
  import B = GroupsBook

  lemma SearchOn(boxes: seq<int>, b: int, i: nat)
    requires i < |boxes| && boxes[i] != b
    ensures boxes[..i] + B.RemoveBox(boxes[i..], b) == boxes[..i + 1] + B.RemoveBox(boxes[i + 1..], b)
    ensures b in boxes[i..] ==> b in boxes[i + 1..]
  {
    assert boxes[i..] == [boxes[i]] + boxes[i + 1..];
    assert boxes[..i + 1] == boxes[..i] + [boxes[i]];
  }

  lemma FoundHere(boxes: seq<int>, b: int, i: nat)
    requires i < |boxes| && boxes[i] == b
    ensures
      var n := |boxes| - 1;
      boxes[..i] + B.RemoveBox(boxes[i..], b) == if i == n then boxes[..n] else boxes[i := boxes[n]][..n]
  {
    var n, rest := |boxes| - 1, boxes[i..];
    assert B.RemoveBox(rest, b) == if |rest| == 1 then [] else [rest[|rest| - 1]] + rest[1..|rest| - 1];
    hide *;
    if i < n {
      assert rest[1..|rest| - 1] == boxes[i + 1..n];
    }
  }

  /** G_remove_mailbox; the mailbox has to be there. */
  method RemoveMailbox(boxes: seq<int>, b: int) returns (r: seq<int>)
    requires b in boxes
    ensures r == B.RemoveBox(boxes, b)
  {
    hide *;
    var i := 0;
    assert boxes[0..] == boxes;
    assert boxes[..0] + B.RemoveBox(boxes, b) == B.RemoveBox(boxes, b);
    while boxes[i] != b
      invariant 0 <= i < |boxes| && b in boxes[i..]
      invariant B.RemoveBox(boxes, b) == boxes[..i] + B.RemoveBox(boxes[i..], b)
      decreases |boxes| - i
    {
      SearchOn(boxes, b, i);
      i := i + 1;
    }
    FoundHere(boxes, b, i);
    var n := |boxes| - 1;
    if i == n {
      r := boxes[..n];
    } else {
      r := boxes[i := boxes[n]][..n];
    }
  }

  lemma SomeDaemon(s: set<int>)
    ensures s != {} ==> exists d :: d in s
  {
    if !exists d :: d in s {
      assert s == {};
    }
  }

  /** The loop of G_handle_trans_memb over the daemons of a group, and what follows it. */
  method MarkPartitioned(g: Group, trans: set<int>, transId: MembId) returns (h: Group)
    requires transId.proc != -1
    requires forall d :: d in g.daemons ==> g.daemons[d].memb.proc != -1
    ensures h == B.Partition(g, trans, transId)
  {
    var changed, daemons, rest := false, g.daemons, g.daemons.Keys;
    while rest != {}
      invariant rest <= g.daemons.Keys == daemons.Keys
      invariant forall d :: d in rest ==> daemons[d] == g.daemons[d]
      invariant forall d :: d in g.daemons && d !in rest ==>
                  daemons[d] == if d in trans then g.daemons[d] else Entry(UNKNOWN, g.daemons[d].members)
      invariant changed <==> exists d :: d in g.daemons && d !in rest && d !in trans
      decreases |rest|
    {
      SomeDaemon(rest);
      var d :| d in rest;
      if d !in trans {
        daemons := daemons[d := Entry(UNKNOWN, daemons[d].members)];
        changed := true;
      }
      rest := rest - {d};
    }
    assert forall d :: d !in rest;
    if changed {
      daemons := UpdateMembIds(daemons, transId);
      h := Group(GroupId(transId, 1), true, g.numMembers, daemons);
      ghost var p := B.Partition(g, trans, transId).daemons;
      assert p.Keys == h.daemons.Keys;
      assert forall d :: d in g.daemons ==> h.daemons[d] == p[d];
    } else {
      assert forall d :: d in g.daemons ==> d in trans;
      h := g;
    }
  }

  /** G_update_daemon_memb_ids. */
  method UpdateMembIds(ds: map<int, Entry>, memb: MembId) returns (r: map<int, Entry>)
    ensures r == Stamped(ds, memb)
  {
    r := ds;
    var rest := ds.Keys;
    while rest != {}
      invariant rest <= ds.Keys == r.Keys
      invariant forall d :: d in rest ==> r[d] == ds[d]
      invariant forall d :: d in ds && d !in rest ==> r[d] == Stamped(ds, memb)[d]
      decreases |rest|
    {
      SomeDaemon(rest);
      var d :| d in rest;
      if r[d].memb.proc != -1 {
        r := r[d := Entry(memb, r[d].members)];
      }
      rest := rest - {d};
    }
    assert forall d :: d !in rest;
    assert r.Keys == Stamped(ds, memb).Keys;
    assert forall d :: d in ds ==> r[d] == Stamped(ds, memb)[d];
  }

  /** G_remove_daemon. */
  method RemoveDaemon(g: Group, d: int) returns (h: Group)
    requires d in g.daemons && g.numMembers == |Pairs(g.daemons)|
    ensures h == B.WithoutDaemons(g, {d}) && h.numMembers == |Pairs(h.daemons)|
  {
    hide Pairs, B.Only;
    DropOne(g.daemons, d);
    B.SplitPairs(g.daemons, {d});
    h := g.(numMembers := g.numMembers - |g.daemons[d].members|, daemons := g.daemons - {d});
  }

  lemma WithoutMore(g: Group, gone: set<int>, d: int)
    requires g.numMembers == |Pairs(g.daemons)|
    ensures B.WithoutDaemons(B.WithoutDaemons(g, gone), {d}) == B.WithoutDaemons(g, gone + {d})
  {
    hide Pairs, B.Only;
    B.SplitPairs(g.daemons, gone);
    B.SplitPairs(g.daemons - gone, {d});
    B.SplitPairs(g.daemons, gone + {d});
    assert (g.daemons - gone) - {d} == g.daemons - (gone + {d});
  }

  lemma WithoutNone(g: Group)
    ensures B.WithoutDaemons(g, {}) == g
  {
    assert B.Only(g.daemons, {}) == map[];
    assert Pairs(map[]) == {};
    assert g.daemons - {} == g.daemons;
  }

  /** G_eliminate_partitioned_daemons outside GGT. */
  method EliminatePartitioned(g: Group) returns (h: Group)
    requires g.numMembers == |Pairs(g.daemons)|
    ensures h == B.WithoutDaemons(g, B.Partitioned(g))
  {
    hide Pairs, B.Only;
    h := g;
    var rest := g.daemons.Keys;
    ghost var gone: set<int> := {};
    WithoutNone(g);
    while rest != {}
      invariant rest <= g.daemons.Keys && gone !! rest
      invariant forall d :: d in gone ==> d in B.Partitioned(g)
      invariant forall d :: d in B.Partitioned(g) ==> d in rest || d in gone
      invariant h == B.WithoutDaemons(g, gone) && h.numMembers == |Pairs(h.daemons)|
      decreases |rest|
    {
      SomeDaemon(rest);
      var d :| d in rest;
      if h.daemons[d].memb.proc == -1 {
        WithoutMore(g, gone, d);
        h := RemoveDaemon(h, d);
        gone := gone + {d};
      }
      rest := rest - {d};
    }
    assert forall d :: d !in rest;
    assert forall d :: d in gone <==> d in B.Partitioned(g);
    assert gone == B.Partitioned(g);
  }

  lemma DropOne(ds: map<int, Entry>, d: int)
    requires d in ds
    ensures |Pairs(ds - {d})| == |Pairs(ds)| - |ds[d].members|
  {
    B.SplitPairs(ds, {d});
    PairsOfOne(ds, d, ds[d].members);
  }

  lemma {:induction false} PairsOfOne(ds: map<int, Entry>, d: int, ms: set<Name>)
    requires d in ds && ms == ds[d].members
    ensures |Pairs(B.Only(ds, {d}))| == |ms|
  {
    assert Pairs(B.Only(ds, {d})) == Tagged(d, ms) by {
      forall x: (int, Name)
        ensures x in Pairs(B.Only(ds, {d})) <==> x in Tagged(d, ms)
      {
        B.PairIn(B.Only(ds, {d}), x.0, x.1);
        assert x == (x.0, x.1);
      }
    }
    TaggedSize(d, ms);
  }

  function Tagged(d: int, ms: set<Name>): set<(int, Name)> {
    set m | m in ms :: (d, m)
  }

  lemma {:induction false} TaggedSize(d: int, ms: set<Name>)
    ensures |Tagged(d, ms)| == |ms|
    decreases |ms|
  {
    if ms == {} {
      assert Tagged(d, ms) == {};
    } else {
      var m :| m in ms;
      TaggedSize(d, ms - {m});
      assert Tagged(d, ms) == Tagged(d, ms - {m}) + {(d, m)};
      assert (d, m) !in Tagged(d, ms - {m});
    }
  }

  lemma LocalMember(self: B.Self, g: Group, boxes: seq<int>, m: Name)
    requires B.BoxesOk(self, g, boxes) && m in B.MembersAt(g, self.my)
    ensures self.box(m) in boxes
  {
    var b := self.box(m);
    assert b in boxes <==> exists k :: k in B.MembersAt(g, self.my) && self.box(k) == b;
  }

  class Daemon {
    const self: B.Self
    var gstate: B.Gstate
    var groups: GroupsList
    var mboxes: map<Name, seq<int>>
    var trans: set<int>
    var transId: MembId
    var regId: MembId

    function View(): B.Book
      reads this
    {
      B.Book(gstate, groups, mboxes, trans, transId, regId)
    }

    constructor (self: B.Self, regId: MembId)
      ensures this.self == self && View() == B.Book(B.Gop, map[], map[], {}, regId, regId)
    {
      this.self, gstate, groups, mboxes := self, B.Gop, map[], map[];
      trans, transId, this.regId := {}, regId, regId;
    }

    method HandleJoin(d: int, m: Name, n: Name)
      modifies `groups, `mboxes
      ensures View() == B.HandleJoin(self, old(View()), d, m, n)
    {
      var g := if n in groups then groups[n] else Group(GroupId(if gstate.Gop? then regId else transId, 0), false, 0, map[]);
      var boxes := if n in mboxes then mboxes[n] else [];
      var memb := if gstate.Gtrans? && d !in trans then UNKNOWN else g.id.memb;
      var members := {};
      if d in g.daemons {
        memb, members := g.daemons[d].memb, g.daemons[d].members;
      }
      if m in members {
        return;
      }
      if d == self.my {
        boxes := boxes + [self.box(m)];
      }
      groups := groups[n := Group(GroupId(g.id.memb, g.id.index + 1), g.changed || memb.proc == -1, g.numMembers + 1,
                                  g.daemons[d := Entry(memb, members + {m})])];
      mboxes := mboxes[n := boxes];
    }

    method HandleLeave(d: int, m: Name, n: Name)
      requires B.Inv(self, View())
      modifies `groups, `mboxes
      ensures View() == B.TakeOut(self, old(View()), d, m, n)
    {
      hide B.RemoveBox, B.Inv;
      if n !in groups || d !in groups[n].daemons || m !in groups[n].daemons[d].members {
        return;
      }
      LocalBox(d, m, n);
      var g := groups[n];
      var left := g.daemons[d].members - {m};
      var daemons := if left == {} then g.daemons - {d} else g.daemons[d := Entry(g.daemons[d].memb, left)];
      var h := Group(GroupId(g.id.memb, g.id.index + 1), g.changed, g.numMembers - 1, daemons);
      assert h == B.RemoveMember(g, d, m);
      hide B.RemoveMember;
      if h.numMembers == 0 {
        groups := groups - {n};
        mboxes := mboxes - {n};
      } else {
        groups := groups[n := h];
        if d == self.my {
          var boxes := RemoveMailbox(mboxes[n], self.box(m));
          mboxes := mboxes[n := boxes];
        }
      }
    }

    /** A local member has its mailbox in the list, so that removing it cannot fail. */
    lemma LocalBox(d: int, m: Name, n: Name)
      requires B.Inv(self, View()) && n in groups && d in groups[n].daemons && m in groups[n].daemons[d].members
      ensures n in mboxes && (d == self.my ==> self.box(m) in mboxes[n])
    {
      assert B.GroupOk(self, View().gstate, View().trans, View().groups[n], View().mboxes[n]);
      assert B.BoxesOk(self, groups[n], mboxes[n]);
      if d == self.my {
        assert m in B.MembersAt(groups[n], self.my);
        hide B.BoxesOk, B.MembersAt;
        LocalMember(self, groups[n], mboxes[n], m);
      }
    }

    /** G_handle_trans_memb in GOP. */
    method HandleTransInOp(memb: set<int>, id: MembId)
      requires gstate.Gop? && id.proc != -1
      requires forall n, d :: n in groups && d in groups[n].daemons ==> groups[n].daemons[d].memb.proc != -1
      modifies this
      ensures View() == B.HandleTrans(old(View()), memb, id)
    {
      trans, transId := memb, id;
      var rest := groups.Keys;
      ghost var before := groups;
      while rest != {}
        invariant rest <= groups.Keys == before.Keys
        invariant forall n :: n in rest ==> groups[n] == before[n]
        invariant forall n :: n in before && n !in rest ==> groups[n] == B.Partition(before[n], memb, id)
        invariant gstate == old(gstate) && mboxes == old(mboxes) && regId == old(regId) && trans == memb && transId == id
        decreases |rest|
      {
        var n :| n in rest;
        var h := MarkPartitioned(groups[n], memb, id);
        groups := groups[n := h];
        rest := rest - {n};
      }
      gstate := B.Gtrans;
      assert groups == map n | n in before :: B.Partition(before[n], memb, id);
    }
  }
}
