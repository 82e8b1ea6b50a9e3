/** Who is in which group after each event: joins, leaves and disconnections, changes of the
    membership, and the records of a state exchange. */
module GroupsSteps {
  import opened Outcomes
  import opened Groups
  import opened GroupsBook

  predicate IsIn(g: Group, d: int, m: Name) {
    d in g.daemons && m in g.daemons[d].members
  }

  /** m, at daemon d, is a member of group n. */
  predicate InGroup(gs: GroupsList, n: Name, d: int, m: Name) {
    n in gs && IsIn(gs[n], d, m)
  }

  predicate InRecord(r: Record, n: Name, d: int, m: Name) {
    r.name == n && d in r.daemons && m in r.daemons[d].members
  }

  ghost predicate InRecords(rs: seq<Record>, n: Name, d: int, m: Name) {
    exists i :: 0 <= i < |rs| && InRecord(rs[i], n, d, m)
  }

  /** A group is on the list exactly as long as it has a member. */
  lemma ListedExactly(self: Self, s: Book, n: Name)
    requires Inv(self, s)
    ensures n in s.groups <==> exists d, m :: InGroup(s.groups, n, d, m)
  {
    if n in s.groups {
      assert GroupOk(self, s.gstate, s.trans, s.groups[n], s.mboxes[n]);
      var d := Inhabited(s.groups[n].daemons);
      var m :| m in s.groups[n].daemons[d].members;
      assert InGroup(s.groups, n, d, m);
    }
  }

  // ----- what each event does

  /** The group has one more change behind it, in the same membership, and whoever is still on it
      is there as before. */
  ghost predicate Bumped(g: Group, h: Group) {
    && h.id == GroupId(g.id.memb, g.id.index + 1) && h.changed == g.changed
    && forall d :: d in h.daemons ==> d in g.daemons && h.daemons[d].memb == g.daemons[d].memb
  }

  ghost predicate EntriesKept(g: Group, h: Group) {
    forall e :: e in g.daemons ==> e in h.daemons && h.daemons[e].memb == g.daemons[e].memb
  }

  ghost predicate SameGroup(s: Book, s': Book, n: Name) {
    && (n in s'.groups <==> n in s.groups) && (n in s'.mboxes <==> n in s.mboxes)
    && (n in s.groups ==> s'.groups[n] == s.groups[n]) && (n in s.mboxes ==> s'.mboxes[n] == s.mboxes[n])
  }

  ghost predicate OnLeave(s: Book, d: int, m: Name, n: Name, s': Book) {
    if !InGroup(s.groups, n, d, m) then s' == s
    else
      && s' == s.(groups := s'.groups, mboxes := s'.mboxes)
      && (forall k, e, x :: InGroup(s'.groups, k, e, x) <==> InGroup(s.groups, k, e, x) && (k, e, x) != (n, d, m))
      && (forall k :: k != n ==> SameGroup(s, s', k))
      && (n in s'.groups ==> Bumped(s.groups[n], s'.groups[n]))
  }

  ghost predicate OnKill(s: Book, d: int, m: Name, s': Book) {
    && s' == s.(groups := s'.groups, mboxes := s'.mboxes)
    && (forall k, e, x :: InGroup(s'.groups, k, e, x) <==> InGroup(s.groups, k, e, x) && (e, x) != (d, m))
    && (forall k :: InGroup(s.groups, k, d, m) && k in s'.groups ==> Bumped(s.groups[k], s'.groups[k]))
    && (forall k :: !InGroup(s.groups, k, d, m) ==> SameGroup(s, s', k))
  }

  /** The membership that a group new to the list belongs to. */
  function FirstMemb(s: Book): MembId {
    if s.gstate.Gop? then s.regId else s.transId
  }

  /** What a daemon's entry says when its first member joins: nothing is known of daemons that have
      been partitioned away. */
  function EntryMemb(s: Book, d: int, n: Name): MembId {
    if n in s.groups && d in s.groups[n].daemons then s.groups[n].daemons[d].memb
    else if s.gstate.Gtrans? && d !in s.trans then UNKNOWN
    else if n in s.groups then s.groups[n].id.memb
    else FirstMemb(s)
  }

  ghost predicate OnJoin(self: Self, s: Book, d: int, m: Name, n: Name, s': Book) {
    if InGroup(s.groups, n, d, m) then s' == s
    else
      && s' == s.(groups := s'.groups, mboxes := s'.mboxes)
      && (forall k, e, x :: InGroup(s'.groups, k, e, x) <==> InGroup(s.groups, k, e, x) || (k, e, x) == (n, d, m))
      && (forall k :: k != n ==> SameGroup(s, s', k))
      && n in s'.groups && n in s'.mboxes && d in s'.groups[n].daemons
      && s'.groups[n].id == (if n in s.groups then GroupId(s.groups[n].id.memb, s.groups[n].id.index + 1) else GroupId(FirstMemb(s), 1))
      && s'.groups[n].daemons[d].memb == EntryMemb(s, d, n)
      && (s'.groups[n].changed <==> (n in s.groups && s.groups[n].changed) || EntryMemb(s, d, n).proc == -1)
      && (n in s.groups ==> EntriesKept(s.groups[n], s'.groups[n]))
      && s'.mboxes[n] == (if n in s.mboxes then s.mboxes[n] else []) + (if d == self.my then [self.box(m)] else [])
  }

  lemma RemovedOne(g: Group, d: int, m: Name)
    requires IsIn(g, d, m)
    ensures Bumped(g, RemoveMember(g, d, m))
    ensures forall e, x :: IsIn(RemoveMember(g, d, m), e, x) <==> IsIn(g, e, x) && (e, x) != (d, m)
  {
  }

  lemma AddedOne(g: Group, d: int, m: Name, partitioned: bool)
    requires !IsIn(g, d, m)
    ensures
      var h := AddMember(g, d, m, partitioned);
      && (forall e, x :: IsIn(h, e, x) <==> IsIn(g, e, x) || (e, x) == (d, m))
      && EntriesKept(g, h) && d in h.daemons
  {
  }

  lemma LeaveDoes(self: Self, s: Book, d: int, m: Name, n: Name)
    requires Inv(self, s)
    ensures OnLeave(s, d, m, n, TakeOut(self, s, d, m, n))
  {
    assert n in s.groups <==> n in s.mboxes;
    if InGroup(s.groups, n, d, m) {
      RemovedOne(s.groups[n], d, m);
      CountTells(self, s, d, m, n);
      var s' := TakeOut(self, s, d, m, n);
      hide Inv, RemoveMember, IsIn, Bumped, RemoveBox;
      forall k, e, x
        ensures InGroup(s'.groups, k, e, x) <==> InGroup(s.groups, k, e, x) && (k, e, x) != (n, d, m)
      {
        if k == n && InGroup(s.groups, n, e, x) && (e, x) != (d, m) {
          assert n in s'.groups;
        }
      }
    }
  }

  /** The count is 0 exactly if nobody is left. */
  lemma CountTells(self: Self, s: Book, d: int, m: Name, n: Name)
    requires Inv(self, s) && InGroup(s.groups, n, d, m)
    ensures RemoveMember(s.groups[n], d, m).numMembers == 0
       <==> forall e, x :: InGroup(s.groups, n, e, x) ==> (e, x) == (d, m)
  {
    var g, h := s.groups[n], RemoveMember(s.groups[n], d, m);
    assert GroupOk(self, s.gstate, s.trans, g, s.mboxes[n]);
    RemoveSound(g, d, m);
    SoundEmpty(h);
    hide Pairs, BoxesOk, IdsOk, Inv;
    if h.daemons == map[] {
      forall e, x | InGroup(s.groups, n, e, x)
        ensures (e, x) == (d, m)
      {
        assert e !in h.daemons;
      }
    } else {
      var e := Inhabited(h.daemons);
      var x :| x in h.daemons[e].members;
      assert InGroup(s.groups, n, e, x) && (e, x) != (d, m);
    }
  }

  /** The group that a member joins, before it does. */
  function Before(s: Book, n: Name): Group {
    if n in s.groups then s.groups[n] else Group(GroupId(FirstMemb(s), 0), false, 0, map[])
  }

  lemma JoinedBook(self: Self, s: Book, d: int, m: Name, n: Name)
    requires !InGroup(s.groups, n, d, m)
    ensures
      var h := AddMember(Before(s, n), d, m, s.gstate.Gtrans? && d !in s.trans);
      HandleJoin(self, s, d, m, n) == s.(groups := s.groups[n := h],
        mboxes := s.mboxes[n := (if n in s.mboxes then s.mboxes[n] else []) + (if d == self.my then [self.box(m)] else [])])
  {
    var boxes := if n in s.mboxes then s.mboxes[n] else [];
    assert boxes + [] == boxes;
    assert m !in MembersAt(Before(s, n), d);
    hide AddMember;
  }

  lemma JoinedGroup(s: Book, d: int, m: Name, n: Name)
    requires !InGroup(s.groups, n, d, m)
    ensures
      var g, h := Before(s, n), AddMember(Before(s, n), d, m, s.gstate.Gtrans? && d !in s.trans);
      && (forall e, x :: IsIn(h, e, x) <==> InGroup(s.groups, n, e, x) || (e, x) == (d, m))
      && EntriesKept(g, h) && d in h.daemons && h.id == GroupId(g.id.memb, g.id.index + 1)
      && h.daemons[d].memb == EntryMemb(s, d, n) && (h.changed <==> g.changed || EntryMemb(s, d, n).proc == -1)
  {
    AddedOne(Before(s, n), d, m, s.gstate.Gtrans? && d !in s.trans);
  }

  lemma JoinDoes(self: Self, s: Book, d: int, m: Name, n: Name)
    requires s.gstate.Gop? || s.gstate.Gtrans?
    ensures OnJoin(self, s, d, m, n, HandleJoin(self, s, d, m, n))
  {
    if !InGroup(s.groups, n, d, m) {
      JoinedBook(self, s, d, m, n);
      JoinedGroup(s, d, m, n);
      hide AddMember, HandleJoin, IsIn, EntriesKept, EntryMemb, FirstMemb;
    }
  }

  lemma LeftOne(self: Self, s: Book, d: int, m: Name, k: Name)
    requires Inv(self, s)
    ensures
      var s' := HandleKill(self, s, d, m);
      && (forall e, x :: InGroup(s'.groups, k, e, x) <==> InGroup(s.groups, k, e, x) && (e, x) != (d, m))
      && (InGroup(s.groups, k, d, m) && k in s'.groups ==> Bumped(s.groups[k], s'.groups[k]))
      && (!InGroup(s.groups, k, d, m) ==> SameGroup(s, s', k))
  {
    var s' := HandleKill(self, s, d, m);
    assert k in s.groups <==> k in s.mboxes;
    if k in s.groups {
      NobodyIsCounted(self, s, k);
      if InGroup(s.groups, k, d, m) {
        RemovedOne(s.groups[k], d, m);
        CountTells(self, s, d, m, k);
      }
      assert Left(s.groups[k], d, m) == if InGroup(s.groups, k, d, m) then RemoveMember(s.groups[k], d, m) else s.groups[k];
      hide Inv, RemoveMember, IsIn, Bumped, RemoveBox;
      assert k in s'.groups ==> s'.groups[k] == Left(s.groups[k], d, m);
    }
  }

  lemma NobodyIsCounted(self: Self, s: Book, k: Name)
    requires Inv(self, s) && k in s.groups
    ensures s.groups[k].numMembers != 0
  {
    assert GroupOk(self, s.gstate, s.trans, s.groups[k], s.mboxes[k]);
    CountedNotZero(s.groups[k]);
  }

  lemma KillDoes(self: Self, s: Book, d: int, m: Name)
    requires Inv(self, s)
    ensures OnKill(s, d, m, HandleKill(self, s, d, m))
  {
    var s' := HandleKill(self, s, d, m);
    forall k, e, x
      ensures InGroup(s'.groups, k, e, x) <==> InGroup(s.groups, k, e, x) && (e, x) != (d, m)
    {
      LeftOne(self, s, d, m, k);
    }
    forall k | InGroup(s.groups, k, d, m) && k in s'.groups
      ensures Bumped(s.groups[k], s'.groups[k])
    {
      LeftOne(self, s, d, m, k);
    }
    forall k | !InGroup(s.groups, k, d, m)
      ensures SameGroup(s, s', k)
    {
      LeftOne(self, s, d, m, k);
    }
    hide Inv, IsIn, Bumped, SameGroup;
  }

  // ----- changes of the membership

  /** The same members, and the same mailboxes. */
  ghost predicate SamePeople(s: Book, s': Book) {
    && s'.groups.Keys == s.groups.Keys && s'.mboxes == s.mboxes
    && forall k, e, x :: InGroup(s'.groups, k, e, x) <==> InGroup(s.groups, k, e, x)
  }

  /** Some daemon of the group has been left behind. */
  ghost predicate HasOutsiders(g: Group, trans: set<int>) {
    exists e :: e in g.daemons && e !in trans
  }

  /** A group with daemons left behind has changed: it starts anew in the transitional membership, and
      nothing is known of those daemons. */
  ghost predicate Split(g: Group, trans: set<int>, transId: MembId, h: Group) {
    if !HasOutsiders(g, trans) then h == g
    else
      && h.id == GroupId(transId, 1) && h.changed
      && forall e :: e in h.daemons ==> h.daemons[e].memb == if e in trans then transId else UNKNOWN
  }

  /** During an exchange it is only noted that the group will change. */
  ghost predicate Noted(g: Group, trans: set<int>, h: Group) {
    h == g.(changed := g.changed || HasOutsiders(g, trans))
  }

  ghost predicate OnTrans(s: Book, trans: set<int>, transId: MembId, s': Book) {
    && SamePeople(s, s') && s'.trans == trans && s'.transId == transId && s'.regId == s.regId
    && s'.gstate == (if s.gstate.Gop? then Gtrans else Ggt)
    && forall k :: k in s.groups ==>
         if s.gstate.Gop? then Split(s.groups[k], trans, transId, s'.groups[k]) else Noted(s.groups[k], trans, s'.groups[k])
  }

  /** The members at daemons that came through stay, the others go. */
  ghost predicate OnlyThrough(gs: GroupsList, trans: set<int>, s': Book) {
    forall k, e, x :: InGroup(s'.groups, k, e, x) <==> InGroup(gs, k, e, x) && e in trans
  }

  /** A group that has changed starts anew in the regular membership, the others are as they were. */
  ghost predicate Reinstalled(g: Group, regId: MembId, h: Group) {
    if !g.changed then h == g
    else h.id == GroupId(regId, 1) && !h.changed && Established(h)
  }

  ghost predicate OnReg(s: Book, regId: MembId, subtractive: bool, gathered: seq<Record>, s': Book) {
    && s'.regId == regId && s'.trans == s.trans && s'.transId == s.transId
    && if s.gstate.Gtrans? then
         && s'.gstate == (if subtractive then Gop else Ggather)
         && OnlyThrough(s.groups, s.trans, s')
         && (forall k :: k in s'.groups ==>
               k in s.groups && k in s.mboxes && k in s'.mboxes && s'.mboxes[k] == s.mboxes[k]
               && if subtractive then Reinstalled(s.groups[k], regId, s'.groups[k])
                  else s'.groups[k].id == s.groups[k].id && s'.groups[k].changed == s.groups[k].changed)
       else
         && s'.gstate == Ggather
         && (forall k, e, x :: InGroup(s'.groups, k, e, x)
              <==> (InGroup(s.groups, k, e, x) || InRecords(gathered, k, e, x)) && e in s.trans)
         && (forall k, e, x :: k in s'.groups && (InGroup(s.groups, k, e, x) || InRecords(gathered, k, e, x)) && e !in s.trans ==>
               s'.groups[k].changed)
  }

  /** The exchange is over. If the next transition has begun meanwhile, it takes effect now. */
  ghost predicate OnExchanged(s: Book, gathered: seq<Record>, s': Book) {
    && s'.gstate == (if s.gstate.Ggather? then Gop else Gtrans)
    && s'.regId == s.regId && s'.trans == s.trans && s'.transId == s.transId
    && forall k, e, x :: InGroup(s'.groups, k, e, x) <==> InGroup(s.groups, k, e, x) || InRecords(gathered, k, e, x)
  }

  lemma SplitOne(g: Group, trans: set<int>, transId: MembId)
    ensures Split(g, trans, transId, Partition(g, trans, transId))
    ensures forall e, x :: IsIn(Partition(g, trans, transId), e, x) <==> IsIn(g, e, x)
  {
    if !HasOutsiders(g, trans) {
      forall e | e in g.daemons.Keys
        ensures e in trans
      {
        assert e in g.daemons;
      }
    } else {
      var e :| e in g.daemons && e !in trans;
      assert e in g.daemons.Keys;
    }
  }

  lemma NotedOne(g: Group, trans: set<int>)
    ensures Noted(g, trans, MarkCascade(g, trans))
    ensures forall e, x :: IsIn(MarkCascade(g, trans), e, x) <==> IsIn(g, e, x)
  {
    OutsideMeans(g, trans);
  }

  lemma OutsideMeans(g: Group, trans: set<int>)
    ensures Outside(g, trans) != {} <==> HasOutsiders(g, trans)
    ensures forall e :: e in Outside(g, trans) <==> e in g.daemons && e !in trans
  {
    if HasOutsiders(g, trans) {
      var e :| e in g.daemons && e !in trans;
      assert e in Outside(g, trans);
    } else {
      assert forall e :: e !in Outside(g, trans);
    }
  }

  lemma TransDoes(s: Book, trans: set<int>, transId: MembId)
    requires s.gstate.Gop? || s.gstate.Ggather?
    ensures OnTrans(s, trans, transId, HandleTrans(s, trans, transId))
  {
    var s' := HandleTrans(s, trans, transId);
    forall k | k in s.groups
      ensures if s.gstate.Gop? then Split(s.groups[k], trans, transId, s'.groups[k]) else Noted(s.groups[k], trans, s'.groups[k])
      ensures forall e, x :: IsIn(s'.groups[k], e, x) <==> IsIn(s.groups[k], e, x)
    {
      SplitOne(s.groups[k], trans, transId);
      NotedOne(s.groups[k], trans);
    }
    hide Partition, MarkCascade, Split, Noted, IsIn;
    assert s'.groups.Keys == s.groups.Keys;
  }

  /** Daemons removed from a group take their members along; it has a count if somebody is left. */
  lemma WithoutOne(g: Group, gone: set<int>)
    requires Counted(g)
    ensures forall e, x :: IsIn(WithoutDaemons(g, gone), e, x) <==> IsIn(g, e, x) && e !in gone
    ensures WithoutDaemons(g, gone).numMembers != 0 <==> exists e, x :: IsIn(WithoutDaemons(g, gone), e, x)
  {
    var h := WithoutDaemons(g, gone);
    WithoutSound(g, gone);
    SoundEmpty(h);
    hide Pairs;
    if h.daemons != map[] {
      var e := Inhabited(h.daemons);
      var x :| x in h.daemons[e].members;
      assert IsIn(h, e, x);
    } else {
      forall e, x
        ensures !IsIn(h, e, x)
      {
        assert e !in h.daemons;
      }
    }
  }

  /** Who has been partitioned away, in GTRANS: the daemons that did not come through. */
  lemma PartitionedMeans(trans: set<int>, g: Group)
    requires IdsOk(Gtrans, trans, g)
    ensures g.changed ==> forall e :: e in Partitioned(g) <==> e in g.daemons && e !in trans
    ensures !g.changed ==> forall e :: e in g.daemons ==> e in trans
  {
  }

  lemma CountedInhabited(g: Group)
    requires Counted(g)
    ensures g.numMembers != 0 && exists e, x :: IsIn(g, e, x)
  {
    CountedNotZero(g);
    var e := Inhabited(g.daemons);
    var x :| x in g.daemons[e].members;
    assert IsIn(g, e, x);
    hide Pairs;
  }

  lemma InstallOne(trans: set<int>, g: Group, regId: MembId)
    requires Counted(g) && IdsOk(Gtrans, trans, g) && regId.proc != -1
    ensures
      var h := Install(g, regId);
      && (forall e, x :: IsIn(h, e, x) <==> IsIn(g, e, x) && e in trans)
      && (h.numMembers != 0 <==> exists e, x :: IsIn(h, e, x)) && Reinstalled(g, regId, h)
  {
    PartitionedMeans(trans, g);
    CountedInhabited(g);
    var gone := Partitioned(g);
    if g.changed {
      WithoutOne(g, gone);
      StampedOne(WithoutDaemons(g, gone), regId);
      assert forall d :: d in WithoutDaemons(g, gone).daemons ==> d !in gone && d in g.daemons;
    }
    hide Pairs, IsIn, Stamped, WithoutDaemons;
  }

  lemma StampedOne(g: Group, memb: MembId)
    requires forall d :: d in g.daemons ==> g.daemons[d].memb.proc != -1
    ensures
      var h := Group(GroupId(memb, 1), false, g.numMembers, Stamped(g.daemons, memb));
      && Established(h) && forall e, x :: IsIn(h, e, x) <==> IsIn(g, e, x)
  {
  }

  lemma EliminateOne(trans: set<int>, g: Group)
    requires Counted(g) && IdsOk(Gtrans, trans, g)
    ensures
      var h := Eliminate(g);
      && (forall e, x :: IsIn(h, e, x) <==> IsIn(g, e, x) && e in trans)
      && (h.numMembers != 0 <==> exists e, x :: IsIn(h, e, x)) && h.id == g.id && h.changed == g.changed
  {
    PartitionedMeans(trans, g);
    CountedInhabited(g);
    if g.changed {
      WithoutOne(g, Partitioned(g));
    }
    assert forall e, x :: IsIn(g, e, x) ==> e in g.daemons;
    hide Pairs, Partitioned;
  }

  lemma CascadeOne(trans: set<int>, g: Group)
    requires Counted(g)
    ensures
      var h := Cascade(g, trans);
      && (forall e, x :: IsIn(h, e, x) <==> IsIn(g, e, x) && e in trans)
      && (h.numMembers != 0 <==> exists e, x :: IsIn(h, e, x)) && (HasOutsiders(g, trans) ==> h.changed)
  {
    OutsideMeans(g, trans);
    CountedInhabited(g);
    WithoutOne(g, Outside(g, trans));
    assert forall e, x :: IsIn(g, e, x) ==> e in g.daemons;
    hide Pairs, Outside;
  }

  /** One group when the regular membership comes after a transition. */
  lemma RegOne(self: Self, s: Book, regId: MembId, subtractive: bool, k: Name)
    requires Inv(self, s) && s.gstate.Gtrans? && regId.proc != -1 && k in s.groups
    ensures
      var h := if subtractive then Install(s.groups[k], regId) else Eliminate(s.groups[k]);
      && (forall e, x :: IsIn(h, e, x) <==> IsIn(s.groups[k], e, x) && e in s.trans)
      && (h.numMembers != 0 <==> exists e, x :: IsIn(h, e, x))
      && (if subtractive then Reinstalled(s.groups[k], regId, h) else h.id == s.groups[k].id && h.changed == s.groups[k].changed)
  {
    assert GroupOk(self, s.gstate, s.trans, s.groups[k], s.mboxes[k]);
    hide Inv, Install, Eliminate, IsIn, Reinstalled, BoxesOk;
    InstallOne(s.trans, s.groups[k], regId);
    EliminateOne(s.trans, s.groups[k]);
  }

  lemma RegBook(s: Book, regId: MembId, subtractive: bool, gathered: seq<Record>, k: Name)
    requires s.gstate.Gtrans?
    ensures
      var s' := HandleReg(s, regId, subtractive, gathered);
      && (k in s'.groups ==> k in s.groups)
      && (k in s.groups ==>
            var h := if subtractive then Install(s.groups[k], regId) else Eliminate(s.groups[k]);
            && (k in s'.groups <==> h.numMembers != 0) && (k in s'.groups ==> s'.groups[k] == h)
            && (k in s'.groups && k in s.mboxes ==> k in s'.mboxes && s'.mboxes[k] == s.mboxes[k]))
  {
    hide Install, Eliminate;
  }

  lemma RegInTrans(self: Self, s: Book, regId: MembId, subtractive: bool, gathered: seq<Record>)
    requires Inv(self, s) && s.gstate.Gtrans? && regId.proc != -1
    ensures OnReg(s, regId, subtractive, gathered, HandleReg(s, regId, subtractive, gathered))
  {
    var s' := HandleReg(s, regId, subtractive, gathered);
    assert s.groups.Keys == s.mboxes.Keys;
    forall k, e, x
      ensures InGroup(s'.groups, k, e, x) <==> InGroup(s.groups, k, e, x) && e in s.trans
    {
      hide Install, Eliminate, IsIn, Reinstalled, HandleReg;
      RegBook(s, regId, subtractive, gathered, k);
      if k in s.groups {
        RegOne(self, s, regId, subtractive, k);
        var h := if subtractive then Install(s.groups[k], regId) else Eliminate(s.groups[k]);
        assert IsIn(h, e, x) <==> IsIn(s.groups[k], e, x) && e in s.trans;
      }
    }
    forall k | k in s'.groups
      ensures k in s.groups && k in s.mboxes && k in s'.mboxes && s'.mboxes[k] == s.mboxes[k]
      ensures if subtractive then Reinstalled(s.groups[k], regId, s'.groups[k])
              else s'.groups[k].id == s.groups[k].id && s'.groups[k].changed == s.groups[k].changed
    {
      hide Install, Eliminate, IsIn, Reinstalled, HandleReg;
      RegBook(s, regId, subtractive, gathered, k);
      RegOne(self, s, regId, subtractive, k);
    }
    hide Inv, Install, Eliminate, IsIn, Reinstalled, Dropped;
  }

  /** A membership id goes to every daemon that has not been partitioned away, and to no other;
      members are not touched. */
  lemma StampedExactly(ds: map<int, Entry>, memb: MembId)
    ensures Stamped(ds, memb).Keys == ds.Keys
    ensures forall d :: d in ds ==>
              && Stamped(ds, memb)[d].members == ds[d].members
              && Stamped(ds, memb)[d].memb == if ds[d].memb.proc == -1 then ds[d].memb else memb
  {
  }

  /** The last mailbox takes the place of the one that goes; the others stay where they are. */
  lemma {:induction false} BoxesMove(boxes: seq<int>, b: int) returns (i: nat)
    requires b in boxes
    ensures i < |boxes| && boxes[i] == b && forall k :: 0 <= k < i ==> boxes[k] != b
    ensures RemoveBox(boxes, b) == boxes[i := boxes[|boxes| - 1]][..|boxes| - 1]
  {
    var n := |boxes| - 1;
    if boxes[0] == b {
      i := 0;
      if n > 0 {
        assert boxes[0 := boxes[n]][..n] == [boxes[n]] + boxes[1..n];
      }
    } else {
      var rest := boxes[1..];
      var j := BoxesMove(rest, b);
      i := j + 1;
      assert rest[|rest| - 1] == boxes[n];
      assert boxes[i := boxes[n]][..n] == [boxes[0]] + rest[j := boxes[n]][..|rest| - 1];
    }
  }

  // ----- the records of an exchange

  lemma AbsorbedOne(g: Group, r: Record, e: int, x: Name)
    requires g.daemons.Keys !! r.daemons.Keys
    ensures IsIn(AbsorbInto(g, r), e, x) <==> IsIn(g, e, x) || InRecord(r, r.name, e, x)
  {
  }

  lemma InRecordsMore(rs: seq<Record>, r: Record, k: Name, e: int, x: Name)
    ensures InRecords(rs + [r], k, e, x) <==> InRecords(rs, k, e, x) || InRecord(r, k, e, x)
  {
    hide InRecord;
    var all := rs + [r];
    if InRecords(rs, k, e, x) {
      var i :| 0 <= i < |rs| && InRecord(rs[i], k, e, x);
      assert all[i] == rs[i];
    }
    if InRecord(r, k, e, x) {
      assert all[|rs|] == r;
    }
    if InRecords(all, k, e, x) {
      var i :| 0 <= i < |all| && InRecord(all[i], k, e, x);
      assert i < |rs| ==> all[i] == rs[i];
    }
  }

  /** Reading records adds exactly the members they name. */
  lemma {:induction false} AbsorbedMembers(self: Self, s: Book, rs: seq<Record>, k: Name, e: int, x: Name)
    requires Inv(self, s) && Exchanging(s) && Legible(self, s, rs)
    ensures InGroup(AbsorbAll(s.groups, rs), k, e, x) <==> InGroup(s.groups, k, e, x) || InRecords(rs, k, e, x)
    decreases |rs|
  {
    hide Inv, Legible, InRecord, IsIn;
    if rs == [] {
      AbsorbAllNone(s.groups);
    } else {
      var r, before := rs[|rs| - 1], rs[..|rs| - 1];
      assert rs == before + [r];
      LegiblePrefix(self, s, before, r);
      AbsorbedMembers(self, s, before, k, e, x);
      AbsorbAllLast(s.groups, before, r);
      InRecordsMore(before, r, k, e, x);
      GatherAll(self, s, before);
      AbsorbStep(self, s, before, r, AbsorbAll(s.groups, before), k, e, x);
    }
  }

  lemma AbsorbStep(self: Self, s: Book, before: seq<Record>, r: Record, gs: GroupsList, k: Name, e: int, x: Name)
    requires Legible(self, s, before + [r]) && Gathering(self, s, before, gs)
    ensures InGroup(Absorb(gs, r), k, e, x) <==> InGroup(gs, k, e, x) || InRecord(r, k, e, x)
  {
    if k == r.name {
      if r.name in gs {
        RecordApart(self, s, before, r, gs[r.name]);
      }
      var g := if r.name in gs then gs[r.name] else Group(r.id, false, 0, map[]);
      AbsorbedOne(g, r, e, x);
    }
    hide Legible, Gathering, AbsorbInto;
  }

  lemma CascadeBook(s: Book, regId: MembId, subtractive: bool, gathered: seq<Record>, k: Name)
    requires s.gstate.Ggt?
    ensures
      var s', gs := HandleReg(s, regId, subtractive, gathered), AbsorbAll(s.groups, gathered);
      && (k in s'.groups ==> k in gs)
      && (k in gs ==>
            && (k in s'.groups <==> Cascade(gs[k], s.trans).numMembers != 0)
            && (k in s'.groups ==> s'.groups[k] == Cascade(gs[k], s.trans)))
  {
    hide Cascade, AbsorbAll;
  }

  lemma CascadedMember(self: Self, s: Book, regId: MembId, subtractive: bool, gathered: seq<Record>, k: Name, e: int, x: Name)
    requires Inv(self, s) && s.gstate.Ggt? && Gatherable(self, s, gathered)
    ensures InGroup(HandleReg(s, regId, subtractive, gathered).groups, k, e, x)
       <==> (InGroup(s.groups, k, e, x) || InRecords(gathered, k, e, x)) && e in s.trans
    ensures
      var s' := HandleReg(s, regId, subtractive, gathered);
      k in s'.groups && (InGroup(s.groups, k, e, x) || InRecords(gathered, k, e, x)) && e !in s.trans ==> s'.groups[k].changed
  {
    var gs := AbsorbAll(s.groups, gathered);
    GatherableIsLegible(self, s, gathered);
    GatherAll(self, s, gathered);
    assert k in gs ==> GatheredGroup(self, s, gathered, k, gs[k]);
    hide Inv, Gatherable, Gathering, GatheredGroup, AbsorbAll, IsIn, InRecords, Cascade, Legible, HandleReg;
    AbsorbedMembers(self, s, gathered, k, e, x);
    CascadeBook(s, regId, subtractive, gathered, k);
    if k in gs {
      AllPeopled(self, s, gathered, k, gs[k]);
      CascadeOne(s.trans, gs[k]);
      assert IsIn(Cascade(gs[k], s.trans), e, x) <==> IsIn(gs[k], e, x) && e in s.trans;
      if IsIn(gs[k], e, x) && e !in s.trans {
        IsInDaemon(gs[k], e, x);
        assert HasOutsiders(gs[k], s.trans);
      }
    }
  }

  lemma IsInDaemon(g: Group, e: int, x: Name)
    requires IsIn(g, e, x)
    ensures e in g.daemons
  {
  }

  lemma RegInCascade(self: Self, s: Book, regId: MembId, subtractive: bool, gathered: seq<Record>)
    requires Inv(self, s) && s.gstate.Ggt? && Gatherable(self, s, gathered)
    ensures OnReg(s, regId, subtractive, gathered, HandleReg(s, regId, subtractive, gathered))
  {
    var s' := HandleReg(s, regId, subtractive, gathered);
    assert s'.regId == regId && s'.trans == s.trans && s'.transId == s.transId && s'.gstate == Ggather;
    hide Inv, Gatherable, HandleReg, InGroup, InRecords;
    forall k, e, x
      ensures InGroup(s'.groups, k, e, x)
         <==> (InGroup(s.groups, k, e, x) || InRecords(gathered, k, e, x)) && e in s.trans
      ensures k in s'.groups && (InGroup(s.groups, k, e, x) || InRecords(gathered, k, e, x)) && e !in s.trans ==>
                s'.groups[k].changed
    {
      CascadedMember(self, s, regId, subtractive, gathered, k, e, x);
    }
  }

  lemma SettledOne(g: Group, reg: MembId)
    ensures forall e, x :: IsIn(Settle(g, reg), e, x) <==> IsIn(g, e, x)
  {
  }

  lemma ExchangeDoes(self: Self, s: Book, gathered: seq<Record>)
    requires Inv(self, s) && Exchanging(s) && Gatherable(self, s, gathered)
    ensures OnExchanged(s, gathered, HandleGroups(s, gathered))
  {
    GatherableIsLegible(self, s, gathered);
    var gs := SettleAll(AbsorbAll(s.groups, gathered), s.regId);
    var done := s.(gstate := Gop, groups := gs, mboxes := Fresh(s.mboxes, gs));
    hide Inv, Gatherable, AbsorbAll, InRecords, Legible, HandleTrans;
    forall k, e, x
      ensures InGroup(gs, k, e, x) <==> InGroup(s.groups, k, e, x) || InRecords(gathered, k, e, x)
    {
      AbsorbedMembers(self, s, gathered, k, e, x);
      if k in gs {
        SettledOne(AbsorbAll(s.groups, gathered)[k], s.regId);
      }
      hide Settle, IsIn;
    }
    TransDoes(done, s.trans, s.transId);
    hide SettleAll, IsIn;
  }

  // ----- all of it

  /** The fatal events: joins, leaves and disconnections during an exchange, a second transition
      before the regular membership, a regular membership without a transition, and GROUPS messages
      outside an exchange. */
  lemma FatalExactly(self: Self, s: Book, e: Event)
    ensures Step(self, s, e).Exit? <==>
              match e
              case TransMemb(_, _) => s.gstate in {Gtrans, Ggt}
              case RegMemb(_, _, _) => s.gstate in {Gop, Ggather}
              case Exchanged(_) => s.gstate in {Gop, Gtrans}
              case _ => s.gstate in {Ggather, Ggt}
  {
  }

  ghost predicate Does(self: Self, s: Book, e: Event, s': Book) {
    match e
    case Join(d, m, n) => OnJoin(self, s, d, m, n, s')
    case Leave(d, m, n) => OnLeave(s, d, m, n, s')
    case Kill(d, m) => OnKill(s, d, m, s')
    case TransMemb(trans, transId) => OnTrans(s, trans, transId, s')
    case RegMemb(regId, subtractive, gathered) => OnReg(s, regId, subtractive, gathered, s')
    case Exchanged(gathered) => OnExchanged(s, gathered, s')
  }

  /** With the books in order, every event that is not fatal does what Does says. */
  lemma StepDoes(self: Self, s: Book, e: Event)
    requires SelfOk(self) && Inv(self, s) && Possible(self, s, e) && Step(self, s, e).Go?
    ensures Does(self, s, e, Step(self, s, e).value)
  {
    hide Inv, HandleJoin, TakeOut, HandleKill, HandleTrans, HandleReg, HandleGroups, Gatherable, SelfOk,
      OnJoin, OnLeave, OnKill, OnTrans, OnReg, OnExchanged;
    match e
    case Join(d, m, n) => JoinDoes(self, s, d, m, n);
    case Leave(d, m, n) => LeaveDoes(self, s, d, m, n);
    case Kill(d, m) => KillDoes(self, s, d, m);
    case TransMemb(trans, transId) => TransDoes(s, trans, transId);
    case RegMemb(regId, subtractive, rs) =>
      if s.gstate.Gtrans? {
        RegInTrans(self, s, regId, subtractive, rs);
      } else {
        RegInCascade(self, s, regId, subtractive, rs);
      }
    case Exchanged(rs) => ExchangeDoes(self, s, rs);
  }

  /** The same over runs, where a group is on the list exactly as long as it has a member. */
  lemma RunsDo(self: Self, trace: seq<Book>, i: nat, e: Event, n: Name)
    requires Run(self, trace) && i < |trace| && Possible(self, trace[i], e) && Step(self, trace[i], e).Go?
    ensures
      var s, s' := trace[i], Step(self, trace[i], e).value;
      && Does(self, s, e, s')
      && (n in s'.groups <==> exists d, m :: InGroup(s'.groups, n, d, m))
  {
    RunKeepsInv(self, trace, i);
    hide Step, Inv, Does, Possible;
    StepDoes(self, trace[i], e);
    StepKeeps(self, trace[i], e);
    ListedExactly(self, Step(self, trace[i], e).value, n);
  }
}
