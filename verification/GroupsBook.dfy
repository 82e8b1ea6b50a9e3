/** The groups module of one daemon over its whole life: joins, leaves, disconnections, membership
    changes and state exchanges, and the books it keeps while they happen. */
module GroupsBook {
  import opened Outcomes
  import opened Groups

  datatype Gstate = Gop | Gtrans | Ggather | Ggt

  /** GroupsList, the local mailboxes of every group, and the memberships last heard of. */
  datatype Book = Book(
    gstate: Gstate,
    groups: GroupsList,
    mboxes: map<Name, seq<int>>,
    trans: set<int>,            // Trans_memb
    transId: MembId,
    regId: MembId)

  /** Who this daemon is, and the mailbox of each local member's session. */
  datatype Self = Self(my: int, box: Name -> int)

  datatype Event =
    | Join(proc: int, member: Name, group: Name)
    | Leave(proc: int, member: Name, group: Name)
    | Kill(proc: int, member: Name)
    | TransMemb(trans: set<int>, transId: MembId)
    | RegMemb(regId: MembId, subtractive: bool, gathered: seq<Record>)
    | Exchanged(gathered: seq<Record>)

  // ----- one group

  function MembersAt(g: Group, d: int): set<Name> {
    if d in g.daemons then g.daemons[d].members else {}
  }

  /** G_handle_join for a member that is new. */
  function AddMember(g: Group, d: int, m: Name, partitioned: bool): Group {
    var memb := if d in g.daemons then g.daemons[d].memb else if partitioned then UNKNOWN else g.id.memb;
    Group(GroupId(g.id.memb, g.id.index + 1), g.changed || memb.proc == -1, g.numMembers + 1,
          g.daemons[d := Entry(memb, MembersAt(g, d) + {m})])
  }

  /** A member leaves or is killed; the group may end up without members. */
  function RemoveMember(g: Group, d: int, m: Name): Group
    requires d in g.daemons
  {
    var left := g.daemons[d].members - {m};
    Group(GroupId(g.id.memb, g.id.index + 1), g.changed, g.numMembers - 1,
          if left == {} then g.daemons - {d} else g.daemons[d := Entry(g.daemons[d].memb, left)])
  }

  /** G_handle_trans_memb in GOP: daemons left behind are marked as partitioned. */
  function Partition(g: Group, trans: set<int>, transId: MembId): Group {
    if g.daemons.Keys <= trans then g
    else Group(GroupId(transId, 1), true, g.numMembers,
               map d | d in g.daemons :: Entry(if d in trans then transId else UNKNOWN, g.daemons[d].members))
  }

  /** Daemons are removed from the group, and their members from the count. */
  function WithoutDaemons(g: Group, gone: set<int>): Group {
    g.(numMembers := g.numMembers - |Pairs(Only(g.daemons, gone))|, daemons := g.daemons - gone)
  }

  function Only(daemons: map<int, Entry>, ds: set<int>): map<int, Entry> {
    map d | d in daemons && d in ds :: daemons[d]
  }

  function Partitioned(g: Group): set<int> {
    set d | d in g.daemons && g.daemons[d].memb.proc == -1
  }

  function Outside(g: Group, trans: set<int>): set<int> {
    set d | d in g.daemons && d !in trans
  }

  /** G_handle_reg_memb, first case: the membership only lost daemons. */
  function Install(g: Group, regId: MembId): Group {
    if !g.changed then g
    else
      var h := WithoutDaemons(g, Partitioned(g));
      Group(GroupId(regId, 1), false, h.numMembers, Stamped(h.daemons, regId))
  }

  function Eliminate(g: Group): Group {
    if !g.changed then g else WithoutDaemons(g, Partitioned(g))
  }

  /** G_handle_trans_memb in GGATHER. */
  function MarkCascade(g: Group, trans: set<int>): Group {
    g.(changed := g.changed || Outside(g, trans) != {})
  }

  /** G_handle_reg_memb in GGT: the transitional membership takes effect. */
  function Cascade(g: Group, trans: set<int>): Group {
    if Outside(g, trans) == {} then g else WithoutDaemons(g, Outside(g, trans)).(changed := true)
  }

  // ----- the list

  /** Every group changed by f; groups left without members are dropped. */
  function Update(gs: GroupsList, f: Group -> Group): GroupsList {
    map n | n in gs && f(gs[n]).numMembers != 0 :: f(gs[n])
  }

  function Keep(mboxes: map<Name, seq<int>>, gs: GroupsList): map<Name, seq<int>> {
    map n | n in mboxes && n in gs :: mboxes[n]
  }

  /** G_remove_mailbox: the last one takes its place. */
  function RemoveBox(boxes: seq<int>, b: int): seq<int> {
    if boxes == [] then []
    else if boxes[0] == b then
      (if |boxes| == 1 then [] else [boxes[|boxes| - 1]] + boxes[1..|boxes| - 1])
    else [boxes[0]] + RemoveBox(boxes[1..], b)
  }

  function HandleJoin(self: Self, s: Book, d: int, m: Name, n: Name): Book {
    var g := if n in s.groups then s.groups[n]
             else Group(GroupId(if s.gstate.Gop? then s.regId else s.transId, 0), false, 0, map[]);
    var boxes := if n in s.mboxes then s.mboxes[n] else [];
    if m in MembersAt(g, d) then s
    else s.(groups := s.groups[n := AddMember(g, d, m, s.gstate.Gtrans? && d !in s.trans)],
            mboxes := s.mboxes[n := if d == self.my then boxes + [self.box(m)] else boxes])
  }

  /** The common part of G_handle_leave and G_handle_kill, for one group. */
  function TakeOut(self: Self, s: Book, d: int, m: Name, n: Name): Book {
    if n !in s.groups || n !in s.mboxes || m !in MembersAt(s.groups[n], d) then s
    else
      var g := RemoveMember(s.groups[n], d, m);
      if g.numMembers == 0 then s.(groups := s.groups - {n}, mboxes := s.mboxes - {n})
      else s.(groups := s.groups[n := g],
              mboxes := if d == self.my then s.mboxes[n := RemoveBox(s.mboxes[n], self.box(m))] else s.mboxes)
  }

  /** G_handle_kill: the member leaves every group it is in. */
  function HandleKill(self: Self, s: Book, d: int, m: Name): Book {
    var gs := map n | n in s.groups && Left(s.groups[n], d, m).numMembers != 0 :: Left(s.groups[n], d, m);
    s.(groups := gs,
       mboxes := map n | n in gs && n in s.mboxes ::
                   if d == self.my && m in MembersAt(s.groups[n], d) then RemoveBox(s.mboxes[n], self.box(m)) else s.mboxes[n])
  }

  function Left(g: Group, d: int, m: Name): Group {
    if m in MembersAt(g, d) then RemoveMember(g, d, m) else g
  }

  function HandleTrans(s: Book, trans: set<int>, transId: MembId): Book {
    match s.gstate
    case Gop =>
      s.(gstate := Gtrans, trans := trans, transId := transId, groups := map n | n in s.groups :: Partition(s.groups[n], trans, transId))
    case Ggather =>
      s.(gstate := Ggt, trans := trans, transId := transId, groups := map n | n in s.groups :: MarkCascade(s.groups[n], trans))
    case _ => s
  }

  function Dropped(s: Book, f: Group -> Group): Book {
    s.(groups := Update(s.groups, f), mboxes := Keep(s.mboxes, Update(s.groups, f)))
  }

  /** The mailbox list that a group new to this daemon starts with. */
  function Fresh(mboxes: map<Name, seq<int>>, gs: GroupsList): map<Name, seq<int>> {
    map n | n in gs :: if n in mboxes then mboxes[n] else []
  }

  function HandleReg(s: Book, regId: MembId, subtractive: bool, gathered: seq<Record>): Book {
    match s.gstate
    case Gtrans =>
      if subtractive then Dropped(s, g => Install(g, regId)).(gstate := Gop, regId := regId)
      else Dropped(s, Eliminate).(gstate := Ggather, regId := regId)
    case Ggt =>
      var gs := AbsorbAll(s.groups, gathered);
      Dropped(s.(groups := gs, mboxes := Fresh(s.mboxes, gs)), g => Cascade(g, s.trans)).(gstate := Ggather, regId := regId)
    case _ => s
  }

  /** The last GROUPS message has come. */
  function HandleGroups(s: Book, gathered: seq<Record>): Book {
    var gs := SettleAll(AbsorbAll(s.groups, gathered), s.regId);
    var done := s.(gstate := Gop, groups := gs, mboxes := Fresh(s.mboxes, gs));
    match s.gstate
    case Ggather => done
    case Ggt => HandleTrans(done, s.trans, s.transId)
    case _ => s
  }

  /** Between a transitional membership and the regular one that follows it. */
  predicate InTrans(s: Book) {
    s.gstate.Gtrans? || s.gstate.Ggt?
  }

  /** The state exchange is under way; no joins, leaves or disconnections are delivered. */
  predicate Exchanging(s: Book) {
    s.gstate.Ggather? || s.gstate.Ggt?
  }

  function Step(self: Self, s: Book, e: Event): Outcome<Book> {
    match e
    case Join(d, m, n) => if Exchanging(s) then Exit("G_handle_join in GGATHER or GGT") else Go(HandleJoin(self, s, d, m, n))
    case Leave(d, m, n) => if Exchanging(s) then Exit("G_handle_leave in GGATHER or GGT") else Go(TakeOut(self, s, d, m, n))
    case Kill(d, m) => if Exchanging(s) then Exit("G_handle_kill in GGATHER or GGT") else Go(HandleKill(self, s, d, m))
    case TransMemb(trans, transId) =>
      if InTrans(s) then Exit("G_handle_trans_memb in GTRANS or GGT") else Go(HandleTrans(s, trans, transId))
    case RegMemb(regId, subtractive, gathered) =>
      if !InTrans(s) then Exit("G_handle_reg_memb in GOP or GGATHER") else Go(HandleReg(s, regId, subtractive, gathered))
    case Exchanged(gathered) =>
      if !Exchanging(s) then Exit("G_handle_groups in GOP or GTRANS") else Go(HandleGroups(s, gathered))
  }

  /** How the two conditions go on: transitional and regular memberships have to alternate, GROUPS
      messages may come only during an exchange and client events only outside one. */
  lemma ConditionsFollow(self: Self, s: Book, e: Event)
    requires Step(self, s, e).Go?
    ensures
      var t := Step(self, s, e).value;
      && InTrans(t) == (if e.TransMemb? then true else if e.RegMemb? then false else InTrans(s))
      && Exchanging(t) == (if e.RegMemb? then Exchanging(s) || !e.subtractive else if e.Exchanged? then false else Exchanging(s))
  {
  }

  // ----- the invariant

  ghost predicate SelfOk(self: Self) {
    forall a, b :: self.box(a) == self.box(b) ==> a == b
  }

  ghost predicate Unique(s: seq<int>) {
    forall i, j :: 0 <= i < j < |s| ==> s[i] != s[j]
  }

  /** The mailboxes are those of the local members, each once. */
  ghost predicate BoxesOk(self: Self, g: Group, boxes: seq<int>) {
    Unique(boxes) && forall b :: b in boxes <==> exists m :: m in MembersAt(g, self.my) && self.box(m) == b
  }

  /** Which membership ids a group may show in each state. */
  ghost predicate IdsOk(gstate: Gstate, trans: set<int>, g: Group) {
    && g.id.memb.proc != -1
    && match gstate
       case Gop => !g.changed && Established(g)
       case Gtrans =>
         && (forall d :: d in g.daemons ==> g.daemons[d].memb == if d in trans || !g.changed then g.id.memb else UNKNOWN)
         && (!g.changed ==> g.daemons.Keys <= trans)
       case _ => forall d :: d in g.daemons ==> g.daemons[d].memb.proc != -1 && (g.changed || g.daemons[d].memb == g.id.memb)
  }

  ghost predicate GroupOk(self: Self, gstate: Gstate, trans: set<int>, g: Group, boxes: seq<int>) {
    Counted(g) && IdsOk(gstate, trans, g) && BoxesOk(self, g, boxes)
  }

  ghost predicate Inv(self: Self, s: Book) {
    && s.groups.Keys == s.mboxes.Keys
    && s.regId.proc != -1 && s.transId.proc != -1
    && (s.gstate.Gtrans? || s.gstate.Ggt? ==> self.my in s.trans)
    && forall n :: n in s.groups ==> GroupOk(self, s.gstate, s.trans, s.groups[n], s.mboxes[n])
  }

  /** What can happen next: this daemon is in its own memberships, membership ids are known, and
      gathered records speak of other daemons, each of them once, and never of daemons without
      members. A record need not name a daemon: a message may end with the header of a group. */
  ghost predicate Possible(self: Self, s: Book, e: Event) {
    match e
    case TransMemb(trans, transId) => self.my in trans && transId.proc != -1
    case RegMemb(regId, _, gathered) => regId.proc != -1 && (s.gstate.Ggt? ==> Gatherable(self, s, gathered))
    case Exchanged(gathered) => Gatherable(self, s, gathered)
    case _ => true
  }

  ghost predicate Gatherable(self: Self, s: Book, rs: seq<Record>) {
    Legible(self, s, rs) && forall i :: 0 <= i < |rs| ==> rs[i].name in s.groups || Peopled(rs, rs[i].name)
  }

  /** Some record brings a daemon of the group. */
  ghost predicate Peopled(rs: seq<Record>, n: Name) {
    exists i :: 0 <= i < |rs| && rs[i].name == n && rs[i].daemons != map[]
  }

  /** What also holds of records of which only some have been read. */
  ghost predicate Legible(self: Self, s: Book, rs: seq<Record>) {
    && (forall i :: 0 <= i < |rs| ==> RecordOk(self, s, rs[i]))
    && (forall i, l :: 0 <= i < l < |rs| && rs[i].name == rs[l].name ==> rs[i].daemons.Keys !! rs[l].daemons.Keys)
  }

  ghost predicate RecordOk(self: Self, s: Book, r: Record) {
    && r.id.memb.proc != -1 && self.my !in r.daemons
    && (forall d :: d in r.daemons ==> r.daemons[d].members != {} && r.daemons[d].memb == r.id.memb)
    && (r.name in s.groups ==> s.groups[r.name].daemons.Keys !! r.daemons.Keys)
  }

  // ----- counting

  ghost predicate Sound(g: Group) {
    g.numMembers == |Pairs(g.daemons)| && forall d :: d in g.daemons ==> g.daemons[d].members != {}
  }

  lemma SoundEmpty(g: Group)
    requires Sound(g)
    ensures g.numMembers == 0 <==> g.daemons == map[]
  {
    if g.daemons == map[] {
      assert Pairs(g.daemons) == {};
    } else {
      var d := Inhabited(g.daemons);
      var m :| m in g.daemons[d].members;
      assert (d, m) in Pairs(g.daemons);
    }
  }

  lemma AddPair(ds: map<int, Entry>, d: int, memb: MembId, ms: set<Name>, m: Name)
    requires m !in ms && if d in ds then ds[d].members == ms else ms == {}
    ensures |Pairs(ds[d := Entry(memb, ms + {m})])| == |Pairs(ds)| + 1
  {
    hide Pairs;
    var after := ds[d := Entry(memb, ms + {m})];
    forall x: (int, Name)
      ensures x in Pairs(after) <==> x in Pairs(ds) || x == (d, m)
    {
      PairIn(after, x.0, x.1);
      PairIn(ds, x.0, x.1);
      assert x == (x.0, x.1);
    }
    PairIn(ds, d, m);
    assert Pairs(after) == Pairs(ds) + {(d, m)};
  }

  lemma PairIn(ds: map<int, Entry>, d: int, m: Name)
    ensures (d, m) in Pairs(ds) <==> d in ds && m in ds[d].members
  {
  }

  lemma AddSound(g: Group, d: int, m: Name, partitioned: bool)
    requires Sound(g) && m !in MembersAt(g, d)
    ensures Counted(AddMember(g, d, m, partitioned))
  {
    hide Pairs;
    var memb := if d in g.daemons then g.daemons[d].memb else if partitioned then UNKNOWN else g.id.memb;
    AddPair(g.daemons, d, memb, MembersAt(g, d), m);
    assert d in AddMember(g, d, m, partitioned).daemons;
  }

  lemma RemoveSound(g: Group, d: int, m: Name)
    requires Sound(g) && m in MembersAt(g, d)
    ensures Sound(RemoveMember(g, d, m))
  {
    var h := RemoveMember(g, d, m);
    assert (d, m) in Pairs(g.daemons);
    assert Pairs(h.daemons) == Pairs(g.daemons) - {(d, m)};
  }

  lemma WithoutSound(g: Group, gone: set<int>)
    requires Sound(g)
    ensures Sound(WithoutDaemons(g, gone))
  {
    SplitPairs(g.daemons, gone);
    hide Pairs;
  }

  lemma SplitPairs(ds: map<int, Entry>, gone: set<int>)
    ensures |Pairs(ds)| == |Pairs(Only(ds, gone))| + |Pairs(ds - gone)|
  {
    var out, left := Only(ds, gone), ds - gone;
    assert forall x :: x in Pairs(out) ==> x.0 in gone;
    assert forall x :: x in Pairs(left) ==> x.0 !in gone;
    assert Pairs(out) !! Pairs(left);
    assert Pairs(ds) == Pairs(out) + Pairs(left);
    hide Pairs, Only;
  }

  lemma SamePairs(a: map<int, Entry>, b: map<int, Entry>)
    requires a.Keys == b.Keys && forall d :: d in a ==> a[d].members == b[d].members
    ensures Pairs(a) == Pairs(b)
  {
  }

  // ----- mailboxes

  lemma MoveLast(s: seq<int>)
    requires Unique(s) && |s| > 1
    ensures var r := [s[|s| - 1]] + s[1..|s| - 1]; Unique(r) && forall x :: x in r <==> x in s && x != s[0]
  {
    var n := |s| - 1;
    var r := [s[n]] + s[1..n];
    assert forall i :: 0 < i < n ==> r[i] == s[i];
    assert s == [s[0]] + s[1..n] + [s[n]];
  }

  lemma {:induction false} RemoveBoxFacts(s: seq<int>, b: int)
    requires Unique(s) && b in s
    ensures Unique(RemoveBox(s, b)) && forall x :: x in RemoveBox(s, b) <==> x in s && x != b
  {
    if s[0] == b {
      if |s| > 1 {
        MoveLast(s);
      }
    } else {
      var t := s[1..];
      assert forall i :: 0 <= i < |t| ==> t[i] == s[i + 1];
      RemoveBoxFacts(t, b);
      assert s[0] !in t;
      ConsUnique(s[0], RemoveBox(t, b));
    }
  }

  lemma ConsUnique(x: int, r: seq<int>)
    requires Unique(r) && x !in r
    ensures Unique([x] + r) && forall y :: y in [x] + r <==> y == x || y in r
  {
    assert forall i :: 0 <= i < |r| ==> r[i] in r;
  }

  lemma SameBoxes(self: Self, g: Group, h: Group, boxes: seq<int>)
    requires BoxesOk(self, g, boxes) && MembersAt(g, self.my) == MembersAt(h, self.my)
    ensures BoxesOk(self, h, boxes)
  {
  }

  lemma NewBox(self: Self, g: Group, boxes: seq<int>, m: Name)
    requires SelfOk(self) && BoxesOk(self, g, boxes) && m !in MembersAt(g, self.my)
    ensures self.box(m) !in boxes
  {
    hide MembersAt;
    assert forall k :: self.box(k) == self.box(m) ==> k == m;
    assert self.box(m) in boxes <==> exists k :: k in MembersAt(g, self.my) && self.box(k) == self.box(m);
  }

  lemma JoinBoxes(self: Self, g: Group, h: Group, boxes: seq<int>, m: Name)
    requires SelfOk(self) && BoxesOk(self, g, boxes) && m !in MembersAt(g, self.my)
    requires MembersAt(h, self.my) == MembersAt(g, self.my) + {m}
    ensures BoxesOk(self, h, boxes + [self.box(m)])
  {
    NewBox(self, g, boxes, m);
  }

  lemma LeaveBoxes(self: Self, g: Group, h: Group, boxes: seq<int>, m: Name)
    requires SelfOk(self) && BoxesOk(self, g, boxes) && m in MembersAt(g, self.my)
    requires MembersAt(h, self.my) == MembersAt(g, self.my) - {m}
    ensures BoxesOk(self, h, RemoveBox(boxes, self.box(m)))
  {
    RemoveBoxFacts(boxes, self.box(m));
  }

  lemma NoBoxes(self: Self, g: Group)
    requires MembersAt(g, self.my) == {}
    ensures BoxesOk(self, g, [])
  {
  }

  // ----- joins, leaves, kills

  /** A new member, in a group that may be new as well. */
  lemma JoinedKeeps(self: Self, gstate: Gstate, trans: set<int>, g: Group, boxes: seq<int>, d: int, m: Name)
    requires SelfOk(self) && (gstate.Gop? || gstate.Gtrans?) && (gstate.Gtrans? ==> self.my in trans)
    requires Sound(g) && IdsOk(gstate, trans, g) && BoxesOk(self, g, boxes) && m !in MembersAt(g, d)
    ensures GroupOk(self, gstate, trans, AddMember(g, d, m, gstate.Gtrans? && d !in trans),
                    if d == self.my then boxes + [self.box(m)] else boxes)
  {
    hide Counted, BoxesOk, Sound, IdsOk, SelfOk;
    var p := gstate.Gtrans? && d !in trans;
    var h := AddMember(g, d, m, p);
    AddSound(g, d, m, p);
    JoinIds(gstate, trans, g, d, m);
    if d == self.my {
      JoinBoxes(self, g, h, boxes, m);
    } else {
      SameBoxes(self, g, h, boxes);
    }
  }

  lemma JoinIds(gstate: Gstate, trans: set<int>, g: Group, d: int, m: Name)
    requires (gstate.Gop? || gstate.Gtrans?) && IdsOk(gstate, trans, g)
    ensures IdsOk(gstate, trans, AddMember(g, d, m, gstate.Gtrans? && d !in trans))
  {
    hide MembersAt;
  }

  lemma NewGroupSound(id: GroupId)
    ensures Sound(Group(id, false, 0, map[]))
  {
    assert Pairs(map[]) == {};
  }

  lemma JoinKeeps(self: Self, s: Book, d: int, m: Name, n: Name)
    requires SelfOk(self) && Inv(self, s) && (s.gstate.Gop? || s.gstate.Gtrans?)
    ensures Inv(self, HandleJoin(self, s, d, m, n))
  {
    var g := if n in s.groups then s.groups[n]
             else Group(GroupId(if s.gstate.Gop? then s.regId else s.transId, 0), false, 0, map[]);
    var boxes := if n in s.mboxes then s.mboxes[n] else [];
    if m !in MembersAt(g, d) {
      if n !in s.groups {
        NewGroupSound(g.id);
        NoBoxes(self, g);
      }
      JoinedKeeps(self, s.gstate, s.trans, g, boxes, d, m);
    }
    hide GroupOk, AddMember, SelfOk;
  }

  lemma RemovedKeeps(self: Self, gstate: Gstate, trans: set<int>, g: Group, boxes: seq<int>, d: int, m: Name)
    requires SelfOk(self) && GroupOk(self, gstate, trans, g, boxes) && m in MembersAt(g, d)
    ensures
      var h := RemoveMember(g, d, m);
      h.numMembers != 0 ==>
        GroupOk(self, gstate, trans, h, if d == self.my then RemoveBox(boxes, self.box(m)) else boxes)
  {
    var h := RemoveMember(g, d, m);
    RemoveSound(g, d, m);
    SoundEmpty(h);
    if d == self.my {
      LeaveBoxes(self, g, h, boxes, m);
    } else {
      SameBoxes(self, g, h, boxes);
    }
    hide Pairs, BoxesOk;
  }

  lemma TakeOutKeeps(self: Self, s: Book, d: int, m: Name, n: Name)
    requires SelfOk(self) && Inv(self, s)
    ensures Inv(self, TakeOut(self, s, d, m, n))
  {
    if n in s.groups && m in MembersAt(s.groups[n], d) {
      RemovedKeeps(self, s.gstate, s.trans, s.groups[n], s.mboxes[n], d, m);
    }
    hide GroupOk, RemoveMember, SelfOk;
  }

  lemma KillKeeps(self: Self, s: Book, d: int, m: Name)
    requires SelfOk(self) && Inv(self, s)
    ensures Inv(self, HandleKill(self, s, d, m))
  {
    hide GroupOk, RemoveMember, SelfOk;
    var t := HandleKill(self, s, d, m);
    forall k | k in t.groups
      ensures GroupOk(self, t.gstate, t.trans, t.groups[k], t.mboxes[k])
    {
      if m in MembersAt(s.groups[k], d) {
        RemovedKeeps(self, s.gstate, s.trans, s.groups[k], s.mboxes[k], d, m);
      }
    }
  }

  // ----- membership changes

  /** A group whose daemons keep their members keeps its books. */
  lemma SameBooks(self: Self, g: Group, h: Group, boxes: seq<int>)
    requires Counted(g) && BoxesOk(self, g, boxes) && h.numMembers == g.numMembers
    requires g.daemons.Keys == h.daemons.Keys && forall d :: d in g.daemons ==> g.daemons[d].members == h.daemons[d].members
    ensures Counted(h) && BoxesOk(self, h, boxes)
  {
    SamePairs(g.daemons, h.daemons);
    SameBoxes(self, g, h, boxes);
    EmptyMap(h.daemons);
    var d := Inhabited(g.daemons);
    assert d in h.daemons;
    hide Pairs;
  }

  lemma PartitionKeeps(self: Self, old_trans: set<int>, g: Group, boxes: seq<int>, trans: set<int>, transId: MembId)
    requires GroupOk(self, Gop, old_trans, g, boxes) && transId.proc != -1
    ensures GroupOk(self, Gtrans, trans, Partition(g, trans, transId), boxes)
  {
    SameBooks(self, g, Partition(g, trans, transId), boxes);
    hide Counted, BoxesOk;
  }

  lemma CascadeMarkKeeps(self: Self, old_trans: set<int>, g: Group, boxes: seq<int>, trans: set<int>)
    requires GroupOk(self, Ggather, old_trans, g, boxes)
    ensures GroupOk(self, Ggt, trans, MarkCascade(g, trans), boxes)
  {
    SameBooks(self, g, MarkCascade(g, trans), boxes);
    hide Counted, BoxesOk, Outside;
  }

  lemma TransKeeps(self: Self, s: Book, trans: set<int>, transId: MembId)
    requires Inv(self, s) && self.my in trans && transId.proc != -1
    ensures Inv(self, HandleTrans(s, trans, transId))
  {
    hide GroupOk, Partition, MarkCascade;
    var t := HandleTrans(s, trans, transId);
    if s.gstate.Gop? || s.gstate.Ggather? {
      forall n | n in t.groups
        ensures GroupOk(self, t.gstate, t.trans, t.groups[n], t.mboxes[n])
      {
        if s.gstate.Gop? {
          PartitionKeeps(self, s.trans, s.groups[n], s.mboxes[n], trans, transId);
        } else {
          CascadeMarkKeeps(self, s.trans, s.groups[n], s.mboxes[n], trans);
        }
      }
    }
  }

  /** Removing other daemons leaves the local members and mailboxes alone. */
  lemma WithoutKeeps(self: Self, g: Group, boxes: seq<int>, gone: set<int>)
    requires Counted(g) && BoxesOk(self, g, boxes) && self.my !in gone
    ensures
      var h := WithoutDaemons(g, gone);
      && Sound(h) && BoxesOk(self, h, boxes)
      && (h.numMembers != 0 ==> Counted(h)) && (h.numMembers == 0 ==> boxes == [])
  {
    var h := WithoutDaemons(g, gone);
    WithoutSound(g, gone);
    SoundEmpty(h);
    SameBoxes(self, g, h, boxes);
    hide Pairs;
    assert boxes != [] ==> boxes[0] in boxes;
    if h.numMembers == 0 {
      assert MembersAt(h, self.my) == {};
    }
  }

  lemma InstallKeeps(self: Self, trans: set<int>, g: Group, boxes: seq<int>, regId: MembId)
    requires GroupOk(self, Gtrans, trans, g, boxes) && self.my in trans && regId.proc != -1
    ensures Install(g, regId).numMembers != 0 ==> GroupOk(self, Gop, trans, Install(g, regId), boxes)
    ensures Install(g, regId).numMembers == 0 ==> boxes == []
  {
    hide Counted, BoxesOk, Sound;
    if g.changed {
      var gone := Partitioned(g);
      WithoutKeeps(self, g, boxes, gone);
      var h := WithoutDaemons(g, gone);
      assert forall d :: d in h.daemons ==> h.daemons[d].memb.proc != -1;
      if h.numMembers != 0 {
        SameBooks(self, h, Install(g, regId), boxes);
      }
    } else {
      CountedNotZero(g);
    }
  }

  lemma CountedNotZero(g: Group)
    requires Counted(g)
    ensures g.numMembers != 0
  {
    SoundEmpty(g);
    hide Pairs;
  }

  lemma EliminateKeeps(self: Self, trans: set<int>, g: Group, boxes: seq<int>)
    requires GroupOk(self, Gtrans, trans, g, boxes) && self.my in trans
    ensures Eliminate(g).numMembers != 0 ==> GroupOk(self, Ggather, trans, Eliminate(g), boxes)
    ensures Eliminate(g).numMembers == 0 ==> boxes == []
  {
    hide Counted, BoxesOk, Sound;
    if g.changed {
      WithoutKeeps(self, g, boxes, Partitioned(g));
    } else {
      CountedNotZero(g);
    }
  }

  lemma CascadeKeeps(self: Self, old_trans: set<int>, g: Group, boxes: seq<int>, trans: set<int>)
    requires GroupOk(self, Ggt, old_trans, g, boxes) && self.my in trans
    ensures Cascade(g, trans).numMembers != 0 ==> GroupOk(self, Ggather, trans, Cascade(g, trans), boxes)
    ensures Cascade(g, trans).numMembers == 0 ==> boxes == []
  {
    hide Counted, BoxesOk, Sound;
    if Outside(g, trans) != {} {
      WithoutKeeps(self, g, boxes, Outside(g, trans));
      var h := WithoutDaemons(g, Outside(g, trans));
      if h.numMembers != 0 {
        SameBooks(self, h, Cascade(g, trans), boxes);
      }
    } else {
      CountedNotZero(g);
    }
  }

  // ----- state exchange

  /** While records are read: the daemons of a group are those it had and those read. */
  ghost predicate Gathering(self: Self, s: Book, rs: seq<Record>, gs: GroupsList) {
    && (forall n :: n in s.groups ==> n in gs)
    && (forall i :: 0 <= i < |rs| ==> rs[i].name in gs)
    && forall n :: n in gs ==> GatheredGroup(self, s, rs, n, gs[n])
  }

  ghost predicate Includes(g: Group, daemons: map<int, Entry>) {
    forall d :: d in daemons ==> d in g.daemons
  }

  /** A group may have no daemons yet. */
  ghost predicate GatheredGroup(self: Self, s: Book, rs: seq<Record>, n: Name, g: Group) {
    && Sound(g)
    && (n in s.groups ==> Includes(g, s.groups[n].daemons))
    && (forall i :: 0 <= i < |rs| && rs[i].name == n ==> Includes(g, rs[i].daemons))
    && (n in s.groups || exists i :: 0 <= i < |rs| && rs[i].name == n)
    && MembersAt(g, self.my) == (if n in s.groups then MembersAt(s.groups[n], self.my) else {})
    && g.id.memb.proc != -1
    && (forall d :: d in g.daemons ==>
          && g.daemons[d].memb.proc != -1 && (g.changed || g.daemons[d].memb == g.id.memb)
          && ((n in s.groups && d in s.groups[n].daemons) || InSome(rs, n, d)))
  }

  lemma RecordApart(self: Self, s: Book, rs: seq<Record>, r: Record, g: Group)
    requires Legible(self, s, rs + [r]) && GatheredGroup(self, s, rs, r.name, g)
    ensures g.daemons.Keys !! r.daemons.Keys
  {
    var all := rs + [r];
    assert all[|rs|] == r && RecordOk(self, s, all[|rs|]);
    hide Sound, MembersAt;
    forall d | d in g.daemons
      ensures d !in r.daemons
    {
      if InSome(rs, r.name, d) {
        var i :| 0 <= i < |rs| && rs[i].name == r.name && d in rs[i].daemons;
        assert all[i] == rs[i];
        assert all[i].daemons.Keys !! all[|rs|].daemons.Keys;
      }
    }
  }

  lemma AbsorbSound(g: Group, r: Record)
    requires Sound(g) && g.daemons.Keys !! r.daemons.Keys && forall d :: d in r.daemons ==> r.daemons[d].members != {}
    ensures Sound(AbsorbInto(g, r))
  {
    PairsUnion(g.daemons, r.daemons);
    hide Pairs;
  }

  lemma GatherOne(self: Self, s: Book, rs: seq<Record>, r: Record, g: Group)
    requires Legible(self, s, rs + [r])
    requires GatheredGroup(self, s, rs, r.name, g) ||
             (r.name !in s.groups && g == Group(r.id, false, 0, map[]) && forall i :: 0 <= i < |rs| ==> rs[i].name != r.name)
    ensures GatheredGroup(self, s, rs + [r], r.name, AbsorbInto(g, r))
  {
    var all, h := rs + [r], AbsorbInto(g, r);
    assert all[|rs|] == r && RecordOk(self, s, all[|rs|]);
    if g.daemons == map[] {
      assert Pairs(g.daemons) == {};
    } else {
      RecordApart(self, s, rs, r, g);
    }
    AbsorbSound(g, r);
    hide Pairs, Sound;
    forall i | 0 <= i < |all| && all[i].name == r.name
      ensures Includes(h, all[i].daemons)
    {
      assert i < |rs| ==> all[i] == rs[i];
    }
    forall d | d in h.daemons
      ensures h.daemons[d].memb.proc != -1 && (h.changed || h.daemons[d].memb == h.id.memb)
      ensures (r.name in s.groups && d in s.groups[r.name].daemons) || InSome(all, r.name, d)
    {
      InSomeMore(rs, r, r.name, d);
    }
    assert all[|rs|].name == r.name;
  }

  lemma GatherOther(self: Self, s: Book, rs: seq<Record>, r: Record, n: Name, g: Group)
    requires GatheredGroup(self, s, rs, n, g) && n != r.name
    ensures GatheredGroup(self, s, rs + [r], n, g)
  {
    hide Sound, MembersAt, Includes;
    var all := rs + [r];
    assert forall i :: 0 <= i < |rs| ==> all[i] == rs[i];
    if n !in s.groups {
      var i :| 0 <= i < |rs| && rs[i].name == n;
      assert all[i].name == n;
    }
    forall d | d in g.daemons
      ensures (n in s.groups && d in s.groups[n].daemons) || InSome(all, n, d)
    {
      InSomeMore(rs, r, n, d);
    }
  }

  lemma LegiblePrefix(self: Self, s: Book, rs: seq<Record>, r: Record)
    requires Legible(self, s, rs + [r])
    ensures Legible(self, s, rs)
  {
    var all := rs + [r];
    hide RecordOk;
    forall i | 0 <= i < |rs| ensures RecordOk(self, s, rs[i]) {
      assert all[i] == rs[i];
    }
    forall i, l | 0 <= i < l < |rs| && rs[i].name == rs[l].name
      ensures rs[i].daemons.Keys !! rs[l].daemons.Keys
    {
      assert all[i] == rs[i] && all[l] == rs[l];
    }
  }

  lemma {:induction false} GatherAll(self: Self, s: Book, rs: seq<Record>)
    requires Inv(self, s) && (s.gstate.Ggather? || s.gstate.Ggt?) && Legible(self, s, rs)
    ensures Gathering(self, s, rs, AbsorbAll(s.groups, rs))
  {
    hide *;
    if rs == [] {
      GatherNone(self, s);
      AbsorbAllNone(s.groups);
    } else {
      var r, before := rs[|rs| - 1], rs[..|rs| - 1];
      assert rs == before + [r];
      LegiblePrefix(self, s, before, r);
      GatherAll(self, s, before);
      GatherStep(self, s, before, r, AbsorbAll(s.groups, before));
      AbsorbAllLast(s.groups, before, r);
    }
  }

  lemma AbsorbAllNone(gs: GroupsList)
    ensures AbsorbAll(gs, []) == gs
  {
  }

  lemma AbsorbAllLast(gs: GroupsList, rs: seq<Record>, r: Record)
    ensures AbsorbAll(gs, rs + [r]) == Absorb(AbsorbAll(gs, rs), r)
  {
    assert (rs + [r])[..|rs|] == rs;
  }

  lemma GatherNone(self: Self, s: Book)
    requires Inv(self, s) && (s.gstate.Ggather? || s.gstate.Ggt?)
    ensures Gathering(self, s, [], s.groups)
  {
    forall n | n in s.groups
      ensures Sound(s.groups[n])
    {
      assert GroupOk(self, s.gstate, s.trans, s.groups[n], s.mboxes[n]);
    }
    hide Sound, BoxesOk, MembersAt, Counted;
  }

  lemma GatherStep(self: Self, s: Book, before: seq<Record>, r: Record, gs: GroupsList)
    requires Legible(self, s, before + [r]) && Gathering(self, s, before, gs)
    ensures Gathering(self, s, before + [r], Absorb(gs, r))
  {
    hide Legible, AbsorbInto, Sound, MembersAt, InSome;
    var g := if r.name in gs then gs[r.name] else Group(r.id, false, 0, map[]);
    GatherOne(self, s, before, r, g);
    var after := Absorb(gs, r);
    forall n | n in after
      ensures GatheredGroup(self, s, before + [r], n, after[n])
    {
      if n != r.name {
        GatherOther(self, s, before, r, n, gs[n]);
      }
    }
  }

  lemma GatherableIsLegible(self: Self, s: Book, rs: seq<Record>)
    requires Gatherable(self, s, rs)
    ensures Legible(self, s, rs)
  {
  }

  /** With all records read, every group has a daemon. */
  lemma AllPeopled(self: Self, s: Book, rs: seq<Record>, n: Name, g: Group)
    requires Inv(self, s) && Gatherable(self, s, rs) && GatheredGroup(self, s, rs, n, g)
    ensures Counted(g)
  {
    if n in s.groups {
      assert GroupOk(self, s.gstate, s.trans, s.groups[n], s.mboxes[n]);
      var d := Inhabited(s.groups[n].daemons);
      assert d in g.daemons;
    } else {
      var i :| 0 <= i < |rs| && rs[i].name == n;
      assert Peopled(rs, n);
      var l :| 0 <= l < |rs| && rs[l].name == n && rs[l].daemons != map[];
      var d := Inhabited(rs[l].daemons);
      assert d in g.daemons;
    }
    hide Pairs;
  }

  /** The mailboxes of a group after the exchange: those it had. */
  lemma GatheredBoxes(self: Self, s: Book, rs: seq<Record>, n: Name, g: Group)
    requires Inv(self, s) && GatheredGroup(self, s, rs, n, g)
    ensures BoxesOk(self, g, if n in s.mboxes then s.mboxes[n] else [])
  {
    if n in s.groups {
      assert GroupOk(self, s.gstate, s.trans, s.groups[n], s.mboxes[n]);
      SameBoxes(self, s.groups[n], g, s.mboxes[n]);
    } else {
      NoBoxes(self, g);
    }
    hide Counted, BoxesOk;
  }

  lemma SettleKeeps(self: Self, s: Book, rs: seq<Record>, n: Name, g: Group)
    requires Inv(self, s) && Gatherable(self, s, rs) && GatheredGroup(self, s, rs, n, g)
    ensures GroupOk(self, Gop, s.trans, Settle(g, s.regId), if n in s.mboxes then s.mboxes[n] else [])
  {
    AllPeopled(self, s, rs, n, g);
    GatheredBoxes(self, s, rs, n, g);
    SameBooks(self, g, Settle(g, s.regId), if n in s.mboxes then s.mboxes[n] else []);
    hide Counted, BoxesOk, GroupOk;
    assert s.regId.proc != -1;
    SettleIds(g, s.regId, s.trans);
    assert GroupOk(self, Gop, s.trans, Settle(g, s.regId), if n in s.mboxes then s.mboxes[n] else []) by {
      Together(self, Gop, s.trans, Settle(g, s.regId), if n in s.mboxes then s.mboxes[n] else []);
    }
  }

  lemma Together(self: Self, gstate: Gstate, trans: set<int>, g: Group, boxes: seq<int>)
    requires Counted(g) && IdsOk(gstate, trans, g) && BoxesOk(self, g, boxes)
    ensures GroupOk(self, gstate, trans, g, boxes)
  {
  }

  lemma SettleIds(g: Group, reg: MembId, trans: set<int>)
    requires reg.proc != -1 && g.id.memb.proc != -1
    requires forall d :: d in g.daemons ==> g.daemons[d].memb.proc != -1 && (g.changed || g.daemons[d].memb == g.id.memb)
    ensures IdsOk(Gop, trans, Settle(g, reg))
  {
  }

  /** After the exchange this daemon is in GOP with its books in order. */
  lemma ExchangeKeeps(self: Self, s: Book, rs: seq<Record>)
    requires Inv(self, s) && (s.gstate.Ggather? || s.gstate.Ggt?) && Gatherable(self, s, rs)
    ensures
      var gs := SettleAll(AbsorbAll(s.groups, rs), s.regId);
      Inv(self, s.(gstate := Gop, groups := gs, mboxes := Fresh(s.mboxes, gs)))
  {
    hide GroupOk, GatheredGroup, AbsorbAll, Settle, Gatherable, Legible;
    GatherableIsLegible(self, s, rs);
    GatherAll(self, s, rs);
    var gs := SettleAll(AbsorbAll(s.groups, rs), s.regId);
    forall n | n in gs
      ensures GroupOk(self, Gop, s.trans, gs[n], Fresh(s.mboxes, gs)[n])
    {
      SettleKeeps(self, s, rs, n, AbsorbAll(s.groups, rs)[n]);
    }
  }

  /** In GGT the gathered sets join, and then the transitional membership takes effect. */
  lemma CascadeAllKeeps(self: Self, s: Book, rs: seq<Record>, regId: MembId)
    requires Inv(self, s) && s.gstate.Ggt? && Gatherable(self, s, rs) && regId.proc != -1
    ensures Inv(self, HandleReg(s, regId, false, rs))
  {
    hide GroupOk, GatheredGroup, AbsorbAll, Cascade, Gatherable, Legible;
    GatherableIsLegible(self, s, rs);
    GatherAll(self, s, rs);
    var gs := AbsorbAll(s.groups, rs);
    forall n | n in gs
      ensures Cascade(gs[n], s.trans).numMembers != 0 ==>
                GroupOk(self, Ggather, s.trans, Cascade(gs[n], s.trans), Fresh(s.mboxes, gs)[n])
    {
      GatheredIsOk(self, s, rs, n, gs[n]);
      CascadeKeeps(self, s.trans, gs[n], Fresh(s.mboxes, gs)[n], s.trans);
    }
  }

  lemma GatheredIsOk(self: Self, s: Book, rs: seq<Record>, n: Name, g: Group)
    requires Inv(self, s) && s.gstate.Ggt? && Gatherable(self, s, rs) && GatheredGroup(self, s, rs, n, g)
    ensures GroupOk(self, Ggt, s.trans, g, if n in s.mboxes then s.mboxes[n] else [])
  {
    AllPeopled(self, s, rs, n, g);
    GatheredBoxes(self, s, rs, n, g);
    hide Counted, BoxesOk, MembersAt, Sound;
  }

  lemma RegKeeps(self: Self, s: Book, regId: MembId, subtractive: bool, rs: seq<Record>)
    requires Inv(self, s) && regId.proc != -1 && (s.gstate.Ggt? ==> Gatherable(self, s, rs))
    ensures Inv(self, HandleReg(s, regId, subtractive, rs))
  {
    hide GroupOk, Install, Eliminate, Gatherable;
    if s.gstate.Gtrans? {
      forall n | n in s.groups
        ensures Install(s.groups[n], regId).numMembers != 0 ==>
                  GroupOk(self, Gop, s.trans, Install(s.groups[n], regId), s.mboxes[n])
        ensures Eliminate(s.groups[n]).numMembers != 0 ==>
                  GroupOk(self, Ggather, s.trans, Eliminate(s.groups[n]), s.mboxes[n])
      {
        InstallKeeps(self, s.trans, s.groups[n], s.mboxes[n], regId);
        EliminateKeeps(self, s.trans, s.groups[n], s.mboxes[n]);
      }
    } else if s.gstate.Ggt? {
      CascadeAllKeeps(self, s, rs, regId);
    }
  }

  lemma StepKeeps(self: Self, s: Book, e: Event)
    requires SelfOk(self) && Inv(self, s) && Possible(self, s, e) && Step(self, s, e).Go?
    ensures Inv(self, Step(self, s, e).value)
  {
    hide Inv, HandleJoin, TakeOut, HandleKill, HandleTrans, HandleReg, Gatherable, SelfOk;
    match e
    case Join(d, m, n) => JoinKeeps(self, s, d, m, n);
    case Leave(d, m, n) => TakeOutKeeps(self, s, d, m, n);
    case Kill(d, m) => KillKeeps(self, s, d, m);
    case TransMemb(trans, transId) => TransKeeps(self, s, trans, transId);
    case RegMemb(regId, subtractive, rs) => RegKeeps(self, s, regId, subtractive, rs);
    case Exchanged(rs) => GroupsKeeps(self, s, rs);
  }

  lemma GroupsKeeps(self: Self, s: Book, rs: seq<Record>)
    requires Inv(self, s) && Gatherable(self, s, rs)
    ensures Inv(self, HandleGroups(s, rs))
  {
    if s.gstate.Ggather? || s.gstate.Ggt? {
      ExchangeKeeps(self, s, rs);
      var gs := SettleAll(AbsorbAll(s.groups, rs), s.regId);
      var done := s.(gstate := Gop, groups := gs, mboxes := Fresh(s.mboxes, gs));
      if s.gstate.Ggt? {
        assert self.my in s.trans && s.transId.proc != -1;
        TransKeeps(self, done, s.trans, s.transId);
      }
    }
    hide Inv, HandleTrans, SettleAll, AbsorbAll;
  }

  // ----- runs

  ghost predicate Run(self: Self, trace: seq<Book>) {
    && SelfOk(self) && |trace| > 0
    && trace[0].gstate.Gop? && trace[0].groups == map[] && trace[0].mboxes == map[]
    && trace[0].regId.proc != -1 && trace[0].transId.proc != -1
    && forall i :: 0 <= i < |trace| - 1 ==> Next(self, trace[i], trace[i + 1])
  }

  ghost predicate Next(self: Self, s: Book, s': Book) {
    exists e :: Possible(self, s, e) && Step(self, s, e) == Go(s')
  }

  lemma {:induction false} RunKeepsInv(self: Self, trace: seq<Book>, i: nat)
    requires Run(self, trace) && i < |trace|
    ensures Inv(self, trace[i])
  {
    hide Step, GroupOk;
    if i > 0 {
      RunKeepsInv(self, trace, i - 1);
      assert Next(self, trace[i - 1], trace[i]);
      var e :| Possible(self, trace[i - 1], e) && Step(self, trace[i - 1], e) == Go(trace[i]);
      StepKeeps(self, trace[i - 1], e);
    }
  }

  /** Over all runs: the count of a group is the number of its members, no group and no daemon
      entry is empty, the mailboxes are those of the local members and each is there once; and in
      GOP no group is changed and every daemon entry carries the group's own membership id. */
  lemma BooksAreInOrder(self: Self, trace: seq<Book>, i: nat, n: Name)
    requires Run(self, trace) && i < |trace| && n in trace[i].groups
    ensures Counted(trace[i].groups[n])
    ensures n in trace[i].mboxes && BoxesOk(self, trace[i].groups[n], trace[i].mboxes[n])
    ensures trace[i].gstate.Gop? ==> !trace[i].groups[n].changed && Established(trace[i].groups[n])
  {
    hide Run;
    RunKeepsInv(self, trace, i);
    assert GroupOk(self, trace[i].gstate, trace[i].trans, trace[i].groups[n], trace[i].mboxes[n]);
    hide Counted, BoxesOk;
  }
}
