/** Process groups as the daemons of a configuration keep them, and what the state exchange after a
    membership change makes of them. The sorted skiplists of the program are maps here. */
module Groups {

  type Byte = x: int | 0 <= x < 256

  /** Group and member names, as the bytes of their fixed-size fields. */
  type Name = seq<Byte>

  /** A membership id; proc -1 marks a daemon as partitioned. */
  datatype MembId = MembId(proc: int, time: int)

  const UNKNOWN := MembId(-1, -1)

  datatype GroupId = GroupId(memb: MembId, index: int)

  /** A daemon's members of a group. */
  datatype Entry = Entry(memb: MembId, members: set<Name>)

  datatype Group = Group(id: GroupId, changed: bool, numMembers: int, daemons: map<int, Entry>)

  type GroupsList = map<Name, Group>

  /** Every member of a group, with its daemon. */
  function Pairs(daemons: map<int, Entry>): set<(int, Name)> {
    set d, m | d in daemons && m in daemons[d].members :: (d, m)
  }

  /** num_members is what it says, and there are no empty daemons or groups. */
  ghost predicate Counted(g: Group) {
    && g.numMembers == |Pairs(g.daemons)|
    && g.daemons != map[]
    && forall d :: d in g.daemons ==> g.daemons[d].members != {}
  }

  /** Every daemon entry carries the group's own membership id. */
  ghost predicate Established(g: Group) {
    forall d :: d in g.daemons ==> g.daemons[d].memb == g.id.memb
  }

  lemma PairsUnion(a: map<int, Entry>, b: map<int, Entry>)
    requires a.Keys !! b.Keys
    ensures |Pairs(a + b)| == |Pairs(a)| + |Pairs(b)|
  {
    assert Pairs(a) !! Pairs(b);
    assert Pairs(a + b) == Pairs(a) + Pairs(b);
  }

  // ----- GROUPS messages

  /** One group in one GROUPS message: some of the daemons of the sender's synced set. */
  datatype Record = Record(name: Name, id: GroupId, changed: bool, daemons: map<int, Entry>)

  /** What a group becomes when a record is read into it. */
  function AbsorbInto(g: Group, r: Record): Group {
    Group(g.id,
          g.changed || r.changed || exists d :: d in r.daemons && r.daemons[d].memb != g.id.memb,
          g.numMembers + |Pairs(r.daemons)|,
          g.daemons + r.daemons)
  }

  /** One group of G_mess_to_groups. */
  function Absorb(gs: GroupsList, r: Record): GroupsList {
    var g := if r.name in gs then gs[r.name] else Group(r.id, false, 0, map[]);
    gs[r.name := AbsorbInto(g, r)]
  }

  function AbsorbAll(gs: GroupsList, rs: seq<Record>): GroupsList {
    if rs == [] then gs else Absorb(AbsorbAll(gs, rs[..|rs| - 1]), rs[|rs| - 1])
  }

  /** The loop of G_compute_and_notify over one group. */
  function Settle(g: Group, reg: MembId): Group {
    if !g.changed then g
    else Group(GroupId(reg, 1), false, g.numMembers, Stamped(g.daemons, reg))
  }

  /** G_update_daemon_memb_ids: all but partitioned daemons get the id. */
  function Stamped(daemons: map<int, Entry>, memb: MembId): map<int, Entry> {
    map d | d in daemons :: if daemons[d].memb.proc == -1 then daemons[d] else Entry(memb, daemons[d].members)
  }

  function SettleAll(gs: GroupsList, reg: MembId): GroupsList {
    map n | n in gs :: Settle(gs[n], reg)
  }

  // ----- the synced sets before the exchange

  /** Each synced set has one list of groups, its own; together they make up the membership. */
  ghost predicate World(sets: seq<GroupsList>) {
    && (forall k, n :: 0 <= k < |sets| && n in sets[k] ==>
          Counted(sets[k][n]) && Established(sets[k][n]) && sets[k][n].id.memb.proc != -1)
    && (forall j, k, n :: 0 <= j < k < |sets| && n in sets[j] && n in sets[k] ==>
          sets[j][n].daemons.Keys !! sets[k][n].daemons.Keys)
  }

  /** r is part of what set j has to say about a group. */
  ghost predicate PartOf(r: Record, gs: GroupsList) {
    && r.name in gs && r.id == gs[r.name].id && r.changed == gs[r.name].changed
    && forall d :: d in r.daemons ==> d in gs[r.name].daemons && r.daemons[d] == gs[r.name].daemons[d]
  }

  ghost predicate FromOther(sets: seq<GroupsList>, k: nat, r: Record) {
    exists j :: 0 <= j < |sets| && j != k && PartOf(r, sets[j])
  }

  /** The GROUPS messages of all sets other than k, in any order and split over messages in any
      way that puts each daemon of a group into exactly one record. */
  ghost predicate Delivered(sets: seq<GroupsList>, k: nat, rs: seq<Record>)
    requires k < |sets|
  {
    && (forall i :: 0 <= i < |rs| ==> FromOther(sets, k, rs[i]))
    && (forall i, l :: 0 <= i < l < |rs| && rs[i].name == rs[l].name ==> rs[i].daemons.Keys !! rs[l].daemons.Keys)
    && (forall j, n, d :: 0 <= j < |sets| && j != k && n in sets[j] && d in sets[j][n].daemons ==> InSome(rs, n, d))
  }

  ghost predicate InSome(rs: seq<Record>, n: Name, d: int) {
    exists i :: 0 <= i < |rs| && rs[i].name == n && d in rs[i].daemons
  }

  // ----- one group through the exchange

  /** The list after some records: every group is built from those that hold it. */
  ghost predicate Built(sets: seq<GroupsList>, k: nat, rs: seq<Record>, gs: GroupsList)
    requires k < |sets|
  {
    && (forall n :: n in gs <==> n in sets[k] || exists i :: 0 <= i < |rs| && rs[i].name == n)
    && forall n :: n in gs ==> GroupBuilt(sets, k, rs, n, gs[n])
  }

  ghost predicate GroupBuilt(sets: seq<GroupsList>, k: nat, rs: seq<Record>, n: Name, g: Group)
    requires k < |sets|
  {
    && g.numMembers == |Pairs(g.daemons)|
    && (forall d :: d in g.daemons <==> (n in sets[k] && d in sets[k][n].daemons) || InSome(rs, n, d))
    && (forall d :: d in g.daemons ==> FromSome(sets, n, d, g.daemons[d]))
    && (n in sets[k] ==> g.id == sets[k][n].id)
    && HasId(sets, n, g.id)
    && (g.changed <==> (n in sets[k] && sets[k][n].changed) || Touched(rs, n, g.id.memb))
  }

  /** Some set has this entry for daemon d in group n. */
  ghost predicate FromSome(sets: seq<GroupsList>, n: Name, d: int, e: Entry) {
    exists j :: 0 <= j < |sets| && n in sets[j] && d in sets[j][n].daemons && sets[j][n].daemons[d] == e
  }

  ghost predicate HasId(sets: seq<GroupsList>, n: Name, id: GroupId) {
    exists j :: 0 <= j < |sets| && n in sets[j] && sets[j][n].id == id
  }

  /** Some record marks group n as changed, or comes from another membership. */
  ghost predicate Touched(rs: seq<Record>, n: Name, memb: MembId) {
    exists i :: 0 <= i < |rs| && rs[i].name == n && Touches(rs[i], memb)
  }

  predicate Touches(r: Record, memb: MembId) {
    r.changed || exists d :: d in r.daemons && r.daemons[d].memb != memb
  }

  lemma InSomeMore(rs: seq<Record>, r: Record, n: Name, d: int)
    ensures InSome(rs + [r], n, d) <==> InSome(rs, n, d) || (r.name == n && d in r.daemons)
  {
    var all := rs + [r];
    assert all[|rs|] == r;
    if InSome(rs, n, d) {
      var i :| 0 <= i < |rs| && rs[i].name == n && d in rs[i].daemons;
      assert all[i] == rs[i];
    }
  }

  lemma TouchedMore(rs: seq<Record>, r: Record, n: Name, memb: MembId)
    ensures Touched(rs + [r], n, memb) <==> Touched(rs, n, memb) || (r.name == n && Touches(r, memb))
  {
    var all := rs + [r];
    assert all[|rs|] == r;
    if Touched(rs, n, memb) {
      var i :| 0 <= i < |rs| && rs[i].name == n && Touches(rs[i], memb);
      assert all[i] == rs[i];
    }
  }

  /** The records so far, as Delivered has them. */
  ghost predicate SoFar(sets: seq<GroupsList>, k: nat, rs: seq<Record>)
    requires k < |sets|
  {
    && (forall i :: 0 <= i < |rs| ==> FromOther(sets, k, rs[i]))
    && (forall i, l :: 0 <= i < l < |rs| && rs[i].name == rs[l].name ==> rs[i].daemons.Keys !! rs[l].daemons.Keys)
  }

  lemma NewDaemons(sets: seq<GroupsList>, k: nat, rs: seq<Record>, r: Record, g: Group)
    requires k < |sets| && World(sets) && SoFar(sets, k, rs + [r])
    requires GroupBuilt(sets, k, rs, r.name, g)
    ensures g.daemons.Keys !! r.daemons.Keys
  {
    var all := rs + [r];
    assert all[|rs|] == r && FromOther(sets, k, all[|rs|]);
    var j :| 0 <= j < |sets| && j != k && PartOf(r, sets[j]);
    forall d | d in g.daemons
      ensures d !in r.daemons
    {
      if InSome(rs, r.name, d) {
        var i :| 0 <= i < |rs| && rs[i].name == r.name && d in rs[i].daemons;
        assert all[i] == rs[i];
        assert all[i].daemons.Keys !! all[|rs|].daemons.Keys;
      } else {
        assert sets[k][r.name].daemons.Keys !! sets[j][r.name].daemons.Keys;
      }
    }
  }

  lemma DaemonsAfter(sets: seq<GroupsList>, k: nat, rs: seq<Record>, r: Record, g: Group)
    requires k < |sets| && FromOther(sets, k, r) && GroupBuilt(sets, k, rs, r.name, g)
    ensures
      var n, after := r.name, AbsorbInto(g, r);
      && (forall d :: d in after.daemons <==> (n in sets[k] && d in sets[k][n].daemons) || InSome(rs + [r], n, d))
      && (forall d :: d in after.daemons ==> FromSome(sets, n, d, after.daemons[d]))
  {
    var n, after := r.name, AbsorbInto(g, r);
    assert after.daemons == g.daemons + r.daemons;
    var j :| 0 <= j < |sets| && j != k && PartOf(r, sets[j]);
    hide AbsorbInto, Pairs, InSome, HasId, Touched;
    forall d
      ensures InSome(rs + [r], n, d) <==> InSome(rs, n, d) || d in r.daemons
    {
      InSomeMore(rs, r, n, d);
    }
    forall d | d in after.daemons
      ensures FromSome(sets, n, d, after.daemons[d])
    {
      if d in r.daemons {
        assert sets[j][n].daemons[d] == after.daemons[d];
      } else {
        assert FromSome(sets, n, d, g.daemons[d]);
      }
    }
  }

  /** Reading one more record into the group it belongs to. */
  lemma AbsorbKeepsBuilt(sets: seq<GroupsList>, k: nat, rs: seq<Record>, r: Record, g: Group)
    requires k < |sets| && World(sets) && SoFar(sets, k, rs + [r])
    requires GroupBuilt(sets, k, rs, r.name, g)
    ensures GroupBuilt(sets, k, rs + [r], r.name, AbsorbInto(g, r))
  {
    hide *;
    LastFromOther(sets, k, rs, r);
    NewDaemons(sets, k, rs, r, g);
    PairsUnion(g.daemons, r.daemons);
    DaemonsAfter(sets, k, rs, r, g);
    TouchedMore(rs, r, r.name, g.id.memb);
    AbsorbFields(g, r);
    BuiltFacts(sets, k, rs, r.name, g);
    BuiltAgain(sets, k, rs, r, g, AbsorbInto(g, r));
  }

  lemma BuiltFacts(sets: seq<GroupsList>, k: nat, rs: seq<Record>, n: Name, g: Group)
    requires k < |sets| && GroupBuilt(sets, k, rs, n, g)
    ensures g.numMembers == |Pairs(g.daemons)| && HasId(sets, n, g.id)
    ensures forall d :: d in g.daemons ==> FromSome(sets, n, d, g.daemons[d])
  {
  }

  lemma LastFromOther(sets: seq<GroupsList>, k: nat, rs: seq<Record>, r: Record)
    requires k < |sets| && SoFar(sets, k, rs + [r])
    ensures FromOther(sets, k, r)
  {
    assert (rs + [r])[|rs|] == r;
    assert FromOther(sets, k, (rs + [r])[|rs|]);
  }

  lemma AbsorbFields(g: Group, r: Record)
    ensures
      var after := AbsorbInto(g, r);
      && after.id == g.id && (after.changed <==> g.changed || Touches(r, g.id.memb))
      && after.numMembers == g.numMembers + |Pairs(r.daemons)| && after.daemons == g.daemons + r.daemons
  {
  }

  lemma BuiltAgain(sets: seq<GroupsList>, k: nat, rs: seq<Record>, r: Record, g: Group, after: Group)
    requires k < |sets| && GroupBuilt(sets, k, rs, r.name, g)
    requires
      var n := r.name;
      && after.id == g.id && (after.changed <==> g.changed || Touches(r, g.id.memb))
      && after.numMembers == |Pairs(after.daemons)|
      && (forall d :: d in after.daemons <==> (n in sets[k] && d in sets[k][n].daemons) || InSome(rs + [r], n, d))
      && (forall d :: d in after.daemons ==> FromSome(sets, n, d, after.daemons[d]))
      && (Touched(rs + [r], n, g.id.memb) <==> Touched(rs, n, g.id.memb) || Touches(r, g.id.memb))
    ensures GroupBuilt(sets, k, rs + [r], r.name, after)
  {
    hide FromSome, InSome, HasId, Touched, Touches, Pairs;
  }

  /** The other groups are not affected. */
  lemma OtherGroup(sets: seq<GroupsList>, k: nat, rs: seq<Record>, r: Record, n: Name, g: Group)
    requires k < |sets| && GroupBuilt(sets, k, rs, n, g) && r.name != n
    ensures GroupBuilt(sets, k, rs + [r], n, g)
  {
    TouchedMore(rs, r, n, g.id.memb);
    forall d
      ensures InSome(rs + [r], n, d) <==> InSome(rs, n, d)
    {
      InSomeMore(rs, r, n, d);
    }
    hide Pairs, FromSome, HasId, InSome, Touched;
  }

  lemma NewGroup(sets: seq<GroupsList>, k: nat, rs: seq<Record>, r: Record)
    requires k < |sets| && SoFar(sets, k, rs + [r]) && r.name !in sets[k]
    requires forall i :: 0 <= i < |rs| ==> rs[i].name != r.name
    ensures GroupBuilt(sets, k, rs, r.name, Group(r.id, false, 0, map[]))
  {
    assert (rs + [r])[|rs|] == r && FromOther(sets, k, (rs + [r])[|rs|]);
    var j :| 0 <= j < |sets| && j != k && PartOf(r, sets[j]);
    assert HasId(sets, r.name, r.id);
    assert Pairs(map[]) == {};
  }

  lemma OwnGroup(sets: seq<GroupsList>, k: nat, n: Name)
    requires k < |sets| && World(sets) && n in sets[k]
    ensures GroupBuilt(sets, k, [], n, sets[k][n])
  {
    assert HasId(sets, n, sets[k][n].id);
    forall d | d in sets[k][n].daemons
      ensures FromSome(sets, n, d, sets[k][n].daemons[d])
    {
    }
    hide Pairs;
  }

  lemma SoFarPrefix(sets: seq<GroupsList>, k: nat, rs: seq<Record>, r: Record)
    requires k < |sets| && SoFar(sets, k, rs + [r])
    ensures SoFar(sets, k, rs)
  {
    var all := rs + [r];
    forall i | 0 <= i < |rs|
      ensures FromOther(sets, k, rs[i])
    {
      assert all[i] == rs[i];
    }
    forall i, l | 0 <= i < l < |rs| && rs[i].name == rs[l].name
      ensures rs[i].daemons.Keys !! rs[l].daemons.Keys
    {
      assert all[i] == rs[i] && all[l] == rs[l];
    }
  }

  lemma {:induction false} AbsorbAllBuilds(sets: seq<GroupsList>, k: nat, rs: seq<Record>)
    requires k < |sets| && World(sets) && SoFar(sets, k, rs)
    ensures Built(sets, k, rs, AbsorbAll(sets[k], rs))
  {
    if rs == [] {
      forall n | n in sets[k] ensures GroupBuilt(sets, k, [], n, sets[k][n]) {
        OwnGroup(sets, k, n);
      }
    } else {
      var r, before := rs[|rs| - 1], rs[..|rs| - 1];
      assert rs == before + [r];
      SoFarPrefix(sets, k, before, r);
      hide World, SoFar, Built, Absorb;
      AbsorbAllBuilds(sets, k, before);
      BuildOne(sets, k, before, r, AbsorbAll(sets[k], before));
    }
  }

  lemma BuildOne(sets: seq<GroupsList>, k: nat, rs: seq<Record>, r: Record, gs: GroupsList)
    requires k < |sets| && World(sets) && SoFar(sets, k, rs + [r]) && Built(sets, k, rs, gs)
    ensures Built(sets, k, rs + [r], Absorb(gs, r))
  {
    var after, all := Absorb(gs, r), rs + [r];
    hide GroupBuilt, World, SoFar, AbsorbInto, Pairs;
    if r.name !in gs {
      NewGroup(sets, k, rs, r);
    }
    AbsorbKeepsBuilt(sets, k, rs, r, if r.name in gs then gs[r.name] else Group(r.id, false, 0, map[]));
    forall n | n in after
      ensures GroupBuilt(sets, k, all, n, after[n])
    {
      if n != r.name {
        OtherGroup(sets, k, rs, r, n, gs[n]);
      }
    }
    forall n
      ensures n in after <==> n in sets[k] || exists i :: 0 <= i < |all| && all[i].name == n
    {
      NamedMore(rs, r, n);
    }
  }

  lemma NamedMore(rs: seq<Record>, r: Record, n: Name)
    ensures (exists i :: 0 <= i < |rs + [r]| && (rs + [r])[i].name == n)
            <==> (exists i :: 0 <= i < |rs| && rs[i].name == n) || r.name == n
  {
    var all := rs + [r];
    assert all[|rs|] == r;
    if i :| 0 <= i < |rs| && rs[i].name == n {
      assert all[i].name == n;
    }
  }

  // ----- agreement

  /** The group as a daemon of set k has it after the exchange. */
  function AfterExchange(sets: seq<GroupsList>, k: nat, rs: seq<Record>, reg: MembId): GroupsList
    requires k < |sets|
  {
    SettleAll(AbsorbAll(sets[k], rs), reg)
  }

  /** Some set has changed the group, or two sets have it from different memberships. */
  ghost predicate Mixed(sets: seq<GroupsList>, n: Name) {
    || (exists j :: 0 <= j < |sets| && n in sets[j] && sets[j][n].changed)
    || (exists i, j :: 0 <= i < |sets| && 0 <= j < |sets| && n in sets[i] && n in sets[j]
                       && sets[i][n].id.memb != sets[j][n].id.memb)
  }

  /** All sets that hold the group have the same id for it. */
  ghost predicate OneId(sets: seq<GroupsList>, n: Name) {
    forall i, j :: 0 <= i < |sets| && 0 <= j < |sets| && n in sets[i] && n in sets[j] ==> sets[i][n].id == sets[j][n].id
  }

  lemma DeliveredSoFar(sets: seq<GroupsList>, k: nat, rs: seq<Record>)
    requires k < |sets| && Delivered(sets, k, rs)
    ensures SoFar(sets, k, rs)
  {
  }

  /** With everything delivered, the changed flag says whether the group is mixed. */
  lemma ChangedMeansMixed(sets: seq<GroupsList>, k: nat, rs: seq<Record>, n: Name, g: Group)
    requires k < |sets| && World(sets) && Delivered(sets, k, rs) && GroupBuilt(sets, k, rs, n, g)
    ensures g.changed <==> Mixed(sets, n)
  {
    assert HasId(sets, n, g.id);
    var m :| 0 <= m < |sets| && n in sets[m] && sets[m][n].id == g.id;
    if g.changed && !(n in sets[k] && sets[k][n].changed) {
      var i :| 0 <= i < |rs| && rs[i].name == n && Touches(rs[i], g.id.memb);
      TouchIsMixed(sets, k, rs[i], m);
    }
    if Mixed(sets, n) && !g.changed {
      MixedTouches(sets, k, rs, n, g, m);
    }
  }

  lemma TouchIsMixed(sets: seq<GroupsList>, k: nat, r: Record, m: nat)
    requires World(sets) && FromOther(sets, k, r) && m < |sets| && r.name in sets[m] && Touches(r, sets[m][r.name].id.memb)
    ensures Mixed(sets, r.name)
  {
    var j :| 0 <= j < |sets| && j != k && PartOf(r, sets[j]);
    assert Established(sets[j][r.name]);
    if !r.changed {
      var d :| d in r.daemons && r.daemons[d].memb != sets[m][r.name].id.memb;
      assert sets[j][r.name].id.memb != sets[m][r.name].id.memb;
    }
  }

  /** Whatever makes the group mixed has reached this daemon. */
  lemma MixedTouches(sets: seq<GroupsList>, k: nat, rs: seq<Record>, n: Name, g: Group, m: nat)
    requires k < |sets| && World(sets) && Delivered(sets, k, rs) && GroupBuilt(sets, k, rs, n, g)
    requires m < |sets| && n in sets[m] && sets[m][n].id == g.id && Mixed(sets, n)
    ensures g.changed
  {
    var memb, w := g.id.memb, k;
    if j :| 0 <= j < |sets| && n in sets[j] && sets[j][n].changed {
      w := j;
    } else {
      var i, j :| 0 <= i < |sets| && 0 <= j < |sets| && n in sets[i] && n in sets[j]
                  && sets[i][n].id.memb != sets[j][n].id.memb;
      w := if sets[i][n].id.memb != memb then i else j;
    }
    if w != k {
      SetTouches(sets, k, rs, n, w, memb);
    }
  }

  /** A record about a daemon of set j carries what set j says. */
  lemma SetTouches(sets: seq<GroupsList>, k: nat, rs: seq<Record>, n: Name, j: nat, memb: MembId)
    requires k < |sets| && World(sets) && Delivered(sets, k, rs) && j < |sets| && j != k && n in sets[j]
    requires sets[j][n].changed || sets[j][n].id.memb != memb
    ensures Touched(rs, n, memb)
  {
    assert Counted(sets[j][n]) && Established(sets[j][n]);
    var d := Inhabited(sets[j][n].daemons);
    assert InSome(rs, n, d);
    var i :| 0 <= i < |rs| && rs[i].name == n && d in rs[i].daemons;
    assert FromOther(sets, k, rs[i]);
    var l :| 0 <= l < |sets| && l != k && PartOf(rs[i], sets[l]);
    if j != l {
      Elsewhere(sets, j, l, n, d);
    }
    assert Touches(rs[i], memb);
  }

  lemma Elsewhere(sets: seq<GroupsList>, j: int, l: int, n: Name, d: int)
    requires World(sets) && 0 <= j < |sets| && 0 <= l < |sets| && j != l && n in sets[j] && n in sets[l]
    requires d in sets[j][n].daemons
    ensures d !in sets[l][n].daemons
  {
    if j < l {
      assert sets[j][n].daemons.Keys !! sets[l][n].daemons.Keys;
    } else {
      assert sets[l][n].daemons.Keys !! sets[j][n].daemons.Keys;
    }
  }

  lemma EmptyMap(m: map<int, Entry>)
    ensures (forall k :: k !in m) ==> m == map[]
  {
    if forall k :: k !in m {
      assert m == map[];
    }
  }

  lemma Inhabited(m: map<int, Entry>) returns (d: int)
    requires m != map[]
    ensures d in m
  {
    EmptyMap(m);
    d :| d in m;
  }

  /** Who is in the group does not depend on who looks. */
  lemma SameDaemons(sets: seq<GroupsList>, k: nat, rs: seq<Record>, k': nat, rs': seq<Record>, n: Name, g: Group, g': Group)
    requires k < |sets| && k' < |sets| && World(sets) && Delivered(sets, k, rs) && Delivered(sets, k', rs')
    requires GroupBuilt(sets, k, rs, n, g) && GroupBuilt(sets, k', rs', n, g')
    ensures g.daemons == g'.daemons && g.numMembers == g'.numMembers
  {
    hide GroupBuilt, Delivered, World, Pairs, FromSome;
    BuiltFacts(sets, k, rs, n, g);
    BuiltFacts(sets, k', rs', n, g');
    forall d
      ensures d in g.daemons <==> d in g'.daemons
    {
      Everybody(sets, k, rs, n, g, d);
      Everybody(sets, k', rs', n, g', d);
    }
    forall d | d in g.daemons
      ensures g.daemons[d] == g'.daemons[d]
    {
      SameEntry(sets, n, d, g.daemons[d], g'.daemons[d]);
    }
    assert g.daemons == g'.daemons;
  }

  lemma SameEntry(sets: seq<GroupsList>, n: Name, d: int, e: Entry, e': Entry)
    requires World(sets) && FromSome(sets, n, d, e) && FromSome(sets, n, d, e')
    ensures e == e'
  {
    var j :| 0 <= j < |sets| && n in sets[j] && d in sets[j][n].daemons && sets[j][n].daemons[d] == e;
    var l :| 0 <= l < |sets| && n in sets[l] && d in sets[l][n].daemons && sets[l][n].daemons[d] == e';
    if j != l {
      Elsewhere(sets, j, l, n, d);
    }
  }

  lemma Everybody(sets: seq<GroupsList>, k: nat, rs: seq<Record>, n: Name, g: Group, d: int)
    requires k < |sets| && Delivered(sets, k, rs) && GroupBuilt(sets, k, rs, n, g)
    ensures d in g.daemons <==> exists j :: 0 <= j < |sets| && n in sets[j] && d in sets[j][n].daemons
  {
    hide Pairs, HasId, Touched;
    if d in g.daemons {
      assert FromSome(sets, n, d, g.daemons[d]);
    }
    if j :| 0 <= j < |sets| && n in sets[j] && d in sets[j][n].daemons {
      assert j == k || InSome(rs, n, d);
    }
  }

  lemma SameNames(sets: seq<GroupsList>, k: nat, rs: seq<Record>, gs: GroupsList, n: Name)
    requires k < |sets| && World(sets) && Delivered(sets, k, rs) && Built(sets, k, rs, gs)
    ensures n in gs <==> exists j :: 0 <= j < |sets| && n in sets[j]
  {
    hide GroupBuilt, Established;
    if i :| 0 <= i < |rs| && rs[i].name == n {
      assert FromOther(sets, k, rs[i]);
      var j :| 0 <= j < |sets| && j != k && PartOf(rs[i], sets[j]);
      assert n in sets[j];
    }
    if j :| 0 <= j < |sets| && n in sets[j] {
      if j != k {
        assert Counted(sets[j][n]);
        var d := Inhabited(sets[j][n].daemons);
        assert InSome(rs, n, d);
      }
    }
  }

  /** One group, seen by two daemons. */
  lemma GroupAgrees(sets: seq<GroupsList>, k: nat, rs: seq<Record>, k': nat, rs': seq<Record>, n: Name, g: Group, g': Group, reg: MembId)
    requires k < |sets| && k' < |sets| && World(sets) && Delivered(sets, k, rs) && Delivered(sets, k', rs')
    requires GroupBuilt(sets, k, rs, n, g) && GroupBuilt(sets, k', rs', n, g')
    requires Mixed(sets, n) || OneId(sets, n)
    ensures Settle(g, reg) == Settle(g', reg)
  {
    SameDaemons(sets, k, rs, k', rs', n, g, g');
    ChangedMeansMixed(sets, k, rs, n, g);
    ChangedMeansMixed(sets, k', rs', n, g');
    if !Mixed(sets, n) {
      var j :| 0 <= j < |sets| && n in sets[j] && sets[j][n].id == g.id;
      var l :| 0 <= l < |sets| && n in sets[l] && sets[l][n].id == g'.id;
    }
    hide GroupBuilt, World, Delivered, Pairs;
  }

  /** Agreement: however the GROUPS messages of the other synced sets are split, chained and
      ordered at each daemon, all daemons end the exchange with the same groups, ids and members,
      provided no two sets hold a group under one membership id that neither has changed. */
  lemma ExchangeAgrees(sets: seq<GroupsList>, k: nat, rs: seq<Record>, k': nat, rs': seq<Record>, reg: MembId)
    requires k < |sets| && k' < |sets| && World(sets) && Delivered(sets, k, rs) && Delivered(sets, k', rs')
    requires forall n :: Mixed(sets, n) || OneId(sets, n)
    ensures AfterExchange(sets, k, rs, reg) == AfterExchange(sets, k', rs', reg)
  {
    DeliveredSoFar(sets, k, rs);
    DeliveredSoFar(sets, k', rs');
    AbsorbAllBuilds(sets, k, rs);
    AbsorbAllBuilds(sets, k', rs');
    var gs, gs' := AbsorbAll(sets[k], rs), AbsorbAll(sets[k'], rs');
    hide AbsorbAll, World, Delivered, SoFar, GroupBuilt, Mixed, OneId, Settle;
    forall n
      ensures n in gs <==> n in gs'
    {
      SameNames(sets, k, rs, gs, n);
      SameNames(sets, k', rs', gs', n);
    }
    forall n | n in gs
      ensures Settle(gs[n], reg) == Settle(gs'[n], reg)
    {
      GroupAgrees(sets, k, rs, k', rs', n, gs[n], gs'[n], reg);
    }
  }

  /** And only then: otherwise the daemons of two sets each keep their own id for the group. */
  lemma ExchangeDisagrees(sets: seq<GroupsList>, i: nat, j: nat, n: Name, ri: seq<Record>, rj: seq<Record>, reg: MembId)
    requires i < |sets| && j < |sets| && World(sets) && Delivered(sets, i, ri) && Delivered(sets, j, rj)
    requires n in sets[i] && n in sets[j] && sets[i][n].id != sets[j][n].id && !Mixed(sets, n)
    ensures n in AfterExchange(sets, i, ri, reg) && n in AfterExchange(sets, j, rj, reg)
    ensures AfterExchange(sets, i, ri, reg)[n].id == sets[i][n].id
    ensures AfterExchange(sets, j, rj, reg)[n].id == sets[j][n].id
  {
    OwnIdKept(sets, i, n, ri, reg);
    OwnIdKept(sets, j, n, rj, reg);
  }

  lemma OwnIdKept(sets: seq<GroupsList>, k: nat, n: Name, rs: seq<Record>, reg: MembId)
    requires k < |sets| && World(sets) && Delivered(sets, k, rs) && n in sets[k] && !Mixed(sets, n)
    ensures n in AfterExchange(sets, k, rs, reg) && AfterExchange(sets, k, rs, reg)[n].id == sets[k][n].id
  {
    DeliveredSoFar(sets, k, rs);
    AbsorbAllBuilds(sets, k, rs);
    var gs := AbsorbAll(sets[k], rs);
    hide AbsorbAll, World, Delivered, SoFar, Mixed, Pairs;
    assert GroupBuilt(sets, k, rs, n, gs[n]);
    ChangedMeansMixed(sets, k, rs, n, gs[n]);
  }

  /** Agreement, exactly: all daemons end with the same list, however the messages come, if and
      only if every group that several sets hold under different ids is changed by one of them or
      known to them from different memberships. */
  lemma ExchangeExactly(sets: seq<GroupsList>, reg: MembId)
    requires World(sets) && forall k :: 0 <= k < |sets| ==> CanBeDelivered(sets, k)
    ensures AlwaysAgree(sets, reg) <==> forall n :: Mixed(sets, n) || OneId(sets, n)
  {
    hide World, Delivered, Mixed, AfterExchange;
    if forall n :: Mixed(sets, n) || OneId(sets, n) {
      forall k, rs, k', rs' | 0 <= k < |sets| && 0 <= k' < |sets| && Delivered(sets, k, rs) && Delivered(sets, k', rs')
        ensures AfterExchange(sets, k, rs, reg) == AfterExchange(sets, k', rs', reg)
      {
        ExchangeAgrees(sets, k, rs, k', rs', reg);
      }
    } else {
      var n :| !Mixed(sets, n) && !OneId(sets, n);
      var i, j :| 0 <= i < |sets| && 0 <= j < |sets| && n in sets[i] && n in sets[j] && sets[i][n].id != sets[j][n].id;
      assert CanBeDelivered(sets, i) && CanBeDelivered(sets, j);
      var ri :| Delivered(sets, i, ri);
      var rj :| Delivered(sets, j, rj);
      ExchangeDisagrees(sets, i, j, n, ri, rj, reg);
    }
  }

  ghost predicate CanBeDelivered(sets: seq<GroupsList>, k: int)
    requires 0 <= k < |sets|
  {
    exists rs :: Delivered(sets, k, rs)
  }

  ghost predicate AlwaysAgree(sets: seq<GroupsList>, reg: MembId) {
    forall k, rs, k', rs' :: 0 <= k < |sets| && 0 <= k' < |sets| && Delivered(sets, k, rs) && Delivered(sets, k', rs') ==>
      AfterExchange(sets, k, rs, reg) == AfterExchange(sets, k', rs', reg)
  }
}
