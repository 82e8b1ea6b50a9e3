/** The new ring while its members recover the packets of their old rings: all daemons, the token
    with its requests, and a network that loses, delays, duplicates and reorders packets.

    The members are listed in the order in which the token will reach them, from the leader on. A
    run ends when the token reaches a daemon that has installed the new membership. */
module EvsRing {
  import opened Outcomes
  import opened Protocol
  import opened FormToken
  import opened Evs
  import A = AruCore
  import K = EvsCore
  import E = EvsTheorems

  /** A member of the new ring: its id, its old ring, its buffer, Set_aru and Last_token->aru. Once
      it has installed the new membership, `finish` is what it handed up in the old one. */
  datatype Survivor = Survivor(id: int, ring: int, r: Recovering, mark: int, prev: int, finish: Option<Finish>)

  /** Token->seq is 0 throughout. Requests carry the id of the old ring they are about. */
  datatype EvsToken = EvsToken(aru: int, lastId: int, rtr: map<int, seq<int>>)

  /** What was sent on each old ring, the entry that its members have read, and Last_seq. */
  datatype Past = Past(history: map<int, seq<Packet>>, entries: map<int, RingInfo>, lastSeq: int)

  datatype Sys =
    | Up(ring: seq<Survivor>, token: EvsToken)
    | Down(reason: string)

  /** `room` is how many numbers the holder may look at for requests; a hurried token has none. */
  datatype Step =
    | PassToken(room: nat, hurried: bool)
    | Arrive(i: nat, q: int)

  // ----- one visit

  /** The numbers among from..last that are neither there nor holes. */
  function Wanted(r: Recovering, from: int, last: int): seq<int>
    decreases last - from
  {
    if last < from then []
    else (if Exists(r, from) then [] else [from]) + Wanted(r, from + 1, last)
  }

  function Requested(t: EvsToken, ring: int): seq<int> {
    if ring in t.rtr then t.rtr[ring] else []
  }

  datatype Visited = Visited(daemon: Survivor, token: EvsToken)

  /** My_aru as it stands when the token is updated: Last_seq for a daemon that commits. */
  function Level(r: Recovering): int {
    Visit(r, 0).win.myAru
  }

  function Stamped(d: Survivor, t: EvsToken): Stamp {
    StampAru(d.id, d.mark, Level(d.r), d.r.win.highest, Token(0, t.aru, t.lastId, 0, 0, []))
  }

  /** The visit up to the new Aru. Nothing new is sent; requests of other rings stay on the token. */
  function PassOn(d: Survivor, t: EvsToken, room: nat): Visited {
    var my := AdvanceOver(d.r, d.r.win.myAru);
    var s := Stamped(d, t);
    Visited(d.(r := Visit(d.r, A.Min(s.aru, d.prev)), mark := s.mark, prev := s.aru),
            EvsToken(s.aru, s.lastId,
                     t.rtr[d.ring := Wanted(d.r, my + 1, A.Min(d.r.win.highest, my + room))]))
  }

  /** Aru has reached Last_seq: it is time for the final delivery. */
  predicate IsDue(r: Recovering) {
    r.win.aru == r.lastSeq && r.win.aru > r.win.lastDiscarded
  }

  /** Prot_handle_token in EVS. */
  function VisitToken(d: Survivor, t: EvsToken, room: nat, commit: set<int>): Outcome<Visited> {
    if !Answerable(d.r.win, Requested(t, d.ring)) then
      Exit("Answer_retrans: retrans requested below Aru")
    else
      var v := PassOn(d, t, room);
      if IsDue(v.daemon.r) then
        var f :- DiscardEvs(v.daemon.r, commit);
        Go(v.(daemon := v.daemon.(finish := Some(f))))
      else
        Go(v)
  }

  // ----- runs

  function Copy(t: EvsToken, hurried: bool): EvsToken {
    if hurried then t.(rtr := map[]) else t
  }

  /** Packets above an entry's highest number are the subject of EvsLate and do not arrive here. */
  ghost predicate Enabled(s: Sys, step: Step, past: Past) {
    s.Up? &&
    match step
    case PassToken(_, _) =>
      |s.ring| > 0 && s.ring[0].finish.None? && s.ring[0].ring in past.entries
    case Arrive(i, q) =>
      && i < |s.ring| && s.ring[i].finish.None?
      && s.ring[i].ring in past.entries && s.ring[i].ring in past.history
      && 0 < q <= past.entries[s.ring[i].ring].highest <= |past.history[s.ring[i].ring]|
  }

  function Commit(past: Past, ring: int): set<int>
    requires ring in past.entries
  {
    E.CommitSet(past.entries[ring])
  }

  function Received(d: Survivor, q: int, past: Past): Survivor
    requires d.ring in past.history && 0 < q <= |past.history[d.ring]|
  {
    d.(r := Receive(d.r, q, past.history[d.ring][q - 1]))
  }

  function Apply(s: Sys, step: Step, past: Past): Sys
    requires Enabled(s, step, past)
  {
    match step
    case PassToken(room, hurried) => (
      match VisitToken(s.ring[0], Copy(s.token, hurried), room, Commit(past, s.ring[0].ring))
      case Exit(reason) => Down(reason)
      case Go(v) => Up(s.ring[1..] + [v.daemon], v.token))
    case Arrive(i, q) =>
      s.(ring := s.ring[i := Received(s.ring[i], q, past)])
  }

  ghost predicate Next(s: Sys, s': Sys, past: Past) {
    exists step :: Enabled(s, step, past) && s' == Apply(s, step, past)
  }

  /** A daemon that has just read its ring's entry. Set_aru is whatever it was. */
  ghost predicate ReadyMember(d: Survivor, past: Past) {
    && d.ring in past.entries && d.ring in past.history
    && var e, h := past.entries[d.ring], past.history[d.ring];
       && EvsInv(d.r, e, h) && HandedUpKept(d.r.win)
       && d.r.win.highest == e.highest && d.r.win.aru == e.aru
       && !d.r.committed && d.r.lastSeq == past.lastSeq
       && -1 <= d.mark < past.lastSeq && d.prev == 0 && d.finish.None?
  }

  ghost predicate DistinctDaemons(ring: seq<Survivor>) {
    forall i, j :: 0 <= i < j < |ring| ==> ring[i].id != ring[j].id
  }

  /** FORM2 has been around and Conf_last has sent the first regular token; who last wrote its aru
      is left open. */
  ghost predicate Ready(s: Sys, past: Past) {
    && s.Up? && |s.ring| > 0 && 0 < past.lastSeq
    && s.token.aru == past.lastSeq && s.token.rtr == map[]
    && DistinctDaemons(s.ring)
    && forall i :: 0 <= i < |s.ring| ==> ReadyMember(s.ring[i], past)
  }

  // ----- what can go wrong

  /** Somebody has installed the new membership while somebody else still misses packets. */
  ghost predicate EarlyFinish(s: Sys)
    requires s.Up?
  {
    exists i, j :: 0 <= i < |s.ring| && 0 <= j < |s.ring| && s.ring[i].finish.Some? && !s.ring[j].r.committed
  }

  ghost predicate Trouble(s: Sys) {
    s.Down? || EarlyFinish(s)
  }

  // ----- down to the core

  predicate MissesNext(r: Recovering, v: int) {
    !Exists(r, v + 1)
  }

  /** Where My_aru can stand while packets are missing. */
  function Stops(r: Recovering): set<int> {
    set v | r.win.myAru <= v < r.win.highest && MissesNext(r, v)
  }

  /** Before the first visit Aru is still that of the entry; it bears on this ring's requests only. */
  function ToMember(d: Survivor): K.Member {
    K.Member(A.Cell(d.id, d.r.win.myAru, d.mark, d.prev, if d.prev == 0 then 0 else d.r.win.aru), Stops(d.r))
  }

  function ToMembers(ring: seq<Survivor>): (ms: seq<K.Member>)
    ensures |ms| == |ring| && forall i :: 0 <= i < |ring| ==> ms[i] == ToMember(ring[i])
  {
    seq(|ring|, i requires 0 <= i < |ring| => ToMember(ring[i]))
  }

  function ToCore(s: Sys): K.Core
    requires s.Up?
  {
    K.Core(ToMembers(s.ring), s.token.aru, s.token.lastId)
  }

  /** What can be checked when FORM2 has been read, daemon by daemon: My_aru, Highest_seq, the
      packets that are missing, and Set_aru. */
  ghost predicate Sound(s: Sys) {
    s.Up? && K.Sound(ToCore(s))
  }

  // ----- the invariant

  ghost predicate MemberOk(d: Survivor, past: Past) {
    && d.ring in past.entries && d.ring in past.history
    && var e, h := past.entries[d.ring], past.history[d.ring];
       && EvsInv(d.r, e, h) && HandedUpKept(d.r.win) && d.r.win.highest == e.highest
       && d.r.lastSeq == past.lastSeq && 0 <= d.prev <= past.lastSeq
       && (d.prev == 0 ==> d.r.win.aru <= e.aru)
       && (d.finish.Some? ==>
             d.r.committed && d.r.win.aru == past.lastSeq && DiscardEvs(d.r, Commit(past, d.ring)) == Go(d.finish.value))
  }

  ghost predicate RequestsOk(s: Sys)
    requires s.Up?
  {
    forall i :: 0 <= i < |s.ring| ==> AllFrom(Requested(s.token, s.ring[i].ring), s.ring[i].r.win.aru)
  }

  ghost predicate AllFrom(rtr: seq<int>, aru: int) {
    forall k :: 0 <= k < |rtr| ==> aru <= rtr[k]
  }

  ghost predicate Inv(s: Sys, past: Past) {
    && s.Up? && |s.ring| > 0 && 0 < past.lastSeq && 0 <= s.token.aru
    && DistinctDaemons(s.ring)
    && (forall i :: 0 <= i < |s.ring| ==> MemberOk(s.ring[i], past))
    && RequestsOk(s)
    && (|s.ring| > 1 ==> K.Inv(ToCore(s), past.lastSeq))
  }

  // ----- one daemon

  lemma EvsNumbers(r: Recovering, e: RingInfo, h: seq<Packet>)
    requires EvsInv(r, e, h)
    ensures 0 <= e.aru <= r.win.myAru <= r.lastSeq && 0 <= r.win.highest < r.lastSeq
    ensures r.win.lastDiscarded == e.aru < r.lastSeq
    ensures if r.committed then r.win.myAru == r.lastSeq else r.win.myAru <= r.win.highest
  {
    hide Recoverable, Exists;
    EvsBounds(r, e, h);
  }

  lemma {:induction false} AdvanceStops(r: Recovering, my: int)
    ensures var n := AdvanceOver(r, my);
            n >= r.win.highest || MissesNext(r, n)
    decreases r.win.highest - my
  {
    if my < r.win.highest && Exists(r, my + 1) {
      AdvanceStops(r, my + 1);
    }
  }

  /** Where a daemon stands at a visit: at one of its stops, or it has committed. */
  lemma LevelFacts(r: Recovering, e: RingInfo, h: seq<Packet>, aru: int)
    requires EvsInv(r, e, h)
    ensures r.win.myAru <= Level(r) <= r.lastSeq && Level(r) == Visit(r, aru).win.myAru
    ensures Visit(r, aru).committed <==> Level(r) == r.lastSeq
    ensures Level(r) < r.lastSeq ==> Level(r) in Stops(r) && Level(r) == AdvanceOver(r, r.win.myAru)
    ensures Level(r) == r.lastSeq <==> AdvanceOver(r, r.win.myAru) >= r.win.highest
    ensures Stops(Visit(r, aru)) <= Stops(r)
  {
    EvsNumbers(r, e, h);
    AdvanceOverFacts(r, r.win.myAru);
    AdvanceStops(r, r.win.myAru);
    var r1 := Visit(r, aru);
    assert forall v :: MissesNext(r1, v) <==> MissesNext(r, v);
    hide EvsInv, AdvanceOver, Exists, MissesNext;
  }

  lemma StopsInRange(r: Recovering, e: RingInfo, h: seq<Packet>)
    requires EvsInv(r, e, h)
    ensures forall v :: v in Stops(r) ==> 0 <= v < r.lastSeq
  {
    EvsNumbers(r, e, h);
  }

  lemma {:induction false} WantedExact(r: Recovering, from: int, last: int, q: int)
    ensures q in Wanted(r, from, last) <==> from <= q <= last && !Exists(r, q)
    decreases last - from
  {
    if from <= last {
      WantedExact(r, from + 1, last, q);
    }
  }

  // ----- the visit of the holder

  /** The numbers of the token update, on the holder alone. */
  lemma StampFacts(d: Survivor, t: EvsToken, last: int)
    requires d.r.win.highest < last && Level(d.r) <= last && (Level(d.r) < last ==> Level(d.r) < d.r.win.highest)
    ensures
      var st, m := Stamped(d, t), Level(d.r);
      && st.aru <= m
      && st == if t.aru == d.mark || t.lastId == d.id || t.aru == 0 then Stamp(m, d.id, if m < last then m else -1)
               else if t.aru > m then Stamp(m, d.id, m) else Stamp(t.aru, t.lastId, -1)
  {
    hide Level;
  }

  lemma VisitFields(r: Recovering, aru: int)
    ensures Visit(r, aru).win.aru == aru && Visit(r, aru).win.myAru == Level(r)
    ensures Visit(r, aru).win.lastDiscarded == r.win.lastDiscarded && Visit(r, aru).lastSeq == r.lastSeq
  {
    hide AdvanceOver;
  }

  /** The visit, if nothing exits, in the terms of the core. */
  lemma VisitIsCore(s: Sys, last: int, t: EvsToken, v: Visited)
    requires s.Up? && |s.ring| > 0 && t == s.token.(rtr := t.rtr) && 0 <= s.ring[0].prev && 0 <= s.token.aru
    requires var r := s.ring[0].r; r.win.highest < last && 0 <= Level(r) <= last && (Level(r) < last ==> Level(r) < r.win.highest)
    requires VisitedAs(s.ring[0], t, v)
    ensures
      ToCore(Up(s.ring[1..] + [v.daemon], v.token)) == K.Visit(ToCore(s), last, Level(s.ring[0].r), Stops(v.daemon.r))
  {
    var d := s.ring[0];
    StampFacts(d, t, last);
    VisitFields(d.r, A.Min(Stamped(d, t).aru, d.prev));
    hide Level, Stops, Stamped, Visit;
    var a, b := ToCore(Up(s.ring[1..] + [v.daemon], v.token)), K.Visit(ToCore(s), last, Level(d.r), Stops(v.daemon.r));
    var n := |s.ring|;
    assert a.ring[n - 1] == b.ring[n - 1];
    forall i | 0 <= i < n - 1
      ensures a.ring[i] == b.ring[i]
    {
      assert a.ring[i] == ToMember(s.ring[i + 1]) == ToCore(s).ring[i + 1];
    }
  }

  /** What a visit that does not exit makes of the holder and the token's aru. */
  ghost predicate VisitedAs(d: Survivor, t: EvsToken, v: Visited) {
    var st := Stamped(d, t);
    && v.token.aru == st.aru && v.token.lastId == st.lastId
    && v.daemon == d.(r := Visit(d.r, A.Min(st.aru, d.prev)), mark := st.mark, prev := st.aru, finish := v.daemon.finish)
  }

  /** A visit never exits while the requests are in order; only a committed daemon finishes. */
  lemma VisitGoes(d: Survivor, past: Past, t: EvsToken, room: nat)
    requires MemberOk(d, past) && d.finish.None? && AllFrom(Requested(t, d.ring), d.r.win.aru) && 0 <= t.aru
    ensures VisitToken(d, t, room, Commit(past, d.ring)).Go?
    ensures
      var v := VisitToken(d, t, room, Commit(past, d.ring)).value;
      && VisitedAs(d, t, v) && MemberOk(v.daemon, past)
      && 0 <= v.token.aru <= Level(d.r)
      && v.token.rtr == t.rtr[d.ring := Wanted(d.r, AdvanceOver(d.r, d.r.win.myAru) + 1,
                                               A.Min(d.r.win.highest, AdvanceOver(d.r, d.r.win.myAru) + room))]
      && (v.daemon.finish.Some? ==> v.daemon.r.committed)
  {
    var e, h := past.entries[d.ring], past.history[d.ring];
    var st := Stamped(d, t);
    var aru := A.Min(st.aru, d.prev);
    EvsNumbers(d.r, e, h);
    LevelFacts(d.r, e, h, aru);
    StampHere(d, past, t);
    VisitFields(d.r, aru);
    VisitKeeps(d.r, e, h, aru);
    var r := Visit(d.r, aru);
    hide EvsInv, Level, Stamped, AdvanceOver, Stops, HandedUpKept, Wanted, Visit, Complete;
    if aru == r.lastSeq {
      assert r.committed;
      CommittedComplete(r, e, h);
      FinishesExactly(r, Commit(past, d.ring));
    }
    hide DiscardEvs;
  }

  lemma CommittedComplete(r: Recovering, e: RingInfo, h: seq<Packet>)
    requires EvsInv(r, e, h) && r.committed && r.win.highest == e.highest
    ensures Complete(r)
  {
  }

  lemma StampHere(d: Survivor, past: Past, t: EvsToken)
    requires MemberOk(d, past) && 0 <= t.aru
    ensures 0 <= Stamped(d, t).aru <= Level(d.r) <= past.lastSeq
    ensures d.r.win.highest < past.lastSeq && (Level(d.r) < past.lastSeq ==> Level(d.r) < d.r.win.highest)
  {
    var e, h := past.entries[d.ring], past.history[d.ring];
    EvsNumbers(d.r, e, h);
    LevelFacts(d.r, e, h, 0);
    hide EvsInv, HandedUpKept, DiscardEvs, Level;
    StampFacts(d, t, past.lastSeq);
  }

  // ----- every step keeps the invariant

  /** In a ring of several, nobody's Aru is above what any member of the same old ring has. */
  lemma AruBelow(s: Sys, past: Past, i: nat, j: nat)
    requires Inv(s, past) && i < |s.ring| && j < |s.ring| && |s.ring| > 1
    requires s.ring[i].ring == s.ring[j].ring
    ensures s.ring[i].r.win.aru <= s.ring[j].r.win.myAru
  {
    assert MemberOk(s.ring[i], past) && MemberOk(s.ring[j], past);
    var e, h := past.entries[s.ring[j].ring], past.history[s.ring[j].ring];
    EvsNumbers(s.ring[j].r, e, h);
    CoreStable(ToCore(s), past.lastSeq, i, j);
    hide EvsInv, HandedUpKept, DiscardEvs, K.Inv, Stops;
    assert ToCore(s).ring[i].cell.aru == if s.ring[i].prev == 0 then 0 else s.ring[i].r.win.aru;
  }

  lemma CoreStable(c: K.Core, last: int, i: nat, j: nat)
    requires K.Inv(c, last) && i < |c.ring| && j < |c.ring|
    ensures c.ring[i].cell.aru <= c.ring[j].cell.my
  {
    hide K.Settled, K.Fresh, K.Sound, K.NoZero;
    assert K.Cells(c, last).ring[i].aru <= K.Cells(c, last).ring[j].my;
  }

  /** The core after the visit. */
  lemma PassCore(s: Sys, past: Past, t: EvsToken, v: Visited)
    requires Inv(s, past) && |s.ring| > 1 && t == s.token.(rtr := t.rtr) && VisitedAs(s.ring[0], t, v)
    ensures K.Inv(ToCore(Up(s.ring[1..] + [v.daemon], v.token)), past.lastSeq)
  {
    var d := s.ring[0];
    assert MemberOk(d, past);
    var e, h := past.entries[d.ring], past.history[d.ring];
    var stops := Stops(v.daemon.r);
    EvsNumbers(d.r, e, h);
    StampHere(d, past, t);
    LevelFacts(d.r, e, h, A.Min(Stamped(d, t).aru, d.prev));
    hide EvsInv, HandedUpKept, DiscardEvs, K.Inv, Stops, Stamped, Visit, RequestsOk, Level, K.Visit;
    VisitIsCore(s, past.lastSeq, t, v);
    assert ToCore(s).ring[0] == ToMember(d);
    K.VisitKeepsInv(ToCore(s), past.lastSeq, Level(d.r), stops);
  }

  /** The holder's new Aru and those of its old companions are at most what it has. */
  lemma CompanionAru(s: Sys, past: Past, t: EvsToken, v: Visited, i: nat)
    requires Inv(s, past) && VisitedAs(s.ring[0], t, v) && v.token.aru <= Level(s.ring[0].r)
    requires i < |s.ring| && (s.ring[1..] + [v.daemon])[i].ring == s.ring[0].ring
    ensures (s.ring[1..] + [v.daemon])[i].r.win.aru <= Level(s.ring[0].r)
  {
    var d := s.ring[0];
    assert MemberOk(d, past);
    LevelFacts(d.r, past.entries[d.ring], past.history[d.ring], 0);
    VisitFields(d.r, A.Min(Stamped(d, t).aru, d.prev));
    hide Level, Stamped, Visit, MemberOk, K.Inv, Stops, RequestsOk, DistinctDaemons;
    if i < |s.ring| - 1 {
      AruBelow(s, past, i + 1, 0);
    }
  }

  /** The holder's own requests, and those of the other rings. */
  lemma PassRequests(s: Sys, past: Past, t: EvsToken, room: nat, v: Visited)
    requires Inv(s, past) && t == s.token.(rtr := t.rtr) && VisitedAs(s.ring[0], t, v)
    requires t.rtr == s.token.rtr || t.rtr == map[]
    requires
      var d := s.ring[0];
      v.token.rtr == t.rtr[d.ring := Wanted(d.r, AdvanceOver(d.r, d.r.win.myAru) + 1,
                                            A.Min(d.r.win.highest, AdvanceOver(d.r, d.r.win.myAru) + room))]
    requires v.token.aru <= Level(s.ring[0].r)
    ensures RequestsOk(Up(s.ring[1..] + [v.daemon], v.token))
  {
    var d, n := s.ring[0], |s.ring|;
    var s' := Up(s.ring[1..] + [v.daemon], v.token);
    assert MemberOk(d, past) && v.daemon.ring == d.ring;
    hide Level, Stamped, Visit, AdvanceOver, Wanted, MemberOk, K.Inv, AllFrom, VisitedAs, DistinctDaemons;
    forall i | 0 <= i < n
      ensures AllFrom(Requested(s'.token, s'.ring[i].ring), s'.ring[i].r.win.aru)
    {
      var x := s'.ring[i];
      if x.ring == d.ring {
        CompanionAru(s, past, t, v, i);
        OwnRequests(d, past, room, x.r.win.aru);
      } else {
        assert x == s.ring[i + 1];
        assert AllFrom(Requested(s.token, x.ring), x.r.win.aru);
        NothingRequested(x.r.win.aru);
      }
    }
  }

  lemma NothingRequested(aru: int)
    ensures AllFrom([], aru)
  {
  }

  /** A daemon asks only for packets above its My_aru, and a committed one for none. */
  lemma OwnRequests(d: Survivor, past: Past, room: nat, aru: int)
    requires MemberOk(d, past) && aru <= Level(d.r)
    ensures
      var my := AdvanceOver(d.r, d.r.win.myAru);
      AllFrom(Wanted(d.r, my + 1, A.Min(d.r.win.highest, my + room)), aru)
  {
    var my := AdvanceOver(d.r, d.r.win.myAru);
    var rtr := Wanted(d.r, my + 1, A.Min(d.r.win.highest, my + room));
    LevelFacts(d.r, past.entries[d.ring], past.history[d.ring], 0);
    hide EvsInv, HandedUpKept, DiscardEvs, Level, Stops, AdvanceOver;
    forall k | 0 <= k < |rtr|
      ensures aru <= rtr[k]
    {
      WantedExact(d.r, my + 1, A.Min(d.r.win.highest, my + room), rtr[k]);
    }
  }

  lemma PassKeepsInv(s: Sys, past: Past, room: nat, hurried: bool)
    requires Inv(s, past) && Enabled(s, PassToken(room, hurried), past)
    ensures Inv(Apply(s, PassToken(room, hurried), past), past)
  {
    var d, t, n := s.ring[0], Copy(s.token, hurried), |s.ring|;
    assert MemberOk(d, past) && AllFrom(Requested(t, d.ring), d.r.win.aru);
    hide MemberOk, K.Inv, VisitToken, VisitedAs, RequestsOk, Level;
    VisitGoes(d, past, t, room);
    var v := VisitToken(d, t, room, Commit(past, d.ring)).value;
    var s' := Up(s.ring[1..] + [v.daemon], v.token);
    PassRequests(s, past, t, room, v);
    VisitedId(d, t, v);
    if n > 1 {
      PassCore(s, past, t, v);
    }
    forall i | 0 <= i < n
      ensures MemberOk(s'.ring[i], past)
    {
      assert i < n - 1 ==> s'.ring[i] == s.ring[i + 1];
    }
    Rotated(s.ring, v.daemon);
  }

  lemma VisitedId(d: Survivor, t: EvsToken, v: Visited)
    requires VisitedAs(d, t, v)
    ensures v.daemon.id == d.id && v.daemon.ring == d.ring
  {
  }

  lemma Rotated(ring: seq<Survivor>, d: Survivor)
    requires |ring| > 0 && DistinctDaemons(ring) && d.id == ring[0].id
    ensures DistinctDaemons(ring[1..] + [d])
  {
    var next := ring[1..] + [d];
    forall i, j | 0 <= i < j < |next|
      ensures next[i].id != next[j].id
    {
      assert next[i] == ring[i + 1];
      assert j < |next| - 1 ==> next[j] == ring[j + 1];
    }
  }

  /** A packet of the old ring moves My_aru forward and takes stops away. */
  lemma ReceivedFacts(r: Recovering, e: RingInfo, h: seq<Packet>, q: int)
    requires EvsInv(r, e, h) && HandedUpKept(r.win) && r.win.highest == e.highest && 0 < q <= e.highest <= |h|
    ensures
      var r1 := Receive(r, q, h[q - 1]);
      && EvsInv(r1, e, h) && HandedUpKept(r1.win) && r1.win.highest == e.highest
      && r.win.myAru <= r1.win.myAru <= r.lastSeq && Stops(r1) <= Stops(r)
      && r1.win.aru == r.win.aru && r1.lastSeq == r.lastSeq && (r1.committed <==> r.committed)
  {
    ReceiveKeeps(r, e, h, q);
    var r1 := Receive(r, q, h[q - 1]);
    EvsNumbers(r1, e, h);
    hide EvsInv, HandedUpKept;
    var w := r.(win := r.win.(slots := r.win.slots[q := Slot(h[q - 1], false)], highest := Max(r.win.highest, q)));
    AdvanceOverFacts(w, r.win.myAru);
    hide AdvanceOver;
    forall v | v in Stops(r1)
      ensures v in Stops(r)
    {
      assert MissesNext(r1, v);
      assert MissesNext(r, v);
    }
  }

  lemma ArriveKeepsInv(s: Sys, past: Past, i: nat, q: int)
    requires Inv(s, past) && Enabled(s, Arrive(i, q), past)
    ensures Inv(Apply(s, Arrive(i, q), past), past)
  {
    var d := s.ring[i];
    var d' := Received(d, q, past);
    assert MemberOk(d, past);
    ReceivedFacts(d.r, past.entries[d.ring], past.history[d.ring], q);
    hide EvsInv, HandedUpKept, Receive, DiscardEvs, Stops, K.Inv;
    var s' := s.(ring := s.ring[i := d']);
    assert MemberOk(d', past);
    hide MemberOk;
    assert RequestsOk(s');
    if |s.ring| > 1 {
      var c := ToCore(s);
      assert c.ring[i] == ToMember(d);
      K.ReceiveKeepsInv(c, past.lastSeq, i, d'.r.win.myAru, Stops(d'.r));
      assert ToCore(s') == K.Receive(c, i, d'.r.win.myAru, Stops(d'.r));
    }
  }

  lemma NextKeepsInv(s: Sys, s': Sys, past: Past)
    requires Inv(s, past) && Next(s, s', past)
    ensures Inv(s', past)
  {
    hide Inv, Enabled, Apply;
    var step :| Enabled(s, step, past) && s' == Apply(s, step, past);
    match step
    case PassToken(room, hurried) => PassKeepsInv(s, past, room, hurried);
    case Arrive(i, q) => ArriveKeepsInv(s, past, i, q);
  }

  // ----- the start

  lemma ReadyMemberOk(d: Survivor, past: Past)
    requires ReadyMember(d, past)
    ensures MemberOk(d, past)
  {
  }

  lemma ReadyCore(s: Sys, past: Past)
    requires Ready(s, past) && Sound(s) && |s.ring| > 1
    ensures K.Inv(ToCore(s), past.lastSeq)
  {
    var c := ToCore(s);
    forall i | 0 <= i < |s.ring|
      ensures K.StopsOk(c.ring[i], past.lastSeq) && 0 <= c.ring[i].cell.my <= past.lastSeq
      ensures c.ring[i].cell.prev == 0 && c.ring[i].cell.aru == 0 && -1 <= c.ring[i].cell.mark < past.lastSeq
    {
      var d := s.ring[i];
      assert ReadyMember(d, past);
      EvsNumbers(d.r, past.entries[d.ring], past.history[d.ring]);
      StopsInRange(d.r, past.entries[d.ring], past.history[d.ring]);
      hide ReadyMember, Stops;
    }
    hide Stops, ReadyMember, K.Sound;
    ReadyIds(s, past);
    assert K.Fresh(c, past.lastSeq);
    assert forall i :: 0 <= i < |c.ring| ==> 0 !in c.ring[i].stops by { SoundNoZero(c); }
    assert A.Safe(K.Cells(c, past.lastSeq));
  }

  lemma SoundNoZero(c: K.Core)
    requires K.Sound(c) && |c.ring| > 1
    ensures forall i :: 0 <= i < |c.ring| ==> 0 !in c.ring[i].stops
  {
  }

  lemma ReadyIds(s: Sys, past: Past)
    requires Ready(s, past)
    ensures A.DistinctIds(K.Cells(ToCore(s), past.lastSeq).ring)
  {
    hide ReadyMember, Stops;
    var cells := K.Cells(ToCore(s), past.lastSeq).ring;
    forall i, j | 0 <= i < j < |cells|
      ensures cells[i].id != cells[j].id
    {
      assert cells[i].id == s.ring[i].id && cells[j].id == s.ring[j].id;
    }
  }

  lemma ReadyInv(s: Sys, past: Past)
    requires Ready(s, past) && Sound(s)
    ensures Inv(s, past)
  {
    forall i | 0 <= i < |s.ring|
      ensures MemberOk(s.ring[i], past)
    {
      ReadyMemberOk(s.ring[i], past);
    }
    hide MemberOk, ReadyMember, Sound, K.Inv;
    if |s.ring| > 1 {
      ReadyCore(s, past);
    }
  }

  // ----- runs

  ghost predicate Path(path: seq<Sys>, s: Sys, t: Sys, past: Past) {
    && |path| > 0 && path[0] == s && path[|path| - 1] == t
    && forall i :: 0 <= i < |path| - 1 ==> Next(path[i], path[i + 1], past)
  }

  ghost predicate Reaches(s: Sys, t: Sys, past: Past) {
    exists path :: Path(path, s, t, past)
  }

  lemma {:induction false} PathKeepsInv(path: seq<Sys>, s: Sys, t: Sys, past: Past)
    requires Path(path, s, t, past) && Inv(s, past)
    ensures Inv(t, past)
    decreases |path|
  {
    hide Inv, Next;
    if |path| > 1 {
      var n := |path| - 1;
      PathKeepsInv(path[..n], s, path[n - 1], past);
      NextKeepsInv(path[n - 1], t, past);
    }
  }

  lemma InvNoTrouble(s: Sys, past: Past)
    requires Inv(s, past)
    ensures !Trouble(s)
  {
    hide K.Inv, RequestsOk;
    forall i, j | 0 <= i < |s.ring| && 0 <= j < |s.ring| && s.ring[i].finish.Some?
      ensures s.ring[j].r.committed
    {
      FinishedMeans(s, past, i, j);
    }
  }

  lemma FinishedMeans(s: Sys, past: Past, i: nat, j: nat)
    requires Inv(s, past) && i < |s.ring| && j < |s.ring| && s.ring[i].finish.Some?
    ensures s.ring[j].r.committed
  {
    assert MemberOk(s.ring[i], past) && MemberOk(s.ring[j], past);
    EvsNumbers(s.ring[i].r, past.entries[s.ring[i].ring], past.history[s.ring[i].ring]);
    EvsNumbers(s.ring[j].r, past.entries[s.ring[j].ring], past.history[s.ring[j].ring]);
    hide EvsInv, DiscardEvs, HandedUpKept, K.Inv, RequestsOk, Stops;
    if i != j {
      CoreStable(ToCore(s), past.lastSeq, i, j);
      assert s.ring[i].prev != 0;
    }
  }

  /** From a sound start no run gets into trouble: nobody is asked for a packet below its Aru, the
      final delivery never meets a gap, and nobody installs the membership before all have
      everything. */
  lemma SoundRuns(s: Sys, t: Sys, past: Past)
    requires Ready(s, past) && Sound(s) && Reaches(s, t, past)
    ensures Inv(t, past) && !Trouble(t)
  {
    hide Ready, Sound, Inv, Trouble;
    ReadyInv(s, past);
    var path :| Path(path, s, t, past);
    PathKeepsInv(path, s, t, past);
    InvNoTrouble(t, past);
  }
}
