/** The first pass of the form token: every member of an old ring folds what it holds of that
    ring's packets into the ring's entry on the token. */
module FormToken {
  import opened Outcomes
  import opened Protocol
  import W = WindowInvariant

  /** One ring_info with its two trailing lists: the holes, and the commit set whose first `trans`
      members are the ones that come through together. */
  datatype RingInfo = RingInfo(aru: int, highest: int, holes: seq<int>, trans: nat, commit: seq<int>)

  /** A daemon as the form token finds it: its buffer of old-ring packets and its Commit_set. */
  datatype Participant = Participant(id: int, win: Window, commit: seq<int>)

  const MAX_FORM_REPS := 20

  // ----- member lists

  /** Insert_member. */
  function Insert(s: seq<int>, x: int): seq<int> {
    if x in s then s else s + [x]
  }

  function InsertAll(s: seq<int>, xs: seq<int>): (r: seq<int>)
    ensures |s| <= |r|
    decreases |xs|
  {
    if xs == [] then s else InsertAll(Insert(s, xs[0]), xs[1..])
  }

  function Without(s: seq<int>, x: int): seq<int> {
    if s == [] then []
    else (if s[0] == x then [] else [s[0]]) + Without(s[1..], x)
  }

  // ----- one entry

  /** The first member of a ring to see the token starts the ring's entry. Fill_form1 looks for
      holes from Last_discarded + 1 on, Create_form1 from My_aru + 1 on. */
  function NewEntry(p: Participant): RingInfo {
    RingInfo(p.win.aru, p.win.highest, Missing(p.win.slots, p.win.lastDiscarded + 1, p.win.highest),
             1, [p.id] + Without(p.commit, p.id))
  }

  function CreatedEntry(p: Participant): RingInfo {
    NewEntry(p).(holes := Missing(p.win.slots, p.win.myAru + 1, p.win.highest))
  }

  /** The holes of the entry that the daemon cannot fill. */
  function StillMissing(holes: seq<int>, slots: map<int, Slot>): seq<int> {
    if holes == [] then []
    else (if holes[0] in slots then [] else [holes[0]]) + StillMissing(holes[1..], slots)
  }

  function Merge(e: RingInfo, p: Participant): (r: Outcome<RingInfo>)
    requires e.trans <= |e.commit|
    ensures r.Go? ==> r.value.trans <= |r.value.commit|
  {
    var trans := Insert(InsertAll([], e.commit[..e.trans]), p.id);
    if |trans| != e.trans + 1 then
      Exit("Fill_form1: incorrect trans set")
    else
      Go(RingInfo(Max(e.aru, p.win.aru), Max(e.highest, p.win.highest),
                  StillMissing(e.holes, p.win.slots) + Missing(p.win.slots, e.highest + 1, p.win.highest),
                  e.trans + 1, InsertAll(InsertAll(trans, e.commit[e.trans..]), p.commit)))
  }

  /** The entry after all of ps have been visited, in this order. */
  function Entry(ps: seq<Participant>): (r: Outcome<RingInfo>)
    requires |ps| > 0
    ensures r.Go? ==> r.value.trans <= |r.value.commit|
  {
    var n := |ps| - 1;
    if n == 0 then Go(NewEntry(ps[0]))
    else
      var e :- Entry(ps[..n]);
      Merge(e, ps[n])
  }

  lemma {:induction false} InsertAllKeeps(s: seq<int>, xs: seq<int>)
    ensures s <= InsertAll(s, xs)
    ensures forall x :: x in InsertAll(s, xs) <==> x in s || x in xs
    decreases |xs|
  {
    if xs != [] {
      InsertAllKeeps(Insert(s, xs[0]), xs[1..]);
    }
  }

  ghost predicate Distinct(s: seq<int>) {
    forall i, j :: 0 <= i < j < |s| ==> s[i] != s[j]
  }

  lemma {:induction false} InsertAllDistinct(s: seq<int>, xs: seq<int>)
    requires Distinct(s)
    ensures Distinct(InsertAll(s, xs))
    decreases |xs|
  {
    if xs != [] {
      InsertAllDistinct(Insert(s, xs[0]), xs[1..]);
    }
  }

  /** Inserting a list without duplicates that starts with s gives that list back. */
  lemma {:induction false} InsertAllSame(s: seq<int>, xs: seq<int>)
    requires Distinct(s + xs)
    ensures InsertAll(s, xs) == s + xs
    decreases |xs|
  {
    if xs == [] {
      assert s + xs == s;
    } else {
      assert s + [xs[0]] + xs[1..] == s + xs;
      assert xs[0] !in s by {
        assert (s + xs)[|s|] == xs[0];
        assert forall i :: 0 <= i < |s| ==> (s + xs)[i] == s[i];
      }
      InsertAllSame(s + [xs[0]], xs[1..]);
    }
  }

  lemma {:induction false} WithoutFacts(s: seq<int>, x: int)
    ensures forall y :: y in Without(s, x) <==> y in s && y != x
    ensures Distinct(s) ==> Distinct(Without(s, x))
  {
    if s != [] {
      WithoutFacts(s[1..], x);
      if Distinct(s) {
        assert forall i :: 0 < i < |s| ==> s[i] == s[1..][i - 1];
        assert s[0] !in s[1..];
      }
    }
  }

  // ----- what the old ring guarantees

  /** The members of the old ring that take part, over the packets h sent on it: each one's buffer
      is as the token protocol keeps it, and nobody has discarded what another one lacks. */
  ghost predicate OldRing(ps: seq<Participant>, h: seq<Packet>) {
    && (forall i :: 0 <= i < |ps| ==> W.Inv(ps[i].win, h) && Distinct(ps[i].commit))
    && (forall i, j :: 0 <= i < |ps| && 0 <= j < |ps| ==> ps[i].win.aru <= ps[j].win.myAru)
    && (forall i, j :: 0 <= i < j < |ps| ==> ps[i].id != ps[j].id)
  }

  ghost predicate Increasing(s: seq<int>) {
    forall i, j :: 0 <= i < j < |s| ==> s[i] < s[j]
  }

  /** Some of ps has received packet q. */
  ghost predicate SomeoneHas(ps: seq<Participant>, q: int) {
    exists i :: 0 <= i < |ps| && (q in ps[i].win.slots || q <= ps[i].win.lastDiscarded)
  }

  ghost predicate HolesExact(ps: seq<Participant>, e: RingInfo) {
    && Increasing(e.holes)
    && forall q :: q in e.holes <==> 0 < q <= e.highest && !SomeoneHas(ps, q)
  }

  /** The numbers of the entry are the largest of those of ps. */
  ghost predicate Maxima(ps: seq<Participant>, e: RingInfo) {
    && (forall i :: 0 <= i < |ps| ==> ps[i].win.aru <= e.aru && ps[i].win.highest <= e.highest)
    && (exists i :: 0 <= i < |ps| && ps[i].win.aru == e.aru)
    && (exists i :: 0 <= i < |ps| && ps[i].win.highest == e.highest)
  }

  /** x is one of ps or in the commit set of one of ps. */
  ghost predicate Named(ps: seq<Participant>, x: int) {
    exists i :: 0 <= i < |ps| && (x == ps[i].id || x in ps[i].commit)
  }

  /** The trans members are ps themselves, in order; the commit set is everybody anybody names. */
  ghost predicate CommitExact(ps: seq<Participant>, e: RingInfo) {
    && e.trans == |ps| <= |e.commit| && Distinct(e.commit)
    && (forall i :: 0 <= i < |ps| ==> e.commit[i] == ps[i].id)
    && (forall x :: x in e.commit <==> Named(ps, x))
  }

  // ----- the holes

  lemma {:induction false} MissingIncreasing(slots: map<int, Slot>, from: int, last: int)
    ensures Increasing(Missing(slots, from, last))
    ensures forall q :: q in Missing(slots, from, last) <==> from <= q <= last && q !in slots
    decreases last - from
  {
    if from <= last {
      MissingIncreasing(slots, from + 1, last);
      var rest := Missing(slots, from + 1, last);
      assert forall i :: 0 <= i < |rest| ==> rest[i] in rest;
    }
  }

  lemma {:induction false} StillMissingFacts(holes: seq<int>, slots: map<int, Slot>)
    requires Increasing(holes)
    ensures Increasing(StillMissing(holes, slots))
    ensures forall q :: q in StillMissing(holes, slots) <==> q in holes && q !in slots
  {
    if holes != [] {
      var rest := holes[1..];
      assert forall i :: 0 <= i < |rest| ==> rest[i] == holes[i + 1];
      StillMissingFacts(rest, slots);
      var more := StillMissing(rest, slots);
      forall q | q in more ensures holes[0] < q {
        assert q in rest;
        var i :| 0 <= i < |rest| && rest[i] == q;
      }
      assert forall i :: 0 <= i < |more| ==> more[i] in more;
    }
  }

  lemma ConcatIncreasing(a: seq<int>, b: seq<int>, m: int)
    requires Increasing(a) && Increasing(b)
    requires (forall q :: q in a ==> q <= m) && (forall q :: q in b ==> m < q)
    ensures Increasing(a + b)
  {
    assert forall i :: 0 <= i < |a| ==> a[i] in a;
    assert forall i :: 0 <= i < |b| ==> b[i] in b;
  }

  /** The creator lists what it misses above My_aru, in whatever state it is. */
  lemma CreatedHoles(p: Participant, q: int)
    ensures q in CreatedEntry(p).holes <==> p.win.myAru < q <= p.win.highest && q !in p.win.slots
  {
    W.MissingExact(p.win.slots, p.win.myAru + 1, p.win.highest, q);
  }

  /** Starting the search after Last_discarded or after My_aru finds the same holes. */
  lemma CreatedIsNew(p: Participant, h: seq<Packet>)
    requires W.Inv(p.win, h)
    ensures CreatedEntry(p) == NewEntry(p)
  {
    MissingSkips(p.win.slots, p.win.lastDiscarded + 1, p.win.myAru + 1, p.win.highest);
  }

  lemma {:induction false} MissingSkips(slots: map<int, Slot>, from: int, mid: int, last: int)
    requires from <= mid && forall q :: from <= q < mid ==> q in slots
    ensures Missing(slots, from, last) == Missing(slots, mid, last)
    decreases mid - from
  {
    if from < mid {
      MissingSkips(slots, from + 1, mid, last);
    }
  }

  lemma NewHoles(p: Participant, h: seq<Packet>)
    requires W.Inv(p.win, h)
    ensures HolesExact([p], NewEntry(p))
  {
    var e := NewEntry(p);
    assert W.Bounds(p.win, h);
    MissingIncreasing(p.win.slots, p.win.lastDiscarded + 1, p.win.highest);
    hide W.Inv, Missing;
    forall q
      ensures q in e.holes <==> 0 < q <= e.highest && !SomeoneHas([p], q)
    {
      if q in p.win.slots || q <= p.win.lastDiscarded {
        assert [p][0] == p;
        assert SomeoneHas([p], q);
      }
    }
  }

  /** The next member keeps exactly the holes it cannot fill, and adds those above. */
  lemma MergeHoles(ps: seq<Participant>, p: Participant, e: RingInfo, h: seq<Packet>)
    requires |ps| > 0 && OldRing(ps + [p], h) && e.trans <= |e.commit|
    requires HolesExact(ps, e) && Maxima(ps, e) && Merge(e, p).Go?
    ensures HolesExact(ps + [p], Merge(e, p).value)
  {
    hide Missing, StillMissing, W.Inv, InsertAll;
    StillMissingFacts(e.holes, p.win.slots);
    MissingIncreasing(p.win.slots, e.highest + 1, p.win.highest);
    var kept, added := StillMissing(e.holes, p.win.slots), Missing(p.win.slots, e.highest + 1, p.win.highest);
    ConcatIncreasing(kept, added, e.highest);
    var f := Merge(e, p).value;
    forall q
      ensures q in f.holes <==> 0 < q <= f.highest && !SomeoneHas(ps + [p], q)
    {
      SomeoneHasMore(ps, p, q);
      NobodyDiscarded(ps, p, e, h, q);
    }
  }

  lemma SomeoneHasMore(ps: seq<Participant>, p: Participant, q: int)
    ensures SomeoneHas(ps + [p], q) <==> SomeoneHas(ps, q) || q in p.win.slots || q <= p.win.lastDiscarded
  {
    var all := ps + [p];
    assert all[|ps|] == p;
    if SomeoneHas(ps, q) {
      var i :| 0 <= i < |ps| && (q in ps[i].win.slots || q <= ps[i].win.lastDiscarded);
      assert all[i] == ps[i];
    }
  }

  /** What p has discarded, the others have received; what is above their highest, they have not. */
  lemma NobodyDiscarded(ps: seq<Participant>, p: Participant, e: RingInfo, h: seq<Packet>, q: int)
    requires |ps| > 0 && OldRing(ps + [p], h) && Maxima(ps, e)
    ensures 0 < q <= p.win.lastDiscarded ==> SomeoneHas(ps, q) && q <= e.highest
    ensures q > e.highest ==> !SomeoneHas(ps, q)
    ensures 0 <= e.highest
  {
    var all := ps + [p];
    assert forall i :: 0 <= i < |ps| ==> all[i] == ps[i];
    assert all[|ps|] == p;
    assert W.Inv(all[0].win, h) && W.Inv(p.win, h);
    if 0 < q <= p.win.lastDiscarded {
      assert p.win.aru <= all[0].win.myAru;
      assert q in ps[0].win.slots || q <= ps[0].win.lastDiscarded;
    }
    if q > e.highest {
      forall i | 0 <= i < |ps|
        ensures !(q in ps[i].win.slots || q <= ps[i].win.lastDiscarded)
      {
        assert W.Inv(all[i].win, h);
        NothingAbove(all[i].win, h, q);
      }
    }
  }

  lemma NothingAbove(w: Window, h: seq<Packet>, q: int)
    requires W.Inv(w, h) && w.highest < q
    ensures q !in w.slots && w.lastDiscarded < q
  {
  }

  // ----- maxima and members

  lemma MergeMaxima(ps: seq<Participant>, p: Participant, e: RingInfo)
    requires Maxima(ps, e) && e.trans <= |e.commit| && Merge(e, p).Go?
    ensures Maxima(ps + [p], Merge(e, p).value)
  {
    hide Missing, StillMissing, InsertAll;
    var all, f := ps + [p], Merge(e, p).value;
    assert all[|ps|] == p;
    assert forall i :: 0 <= i < |ps| ==> all[i] == ps[i];
    var i :| 0 <= i < |ps| && ps[i].win.aru == e.aru;
    var j :| 0 <= j < |ps| && ps[j].win.highest == e.highest;
    assert all[i].win.aru == f.aru || p.win.aru == f.aru;
    assert all[j].win.highest == f.highest || p.win.highest == f.highest;
  }

  /** What merging does to the two lists: p becomes the next trans member, nobody is lost. */
  lemma MergedLists(e: RingInfo, p: Participant)
    requires e.trans <= |e.commit| && Distinct(e.commit) && Distinct(p.commit) && p.id !in e.commit[..e.trans]
    ensures Merge(e, p).Go?
    ensures var f := Merge(e, p).value;
            && f.trans == e.trans + 1 <= |f.commit| && Distinct(f.commit)
            && f.commit[..f.trans] == e.commit[..e.trans] + [p.id]
            && forall x :: x in f.commit <==> x in e.commit || x == p.id || x in p.commit
  {
    var n := e.trans;
    var ids, rest := e.commit[..n], e.commit[n..];
    assert e.commit == ids + rest;
    assert [] + ids == ids;
    InsertAllSame([], ids);
    var trans := ids + [p.id];
    assert Distinct(trans);
    hide InsertAll, Missing, StillMissing, Distinct;
    InsertAllKeeps(trans, rest);
    InsertAllDistinct(trans, rest);
    var c := InsertAll(trans, rest);
    InsertAllKeeps(c, p.commit);
    InsertAllDistinct(c, p.commit);
    assert trans <= InsertAll(c, p.commit);
  }

  lemma MergeCommit(ps: seq<Participant>, p: Participant, e: RingInfo)
    requires |ps| > 0 && CommitExact(ps, e) && Distinct(p.commit)
    requires forall i :: 0 <= i < |ps| ==> ps[i].id != p.id
    ensures Merge(e, p).Go?
    ensures CommitExact(ps + [p], Merge(e, p).value)
  {
    var all, n := ps + [p], |ps|;
    assert p.id !in e.commit[..n];
    MergedLists(e, p);
    hide Merge;
    var f := Merge(e, p).value;
    forall i | 0 <= i <= n
      ensures f.commit[i] == all[i].id
    {
      assert f.commit[i] == (e.commit[..n] + [p.id])[i];
    }
    forall x
      ensures x in f.commit <==> Named(all, x)
    {
      NamedMore(ps, p, x);
    }
  }

  lemma NamedMore(ps: seq<Participant>, p: Participant, x: int)
    ensures Named(ps + [p], x) <==> Named(ps, x) || x == p.id || x in p.commit
  {
    var all := ps + [p];
    assert all[|ps|] == p;
    if Named(ps, x) {
      var i :| 0 <= i < |ps| && (x == ps[i].id || x in ps[i].commit);
      assert all[i] == ps[i];
    }
  }

  lemma NewCommit(p: Participant)
    requires Distinct(p.commit)
    ensures CommitExact([p], NewEntry(p))
  {
    WithoutFacts(p.commit, p.id);
    var e := NewEntry(p);
    assert forall i :: 0 < i < |e.commit| ==> e.commit[i] in Without(p.commit, p.id);
    forall x
      ensures x in e.commit <==> Named([p], x)
    {
      assert [p][0] == p;
    }
  }

  /** After the token has visited any members ps of an old ring, the ring's entry lists exactly
      the packets up to the highest number any of them has seen that none of them has received,
      in increasing order; its aru and highest number are the maxima over ps; its trans members
      are ps in the order visited and its commit set is everybody ps names. The token never meets
      the "incorrect trans set" exit. */
  lemma {:induction false} EntryExact(ps: seq<Participant>, h: seq<Packet>)
    requires |ps| > 0 && OldRing(ps, h)
    ensures Entry(ps).Go?
    ensures var e := Entry(ps).value;
            HolesExact(ps, e) && Maxima(ps, e) && CommitExact(ps, e)
    decreases |ps|
  {
    var n := |ps| - 1;
    var p, before := ps[n], ps[..n];
    assert ps == before + [p];
    EntryUnfolds(before, p);
    hide OldRing, HolesExact, Maxima, CommitExact, NewEntry, Merge, Entry;
    if n == 0 {
      assert ps == [p];
      FirstExact(p, h);
    } else {
      OldRingPrefix(before, p, h);
      EntryExact(before, h);
      CommitTrans(before, Entry(before).value);
      NextExact(before, p, Entry(before).value, h);
    }
  }

  lemma EntryUnfolds(before: seq<Participant>, p: Participant)
    ensures before == [] ==> Entry(before + [p]) == Outcome<RingInfo>.Go(NewEntry(p))
    ensures before != [] && Entry(before).Go? ==> Entry(before + [p]) == Merge(Entry(before).value, p)
  {
    hide Merge, NewEntry;
    assert (before + [p])[..|before|] == before;
  }

  lemma CommitTrans(ps: seq<Participant>, e: RingInfo)
    requires CommitExact(ps, e)
    ensures e.trans <= |e.commit|
  {
  }

  lemma OldRingPrefix(ps: seq<Participant>, p: Participant, h: seq<Packet>)
    requires OldRing(ps + [p], h)
    ensures OldRing(ps, h)
  {
    hide W.Inv;
    var all := ps + [p];
    assert forall i :: 0 <= i < |ps| ==> all[i] == ps[i];
  }

  lemma FirstExact(p: Participant, h: seq<Packet>)
    requires OldRing([p], h)
    ensures var e := NewEntry(p); HolesExact([p], e) && Maxima([p], e) && CommitExact([p], e)
  {
    assert [p][0] == p;
    hide HolesExact, CommitExact, NewEntry, W.Inv;
    NewHoles(p, h);
    NewCommit(p);
    assert Maxima([p], NewEntry(p)) by { FirstMaxima(p); }
  }

  lemma FirstMaxima(p: Participant)
    ensures Maxima([p], NewEntry(p))
  {
    assert [p][0] == p;
  }

  lemma NextExact(ps: seq<Participant>, p: Participant, e: RingInfo, h: seq<Packet>)
    requires |ps| > 0 && OldRing(ps + [p], h) && HolesExact(ps, e) && Maxima(ps, e) && CommitExact(ps, e)
    ensures Merge(e, p).Go?
    ensures var f := Merge(e, p).value;
            HolesExact(ps + [p], f) && Maxima(ps + [p], f) && CommitExact(ps + [p], f)
  {
    var all := ps + [p];
    assert all[|ps|] == p;
    assert forall i :: 0 <= i < |ps| ==> all[i] == ps[i];
    hide Merge, HolesExact, Maxima, W.Inv;
    MergeCommit(ps, p, e);
    MergeMaxima(ps, p, e);
    MergeHoles(ps, p, e, h);
  }

  // ----- the loops of Fill_form1

  method ScanHoles(slots: map<int, Slot>, from: int, last: int) returns (holes: seq<int>)
    ensures holes == Missing(slots, from, last)
  {
    hide Missing;
    holes := [];
    var index := from;
    ghost var all := Missing(slots, from, last);
    while index <= last
      invariant holes + Missing(slots, index, last) == all
      decreases last - index
    {
      W.MissingStep(slots, index, last, holes);
      if index !in slots {
        holes := holes + [index];
      }
      index := index + 1;
    }
    W.MissingDone(slots, index, last);
  }

  method KeepHoles(holes: seq<int>, slots: map<int, Slot>) returns (kept: seq<int>)
    ensures kept == StillMissing(holes, slots)
  {
    kept := [];
    assert holes[0..] == holes;
    for i := 0 to |holes|
      invariant kept + StillMissing(holes[i..], slots) == StillMissing(holes, slots)
    {
      ghost var rest := StillMissing(holes[i + 1..], slots);
      assert holes[i..][1..] == holes[i + 1..];
      assert kept + ([holes[i]] + rest) == (kept + [holes[i]]) + rest;
      if holes[i] !in slots {
        kept := kept + [holes[i]];
      }
    }
  }

  method InsertMembers(s: seq<int>, xs: seq<int>) returns (r: seq<int>)
    ensures r == InsertAll(s, xs)
  {
    r := s;
    assert xs[0..] == xs;
    for i := 0 to |xs|
      invariant InsertAll(r, xs[i..]) == InsertAll(s, xs)
    {
      assert xs[i..][1..] == xs[i + 1..];
      if xs[i] !in r {
        r := r + [xs[i]];
      }
    }
  }

  /** Fill_form1 for a ring that already has an entry. */
  method FillEntry(e: RingInfo, p: Participant) returns (r: Outcome<RingInfo>)
    requires e.trans <= |e.commit|
    ensures r == Merge(e, p)
  {
    var aru, highest := p.win.aru, p.win.highest;
    if e.aru > aru {
      aru := e.aru;
    }
    if e.highest > highest {
      highest := e.highest;
    }
    var holes := KeepHoles(e.holes, p.win.slots);
    if e.highest < p.win.highest {
      var more := ScanHoles(p.win.slots, e.highest + 1, p.win.highest);
      holes := holes + more;
    } else {
      W.MissingDone(p.win.slots, e.highest + 1, p.win.highest);
      assert holes + [] == holes;
    }
    hide InsertAll, Missing, StillMissing;
    var trans := InsertMembers([], e.commit[..e.trans]);
    trans := InsertMembers(trans, [p.id]);
    InsertAllOne(InsertAll([], e.commit[..e.trans]), p.id);
    if |trans| != e.trans + 1 {
      return Exit("Fill_form1: incorrect trans set");
    }
    var commit := InsertMembers(trans, e.commit[e.trans..]);
    commit := InsertMembers(commit, p.commit);
    return Go(RingInfo(aru, highest, holes, e.trans + 1, commit));
  }

  lemma InsertAllOne(s: seq<int>, x: int)
    ensures InsertAll(s, [x]) == Insert(s, x)
  {
    assert InsertAll(Insert(s, x), []) == Insert(s, x);
  }

  // ----- several old rings on one token

  datatype MembId = MembId(proc: int, time: int)

  datatype RingEntry = RingEntry(memb: MembId, info: RingInfo)

  datatype Visitor = Visitor(memb: MembId, who: Participant)

  function Others(rings: seq<RingEntry>, memb: MembId): seq<RingEntry> {
    if rings == [] then []
    else (if rings[0].memb == memb then [] else [rings[0]]) + Others(rings[1..], memb)
  }

  /** The entry of one ring (the last one, were there several). */
  function Lookup(rings: seq<RingEntry>, memb: MembId): Option<RingInfo> {
    if rings == [] then None
    else
      var later := Lookup(rings[1..], memb);
      if later.None? && rings[0].memb == memb then Some(rings[0].info) else later
  }

  /** What Fill_form1 does with the list of entries: a daemon whose ring has none takes itself off
      the member list when the token is full. */
  function Fill(rings: seq<RingEntry>, v: Visitor): Outcome<seq<RingEntry>> {
    var others := Others(rings, v.memb);
    match Lookup(rings, v.memb)
    case None =>
      if |others| + 1 > MAX_FORM_REPS then Go(others)
      else Go(others + [RingEntry(v.memb, NewEntry(v.who))])
    case Some(mine) =>
      if mine.trans > |mine.commit| then Exit("Fill_form1: malformed entry")
      else
        var e :- Merge(mine, v.who);
        Go(others + [RingEntry(v.memb, e)])
  }

  function FillAll(vs: seq<Visitor>): Outcome<seq<RingEntry>> {
    if vs == [] then Go([])
    else
      var rings :- FillAll(vs[..|vs| - 1]);
      Fill(rings, vs[|vs| - 1])
  }

  /** The visitors from one ring, in order. */
  function Those(vs: seq<Visitor>, memb: MembId): seq<Participant> {
    if vs == [] then []
    else
      var v := vs[|vs| - 1];
      Those(vs[..|vs| - 1], memb) + (if v.memb == memb then [v.who] else [])
  }

  /** Every entry is that of its own ring alone, over all its visitors; rings are left out only
      when the token is full. */
  ghost predicate RingsExact(rings: seq<RingEntry>, vs: seq<Visitor>) {
    && |rings| <= MAX_FORM_REPS && OneEach(rings)
    && forall memb :: RingExact(rings, vs, memb)
  }

  ghost predicate OneEach(rings: seq<RingEntry>) {
    rings == [] || (Lookup(rings[1..], rings[0].memb).None? && OneEach(rings[1..]))
  }

  ghost predicate RingExact(rings: seq<RingEntry>, vs: seq<Visitor>, memb: MembId) {
    match Lookup(rings, memb)
    case None => Those(vs, memb) == [] || |rings| == MAX_FORM_REPS
    case Some(e) => Those(vs, memb) != [] && Entry(Those(vs, memb)) == Outcome<RingInfo>.Go(e)
  }

  lemma {:induction false} OthersFacts(rings: seq<RingEntry>, memb: MembId)
    ensures Lookup(Others(rings, memb), memb).None?
    ensures forall m :: m != memb ==> Lookup(Others(rings, memb), m) == Lookup(rings, m)
    ensures Lookup(rings, memb).None? ==> Others(rings, memb) == rings
    ensures OneEach(rings) ==> OneEach(Others(rings, memb))
    ensures OneEach(rings) && Lookup(rings, memb).Some? ==> |Others(rings, memb)| == |rings| - 1
  {
    if rings != [] {
      OthersFacts(rings[1..], memb);
      var rest := Others(rings[1..], memb);
      if rings[0].memb != memb {
        assert ([rings[0]] + rest)[1..] == rest;
      } else {
        assert [] + rest == rest;
      }
    }
  }

  lemma {:induction false} LookupAppend(rings: seq<RingEntry>, x: RingEntry, m: MembId)
    ensures Lookup(rings + [x], m) == if x.memb == m then Some(x.info) else Lookup(rings, m)
  {
    if rings == [] {
      assert [x][1..] == [];
    } else {
      assert (rings + [x])[1..] == rings[1..] + [x];
      LookupAppend(rings[1..], x, m);
    }
  }

  lemma {:induction false} OneEachAppend(rings: seq<RingEntry>, x: RingEntry)
    requires OneEach(rings) && Lookup(rings, x.memb).None?
    ensures OneEach(rings + [x])
  {
    if rings == [] {
      assert [x][1..] == [];
    } else {
      assert (rings + [x])[1..] == rings[1..] + [x];
      LookupAppend(rings[1..], x, rings[0].memb);
      OneEachAppend(rings[1..], x);
    }
  }

  ghost predicate EveryRing(vs: seq<Visitor>, hist: MembId -> seq<Packet>) {
    forall memb :: OldRing(Those(vs, memb), hist(memb))
  }

  lemma ThoseAppend(vs: seq<Visitor>, v: Visitor, memb: MembId)
    ensures Those(vs + [v], memb) == Those(vs, memb) + (if v.memb == memb then [v.who] else [])
  {
    assert (vs + [v])[..|vs|] == vs;
  }

  /** The form token keeps the old rings apart: whatever the order in which daemons of different
      rings are visited, the entry of each ring is the one its own members would have made alone. */
  lemma {:induction false} RingsStayApart(vs: seq<Visitor>, hist: MembId -> seq<Packet>)
    requires EveryRing(vs, hist)
    ensures FillAll(vs).Go? && RingsExact(FillAll(vs).value, vs)
    decreases |vs|
  {
    if vs == [] {
      assert forall memb :: RingExact([], [], memb);
    } else {
      var before, v := vs[..|vs| - 1], vs[|vs| - 1];
      assert vs == before + [v];
      forall memb
        ensures OldRing(Those(before, memb), hist(memb))
      {
        ThoseAppend(before, v, memb);
        assert OldRing(Those(vs, memb), hist(memb));
        if v.memb == memb {
          OldRingPrefix(Those(before, memb), v.who, hist(memb));
        } else {
          assert Those(before, memb) + [] == Those(before, memb);
        }
      }
      RingsStayApart(before, hist);
      ThoseAppend(before, v, v.memb);
      assert OldRing(Those(vs, v.memb), hist(v.memb));
      FillKeepsApart(FillAll(before).value, before, v, hist(v.memb));
    }
  }

  lemma FillKeepsApart(rings: seq<RingEntry>, vs: seq<Visitor>, v: Visitor, h: seq<Packet>)
    requires RingsExact(rings, vs) && OldRing(Those(vs, v.memb) + [v.who], h)
    ensures Fill(rings, v).Go? && RingsExact(Fill(rings, v).value, vs + [v])
  {
    hide OldRing, Entry, Merge, NewEntry;
    var ps := Those(vs, v.memb);
    EntryUnfolds(ps, v.who);
    EntryExact(ps + [v.who], h);
    assert RingExact(rings, vs, v.memb);
    OthersFacts(rings, v.memb);
    EntryOrNone(rings, vs, v, h);
    var after := Fill(rings, v).value;
    if after != Others(rings, v.memb) {
      OneEachAppend(Others(rings, v.memb), after[|after| - 1]);
    }
    forall memb
      ensures RingExact(after, vs + [v], memb)
    {
      ThoseAppend(vs, v, memb);
      assert RingExact(rings, vs, memb);
      assert Those(vs, memb) + [] == Those(vs, memb);
      if after != Others(rings, v.memb) {
        LookupAppend(Others(rings, v.memb), after[|after| - 1], memb);
      }
    }
  }

  /** The daemon's step succeeds: it appends the right entry, or there is no room. */
  lemma EntryOrNone(rings: seq<RingEntry>, vs: seq<Visitor>, v: Visitor, h: seq<Packet>)
    requires RingExact(rings, vs, v.memb) && |rings| <= MAX_FORM_REPS && OldRing(Those(vs, v.memb) + [v.who], h)
    ensures Fill(rings, v).Go?
    ensures
      var ps := Those(vs, v.memb);
      var others := Others(rings, v.memb);
      if Lookup(rings, v.memb).None? && |rings| == MAX_FORM_REPS then Fill(rings, v).value == others == rings
      else Entry(ps + [v.who]).Go? && Fill(rings, v).value == others + [RingEntry(v.memb, Entry(ps + [v.who]).value)]
  {
    hide OldRing, Merge, NewEntry, Entry;
    var ps := Those(vs, v.memb);
    EntryUnfolds(ps, v.who);
    EntryExact(ps + [v.who], h);
    OthersFacts(rings, v.memb);
    if Lookup(rings, v.memb).Some? {
      assert Entry(ps) == Outcome<RingInfo>.Go(Lookup(rings, v.memb).value);
    }
  }
}