/** Virtual-synchrony sets: the part of a membership message that tells a member of a group which
    of the others have come the same way as itself. */
module VsSets {
  import opened Outcomes
  import opened Groups
  import opened GroupsWire
  import opened GroupsBytes

  // ----- the order of the daemons

  predicate Unknown(m: MembId) {
    m.proc == -1
  }

  /** G_compare_memb_ids: unknown ids come last and are equal to each other. */
  function CompareMemb(a: MembId, b: MembId): int {
    if Unknown(a) && Unknown(b) then 0
    else if Unknown(a) then 1
    else if Unknown(b) then -1
    else if a.proc != b.proc then a.proc - b.proc
    else a.time - b.time
  }

  /** G_compare_daemon_vs_set; `rank` is the place of a daemon in the configuration. */
  function CompareDaemon(rank: int -> int, a: DaemonPart, b: DaemonPart): int {
    var c := CompareMemb(a.memb, b.memb);
    if c == 0 then rank(a.proc) - rank(b.proc) else c
  }

  ghost predicate InVsOrder(rank: int -> int, ds: seq<DaemonPart>) {
    forall i, j :: 0 <= i < j < |ds| ==> CompareDaemon(rank, ds[i], ds[j]) < 0
  }

  /** No two daemons have the same id or the same place. */
  ghost predicate Apart(rank: int -> int, ds: seq<DaemonPart>) {
    forall i, j :: 0 <= i < j < |ds| ==> ds[i].proc != ds[j].proc && rank(ds[i].proc) != rank(ds[j].proc)
  }

  function InsertDaemon(rank: int -> int, s: seq<DaemonPart>, d: DaemonPart): seq<DaemonPart> {
    if s == [] then [d]
    else if CompareDaemon(rank, d, s[0]) < 0 then [d] + s
    else [s[0]] + InsertDaemon(rank, s[1..], d)
  }

  function SortDaemons(rank: int -> int, ds: seq<DaemonPart>): seq<DaemonPart> {
    if ds == [] then [] else InsertDaemon(rank, SortDaemons(rank, ds[..|ds| - 1]), ds[|ds| - 1])
  }

  lemma CompareTransitive(rank: int -> int, a: DaemonPart, b: DaemonPart, c: DaemonPart)
    requires CompareDaemon(rank, a, b) < 0 && CompareDaemon(rank, b, c) < 0
    ensures CompareDaemon(rank, a, c) < 0
  {
  }

  lemma CompareTotal(rank: int -> int, a: DaemonPart, b: DaemonPart)
    requires rank(a.proc) != rank(b.proc)
    ensures CompareDaemon(rank, a, b) < 0 <==> CompareDaemon(rank, b, a) > 0
    ensures CompareDaemon(rank, a, b) != 0
  {
  }

  lemma {:induction false} InsertKeepsAll(rank: int -> int, s: seq<DaemonPart>, d: DaemonPart)
    ensures multiset(InsertDaemon(rank, s, d)) == multiset(s) + multiset{d}
    ensures forall x :: x in InsertDaemon(rank, s, d) ==> x == d || x in s
  {
    hide CompareDaemon;
    if s != [] {
      InsertKeepsAll(rank, s[1..], d);
      assert s == [s[0]] + s[1..];
    }
  }

  lemma {:induction false} InsertSorted(rank: int -> int, s: seq<DaemonPart>, d: DaemonPart)
    requires InVsOrder(rank, s) && forall i :: 0 <= i < |s| ==> rank(s[i].proc) != rank(d.proc)
    ensures InVsOrder(rank, InsertDaemon(rank, s, d))
  {
    hide CompareDaemon;
    if s != [] {
      CompareTotal(rank, d, s[0]);
      CompareTotal(rank, s[0], d);
      if CompareDaemon(rank, d, s[0]) < 0 {
        forall j | 1 <= j < |s|
          ensures CompareDaemon(rank, d, s[j]) < 0
        {
          CompareTransitive(rank, d, s[0], s[j]);
        }
      } else {
        var rest := InsertDaemon(rank, s[1..], d);
        InsertSorted(rank, s[1..], d);
        InsertKeepsAll(rank, s[1..], d);
        forall j | 0 <= j < |rest|
          ensures CompareDaemon(rank, s[0], rest[j]) < 0
        {
          assert rest[j] in rest;
        }
      }
    }
  }

  lemma {:induction false} SortedExact(rank: int -> int, ds: seq<DaemonPart>)
    requires Apart(rank, ds)
    ensures InVsOrder(rank, SortDaemons(rank, ds)) && multiset(SortDaemons(rank, ds)) == multiset(ds)
  {
    if ds != [] {
      var n := |ds| - 1;
      assert ds == ds[..n] + [ds[n]];
      SortedExact(rank, ds[..n]);
      var s := SortDaemons(rank, ds[..n]);
      forall i | 0 <= i < |s|
        ensures rank(s[i].proc) != rank(ds[n].proc)
      {
        assert s[i] in multiset(ds[..n]);
      }
      InsertSorted(rank, s, ds[n]);
      InsertKeepsAll(rank, s, ds[n]);
    }
  }

  // ----- the sets

  /** One set: the membership id it stands for, its daemons and the names listed. */
  datatype VsSet = VsSet(memb: MembId, procs: seq<int>, names: seq<Name>)

  datatype Built = Built(sets: seq<VsSet>, found: bool)

  datatype Listing = Listing(names: seq<Name>, found: bool)

  /** The members of one daemon, without the joiner, who is listed elsewhere. */
  function List(names: seq<Name>, joiner: Option<Name>, found: bool): Listing {
    if names == [] then Listing([], found)
    else
      var n := |names| - 1;
      var l := List(names[..n], joiner, found);
      if joiner.Some? && !l.found && joiner.value == names[n] then Listing(l.names, true)
      else Listing(l.names + [names[n]], l.found)
  }

  predicate Continues(sets: seq<VsSet>, memb: MembId) {
    sets != [] && !Unknown(sets[|sets| - 1].memb) && sets[|sets| - 1].memb == memb
  }

  function AddDaemon(b: Built, d: DaemonPart, joiner: Option<Name>): Built {
    var l := List(d.members, joiner, b.found);
    if Continues(b.sets, d.memb) then
      var n := |b.sets| - 1;
      Built(b.sets[..n] + [VsSet(d.memb, b.sets[n].procs + [d.proc], b.sets[n].names + l.names)], l.found)
    else
      Built(b.sets + [VsSet(d.memb, [d.proc], l.names)], l.found)
  }

  function Collect(ds: seq<DaemonPart>, joiner: Option<Name>): Built {
    if ds == [] then Built([], false) else AddDaemon(Collect(ds[..|ds| - 1], joiner), ds[|ds| - 1], joiner)
  }

  /** All sets, the joiner's last; None when the joiner is not a member, which is fatal. */
  function AllSets(ds: seq<DaemonPart>, joiner: Option<Name>): Option<seq<VsSet>> {
    var b := Collect(ds, joiner);
    match joiner
    case None => Some(b.sets)
    case Some(j) => if b.found then Some(b.sets + [VsSet(UNKNOWN, [], [j])]) else None
  }

  // ----- who shares a set

  ghost predicate In(sets: seq<VsSet>, a: int, p: int) {
    0 <= a < |sets| && p in sets[a].procs
  }

  /** Every daemon of a set is one of ds, with the set's id; every daemon is in a set. */
  ghost predicate Homes(ds: seq<DaemonPart>, sets: seq<VsSet>) {
    && (forall a, p :: In(sets, a, p) ==> FromDaemon(ds, sets[a].memb, p))
    && (forall i :: 0 <= i < |ds| ==> Housed(sets, ds[i].proc))
  }

  ghost predicate FromDaemon(ds: seq<DaemonPart>, memb: MembId, p: int) {
    exists i :: 0 <= i < |ds| && ds[i].proc == p && ds[i].memb == memb
  }

  ghost predicate Housed(sets: seq<VsSet>, p: int) {
    exists a :: In(sets, a, p)
  }

  /** No two sets share a daemon or a known id; an unknown id stands for one daemon. */
  ghost predicate Separate(sets: seq<VsSet>) {
    && (forall a, b, p :: In(sets, a, p) && In(sets, b, p) ==> a == b)
    && (forall a, b :: 0 <= a < b < |sets| ==> sets[a].memb != sets[b].memb || Unknown(sets[a].memb))
    && (forall a :: 0 <= a < |sets| && Unknown(sets[a].memb) ==> |sets[a].procs| == 1)
  }

  ghost predicate LastIs(ds: seq<DaemonPart>, sets: seq<VsSet>) {
    if ds == [] then sets == [] else sets != [] && sets[|sets| - 1].memb == ds[|ds| - 1].memb
  }

  lemma FromDaemonMore(ds: seq<DaemonPart>, d: DaemonPart, memb: MembId, p: int)
    ensures FromDaemon(ds, memb, p) ==> FromDaemon(ds + [d], memb, p)
    ensures FromDaemon(ds + [d], d.memb, d.proc)
  {
    assert (ds + [d])[|ds|] == d;
    if FromDaemon(ds, memb, p) {
      var i :| 0 <= i < |ds| && ds[i].proc == p && ds[i].memb == memb;
      assert (ds + [d])[i] == ds[i];
    }
  }

  /** How membership in sets changes when a daemon is added. */
  lemma InAfter(b: Built, d: DaemonPart, joiner: Option<Name>, a: int, p: int)
    ensures
      var sets := AddDaemon(b, d, joiner).sets;
      && In(sets, a, p) == (In(b.sets, a, p) || (a == |sets| - 1 && p == d.proc))
      && (0 <= a < |b.sets| ==> a < |sets| && sets[a].memb == b.sets[a].memb)
      && |sets| > 0 && sets[|sets| - 1].memb == d.memb
      && |sets| == (if Continues(b.sets, d.memb) then |b.sets| else |b.sets| + 1)
  {
    hide List;
  }

  lemma AddHomes(ds: seq<DaemonPart>, b: Built, d: DaemonPart, joiner: Option<Name>)
    requires Homes(ds, b.sets)
    ensures Homes(ds + [d], AddDaemon(b, d, joiner).sets)
  {
    hide AddDaemon, FromDaemon, Continues;
    var sets := AddDaemon(b, d, joiner).sets;
    forall a, p | In(sets, a, p)
      ensures FromDaemon(ds + [d], sets[a].memb, p)
    {
      InAfter(b, d, joiner, a, p);
      FromDaemonMore(ds, d, sets[a].memb, p);
    }
    forall i | 0 <= i < |ds + [d]|
      ensures Housed(sets, (ds + [d])[i].proc)
    {
      if i < |ds| {
        assert Housed(b.sets, ds[i].proc);
        var a :| In(b.sets, a, ds[i].proc);
        InAfter(b, d, joiner, a, ds[i].proc);
      } else {
        InAfter(b, d, joiner, |sets| - 1, d.proc);
      }
    }
  }

  lemma AddSeparate(ds: seq<DaemonPart>, b: Built, d: DaemonPart, joiner: Option<Name>)
    requires Separate(b.sets) && Homes(ds, b.sets)
    requires forall i :: 0 <= i < |ds| ==> ds[i].proc != d.proc
    requires !Continues(b.sets, d.memb) && !Unknown(d.memb) ==> forall i :: 0 <= i < |ds| ==> ds[i].memb != d.memb
    requires forall a :: 0 <= a < |b.sets| ==> b.sets[a].procs != []
    ensures Separate(AddDaemon(b, d, joiner).sets)
    ensures forall a :: 0 <= a < |AddDaemon(b, d, joiner).sets| ==> AddDaemon(b, d, joiner).sets[a].procs != []
  {
    var sets := AddDaemon(b, d, joiner).sets;
    forall a, c, p | In(sets, a, p) && In(sets, c, p)
      ensures a == c
    {
      InAfter(b, d, joiner, a, p);
      InAfter(b, d, joiner, c, p);
      NewProc(ds, b.sets, d, a);
      NewProc(ds, b.sets, d, c);
    }
    forall a, c | 0 <= a < c < |sets|
      ensures sets[a].memb != sets[c].memb || Unknown(sets[a].memb)
    {
      InAfter(b, d, joiner, a, 0);
      InAfter(b, d, joiner, c, 0);
      if c == |b.sets| {
        var p := b.sets[a].procs[0];
        assert In(b.sets, a, p);
      }
    }
  }

  lemma NewProc(ds: seq<DaemonPart>, sets: seq<VsSet>, d: DaemonPart, a: int)
    requires Homes(ds, sets) && forall i :: 0 <= i < |ds| ==> ds[i].proc != d.proc
    ensures !In(sets, a, d.proc)
  {
  }

  /** Daemons with one known id stand next to each other. */
  lemma Contiguous(rank: int -> int, ds: seq<DaemonPart>, i: nat, n: nat)
    requires InVsOrder(rank, ds) && i < n < |ds| && ds[i].memb == ds[n].memb && !Unknown(ds[n].memb)
    ensures ds[n - 1].memb == ds[n].memb
  {
    if i < n - 1 {
      assert CompareDaemon(rank, ds[i], ds[n - 1]) < 0;
    }
    assert CompareDaemon(rank, ds[n - 1], ds[n]) < 0;
  }

  /** A set is begun only for an id that has none. */
  lemma NewMembership(rank: int -> int, ds: seq<DaemonPart>, sets: seq<VsSet>)
    requires ds != [] && InVsOrder(rank, ds) && LastIs(ds[..|ds| - 1], sets)
    requires !Continues(sets, ds[|ds| - 1].memb) && !Unknown(ds[|ds| - 1].memb)
    ensures forall i :: 0 <= i < |ds| - 1 ==> ds[i].memb != ds[|ds| - 1].memb
  {
    var n := |ds| - 1;
    forall i | 0 <= i < n
      ensures ds[i].memb != ds[n].memb
    {
      if ds[i].memb == ds[n].memb {
        Contiguous(rank, ds, i, n);
      }
    }
  }

  ghost predicate SetsOk(ds: seq<DaemonPart>, sets: seq<VsSet>) {
    && Homes(ds, sets) && Separate(sets) && LastIs(ds, sets)
    && forall a :: 0 <= a < |sets| ==> sets[a].procs != []
  }

  /** d can follow ds: it is a new daemon, and its id is the last one's or new. */
  ghost predicate Follows(ds: seq<DaemonPart>, sets: seq<VsSet>, d: DaemonPart) {
    && (forall i :: 0 <= i < |ds| ==> ds[i].proc != d.proc)
    && (!Continues(sets, d.memb) && !Unknown(d.memb) ==> forall i :: 0 <= i < |ds| ==> ds[i].memb != d.memb)
  }

  lemma OrderFollows(rank: int -> int, ds: seq<DaemonPart>, sets: seq<VsSet>)
    requires ds != [] && InVsOrder(rank, ds) && Apart(rank, ds) && LastIs(ds[..|ds| - 1], sets)
    ensures Follows(ds[..|ds| - 1], sets, ds[|ds| - 1])
  {
    hide LastIs, InVsOrder, Continues;
    var n := |ds| - 1;
    if !Continues(sets, ds[n].memb) && !Unknown(ds[n].memb) {
      NewMembership(rank, ds, sets);
    }
  }

  lemma AddSetsOk(ds: seq<DaemonPart>, b: Built, d: DaemonPart, joiner: Option<Name>)
    requires SetsOk(ds, b.sets) && Follows(ds, b.sets, d)
    ensures SetsOk(ds + [d], AddDaemon(b, d, joiner).sets)
  {
    hide Homes, Separate, Continues, AddDaemon;
    AddHomes(ds, b, d, joiner);
    AddSeparate(ds, b, d, joiner);
    InAfter(b, d, joiner, 0, 0);
  }

  lemma FrontInOrder(rank: int -> int, ds: seq<DaemonPart>, n: nat)
    requires InVsOrder(rank, ds) && Apart(rank, ds) && n <= |ds|
    ensures InVsOrder(rank, ds[..n]) && Apart(rank, ds[..n])
  {
    hide CompareDaemon;
  }

  lemma {:induction false} CollectSeparates(rank: int -> int, ds: seq<DaemonPart>, joiner: Option<Name>)
    requires InVsOrder(rank, ds) && Apart(rank, ds)
    ensures SetsOk(ds, Collect(ds, joiner).sets)
  {
    if ds != [] {
      hide InVsOrder, Apart, AddDaemon, Follows, Homes, Separate;
      var n := |ds| - 1;
      FrontInOrder(rank, ds, n);
      CollectSeparates(rank, ds[..n], joiner);
      OrderFollows(rank, ds, Collect(ds[..n], joiner).sets);
      assert ds == ds[..n] + [ds[n]];
      AddSetsOk(ds[..n], Collect(ds[..n], joiner), ds[n], joiner);
    }
  }

  ghost predicate Together(sets: seq<VsSet>, p: int, q: int) {
    exists a :: In(sets, a, p) && In(sets, a, q)
  }

  /** Two daemons' members share a set exactly if they are at one daemon or come from one known
      membership. */
  lemma SameSetExactly(rank: int -> int, ds: seq<DaemonPart>, joiner: Option<Name>, i: nat, j: nat)
    requires InVsOrder(rank, ds) && Apart(rank, ds) && i < |ds| && j < |ds|
    ensures Together(Collect(ds, joiner).sets, ds[i].proc, ds[j].proc)
        <==> i == j || (ds[i].memb == ds[j].memb && ds[i].memb.proc != -1)
  {
    hide InVsOrder, Collect;
    var sets := Collect(ds, joiner).sets;
    CollectSeparates(rank, ds, joiner);
    assert Housed(sets, ds[i].proc) && Housed(sets, ds[j].proc);
    var a :| In(sets, a, ds[i].proc);
    var b :| In(sets, b, ds[j].proc);
    HomeMemb(ds, sets, a, i);
    HomeMemb(ds, sets, b, j);
    if i == j {
      assert Together(sets, ds[i].proc, ds[j].proc);
    } else if ds[i].memb == ds[j].memb && !Unknown(ds[i].memb) {
      assert a == b;
    } else if Together(sets, ds[i].proc, ds[j].proc) {
      var c :| In(sets, c, ds[i].proc) && In(sets, c, ds[j].proc);
      assert c == a && c == b;
      OneDaemon(sets[c].procs, ds[i].proc, ds[j].proc);
    }
  }

  lemma OneDaemon(procs: seq<int>, p: int, q: int)
    requires p in procs && q in procs && p != q
    ensures |procs| > 1
  {
  }

  lemma HomeMemb(ds: seq<DaemonPart>, sets: seq<VsSet>, a: int, i: nat)
    requires Homes(ds, sets) && i < |ds| && In(sets, a, ds[i].proc)
    requires forall j, k :: 0 <= j < k < |ds| ==> ds[j].proc != ds[k].proc
    ensures 0 <= a < |sets| && sets[a].memb == ds[i].memb
  {
    assert FromDaemon(ds, sets[a].memb, ds[i].proc);
  }

  // ----- the names

  function Names(sets: seq<VsSet>): seq<Name> {
    if sets == [] then [] else Names(sets[..|sets| - 1]) + sets[|sets| - 1].names
  }

  function Members(ds: seq<DaemonPart>): seq<Name> {
    if ds == [] then [] else Members(ds[..|ds| - 1]) + ds[|ds| - 1].members
  }

  lemma NamesAppend(sets: seq<VsSet>, s: VsSet)
    ensures Names(sets + [s]) == Names(sets) + s.names
  {
    assert (sets + [s])[..|sets|] == sets;
  }

  /** Listing loses nobody but the joiner, and him at most once. */
  lemma {:induction false} ListExact(names: seq<Name>, joiner: Option<Name>, found: bool)
    ensures
      var l := List(names, joiner, found);
      && (found ==> l.found)
      && (if l.found && !found then joiner.Some? && multiset(names) == multiset(l.names) + multiset{joiner.value}
          else multiset(names) == multiset(l.names))
      && (joiner.Some? && joiner.value in names ==> l.found)
  {
    if names != [] {
      var n := |names| - 1;
      assert names == names[..n] + [names[n]];
      ListExact(names[..n], joiner, found);
    }
  }

  lemma AddNames(b: Built, d: DaemonPart, joiner: Option<Name>)
    ensures Names(AddDaemon(b, d, joiner).sets) == Names(b.sets) + List(d.members, joiner, b.found).names
  {
    var l := List(d.members, joiner, b.found);
    var n := |b.sets| - 1;
    if Continues(b.sets, d.memb) {
      var s := VsSet(d.memb, b.sets[n].procs + [d.proc], b.sets[n].names + l.names);
      NamesAppend(b.sets[..n], s);
      assert Names(b.sets) == Names(b.sets[..n]) + b.sets[n].names;
    } else {
      NamesAppend(b.sets, VsSet(d.memb, [d.proc], l.names));
    }
  }

  /** `names` are all of `all`, but for the joiner if he has been found. */
  ghost predicate Tally(all: seq<Name>, names: seq<Name>, joiner: Option<Name>, found: bool) {
    if found then joiner.Some? && multiset(all) == multiset(names) + multiset{joiner.value}
    else multiset(all) == multiset(names) && (joiner.Some? ==> joiner.value !in all)
  }

  lemma TallyMore(all: seq<Name>, names: seq<Name>, more: seq<Name>, joiner: Option<Name>, found: bool)
    requires Tally(all, names, joiner, found)
    ensures var l := List(more, joiner, found); Tally(all + more, names + l.names, joiner, l.found)
  {
    ListExact(more, joiner, found);
    hide List;
  }

  lemma {:induction false} CollectNames(ds: seq<DaemonPart>, joiner: Option<Name>)
    ensures var b := Collect(ds, joiner); Tally(Members(ds), Names(b.sets), joiner, b.found)
  {
    if ds != [] {
      hide List, Names, AddDaemon, Tally;
      var n := |ds| - 1;
      var b := Collect(ds[..n], joiner);
      CollectNames(ds[..n], joiner);
      AddNames(b, ds[n], joiner);
      CollectFound(ds, joiner);
      TallyMore(Members(ds[..n]), Names(b.sets), ds[n].members, joiner, b.found);
    }
  }

  lemma CollectFound(ds: seq<DaemonPart>, joiner: Option<Name>)
    requires ds != []
    ensures
      var n := |ds| - 1;
      Collect(ds, joiner).found == List(ds[n].members, joiner, Collect(ds[..n], joiner).found).found
  {
    hide List;
  }

  /** Every member of the group is listed, each once; a joiner is alone in the last set; the only
      fatal case is a joiner who is not a member. */
  lemma EveryoneListed(ds: seq<DaemonPart>, joiner: Option<Name>)
    ensures AllSets(ds, joiner).Some? <==> (joiner.Some? ==> joiner.value in Members(ds))
    ensures AllSets(ds, joiner).Some? ==>
      var sets := AllSets(ds, joiner).value;
      && multiset(Names(sets)) == multiset(Members(ds))
      && (joiner.Some? ==> sets != [] && sets[|sets| - 1].names == [joiner.value])
  {
    hide Names, Members, Collect;
    CollectNames(ds, joiner);
    if joiner.Some? {
      NamesAppend(Collect(ds, joiner).sets, VsSet(UNKNOWN, [], [joiner.value]));
      assert joiner.value in Members(ds) <==> joiner.value in multiset(Members(ds));
    }
  }

  /** x is a member at one of the set's daemons. */
  ghost predicate MemberOf(ds: seq<DaemonPart>, s: VsSet, x: Name) {
    exists i :: 0 <= i < |ds| && ds[i].proc in s.procs && x in ds[i].members
  }

  /** The names of a set are those of its daemons' members, but for the joiner. */
  ghost predicate NamesOk(ds: seq<DaemonPart>, sets: seq<VsSet>, joiner: Option<Name>) {
    && (forall a, x :: 0 <= a < |sets| && x in sets[a].names ==> MemberOf(ds, sets[a], x))
    && (forall a, i, x :: 0 <= i < |ds| && In(sets, a, ds[i].proc) && x in ds[i].members && Some(x) != joiner ==>
          x in sets[a].names)
  }

  lemma ListContains(names: seq<Name>, joiner: Option<Name>, found: bool, x: Name)
    ensures x in List(names, joiner, found).names ==> x in names
    ensures x in names && Some(x) != joiner ==> x in List(names, joiner, found).names
  {
    ListExact(names, joiner, found);
    var l := List(names, joiner, found).names;
    assert x in names <==> x in multiset(names);
    assert x in l <==> x in multiset(l);
  }

  lemma NamesAfter(b: Built, d: DaemonPart, joiner: Option<Name>, a: int, x: Name)
    ensures
      var sets := AddDaemon(b, d, joiner).sets;
      0 <= a < |sets| ==>
        (x in sets[a].names <==>
          (a < |b.sets| && x in b.sets[a].names) || (a == |sets| - 1 && x in List(d.members, joiner, b.found).names))
  {
    hide List;
  }

  lemma AddNamesOk(ds: seq<DaemonPart>, b: Built, d: DaemonPart, joiner: Option<Name>)
    requires NamesOk(ds, b.sets, joiner) && Homes(ds, b.sets)
    requires forall i :: 0 <= i < |ds| ==> ds[i].proc != d.proc
    ensures NamesOk(ds + [d], AddDaemon(b, d, joiner).sets, joiner)
  {
    hide AddDaemon, Continues, List, MemberOf;
    var sets := AddDaemon(b, d, joiner).sets;
    forall a, x | 0 <= a < |sets| && x in sets[a].names
      ensures MemberOf(ds + [d], sets[a], x)
    {
      NamesAfter(b, d, joiner, a, x);
      ListContains(d.members, joiner, b.found, x);
      InAfter(b, d, joiner, a, d.proc);
      if a < |b.sets| && x in b.sets[a].names {
        MemberMore(ds, b, d, joiner, a, x);
      } else {
        MemberHere(ds, d, sets[a], x);
      }
    }
    forall a, i, x | 0 <= i < |ds + [d]| && In(sets, a, (ds + [d])[i].proc) && x in (ds + [d])[i].members && Some(x) != joiner
      ensures x in sets[a].names
    {
      NamesAfter(b, d, joiner, a, x);
      ListContains(d.members, joiner, b.found, x);
      InAfter(b, d, joiner, a, (ds + [d])[i].proc);
      NewProc(ds, b.sets, d, a);
    }
  }

  lemma MemberHere(ds: seq<DaemonPart>, d: DaemonPart, s: VsSet, x: Name)
    requires d.proc in s.procs && x in d.members
    ensures MemberOf(ds + [d], s, x)
  {
    assert (ds + [d])[|ds|] == d;
  }

  lemma MemberMore(ds: seq<DaemonPart>, b: Built, d: DaemonPart, joiner: Option<Name>, a: int, x: Name)
    requires 0 <= a < |b.sets| && MemberOf(ds, b.sets[a], x)
    ensures a < |AddDaemon(b, d, joiner).sets| && MemberOf(ds + [d], AddDaemon(b, d, joiner).sets[a], x)
  {
    var sets := AddDaemon(b, d, joiner).sets;
    InAfter(b, d, joiner, a, d.proc);
    hide AddDaemon;
    var i :| 0 <= i < |ds| && ds[i].proc in b.sets[a].procs && x in ds[i].members;
    InAfter(b, d, joiner, a, ds[i].proc);
    assert (ds + [d])[i] == ds[i];
    assert In(b.sets, a, ds[i].proc);
  }

  lemma {:induction false} CollectNamesOk(rank: int -> int, ds: seq<DaemonPart>, joiner: Option<Name>)
    requires InVsOrder(rank, ds) && Apart(rank, ds)
    ensures NamesOk(ds, Collect(ds, joiner).sets, joiner)
  {
    if ds != [] {
      var n := |ds| - 1;
      assert ds == ds[..n] + [ds[n]];
      CollectSeparates(rank, ds[..n], joiner);
      CollectNamesOk(rank, ds[..n], joiner);
      hide NamesOk, Homes, AddDaemon, Separate;
      AddNamesOk(ds[..n], Collect(ds[..n], joiner), ds[n], joiner);
    }
  }

  // ----- the bytes

  function SetBytes(s: VsSet): seq<Byte> {
    Put(|s.names|, 4) + PutNames(s.names)
  }

  /** The region of the message that holds the sets. */
  function Region(sets: seq<VsSet>): seq<Byte> {
    if sets == [] then [] else Region(sets[..|sets| - 1]) + SetBytes(sets[|sets| - 1])
  }

  /** What a client reads at an offset into the region. */
  function ReadSet(region: seq<Byte>, offset: nat): Option<seq<Name>> {
    if |region| < offset + 4 then None
    else
      match TakeNames(region[offset + 4..], Get(region[offset..offset + 4]))
      case None => None
      case Some(r) => Some(r.value)
  }

  ghost predicate FieldsOk(sets: seq<VsSet>) {
    forall a :: 0 <= a < |sets| ==> SetFits(sets[a])
  }

  ghost predicate SetFits(s: VsSet) {
    |s.names| < 0x1_0000_0000 && forall i :: 0 <= i < |s.names| ==> |s.names[i]| == MAX_GROUP_NAME
  }

  lemma RegionAppend(sets: seq<VsSet>, s: VsSet)
    ensures Region(sets + [s]) == Region(sets) + SetBytes(s)
  {
    assert (sets + [s])[..|sets|] == sets;
  }

  lemma {:induction false} RegionConcat(sets: seq<VsSet>, more: seq<VsSet>)
    ensures Region(sets + more) == Region(sets) + Region(more)
    decreases |more|
  {
    hide SetBytes;
    if more == [] {
      assert sets + more == sets;
    } else {
      var n := |more| - 1;
      RegionConcat(sets, more[..n]);
      assert sets + more == sets + more[..n] + [more[n]];
      RegionAppend(sets + more[..n], more[n]);
      Associative(Region(sets), Region(more[..n]), SetBytes(more[n]));
    }
  }

  lemma ReadBack(front: seq<Byte>, s: VsSet, tail: seq<Byte>)
    requires SetFits(s)
    ensures ReadSet(front + SetBytes(s) + tail, |front|) == Some(s.names)
  {
    var region, o := front + SetBytes(s) + tail, |front|;
    var size := Put(|s.names|, 4);
    assert region == front + size + (PutNames(s.names) + tail);
    assert region[o..o + 4] == size;
    assert region[o + 4..] == PutNames(s.names) + tail;
    GetPut4(|s.names|);
    NamesBack(s.names, tail);
  }

  /** Reading at the place where a set starts gives that set. */
  lemma SetReadBack(sets: seq<VsSet>, a: nat)
    requires FieldsOk(sets) && a < |sets|
    ensures ReadSet(Region(sets), |Region(sets[..a])|) == Some(sets[a].names)
  {
    hide SetFits, Region, SetBytes, ReadSet;
    RegionConcat(sets[..a + 1], sets[a + 1..]);
    assert sets == sets[..a + 1] + sets[a + 1..];
    assert sets[..a + 1] == sets[..a] + [sets[a]];
    RegionAppend(sets[..a], sets[a]);
    ReadBack(Region(sets[..a]), sets[a], Region(sets[a + 1..]));
  }

  const GROUP_ID_SIZE := 12

  function DataLen(sets: seq<VsSet>): nat {
    GROUP_ID_SIZE + 4 + 4 + |Region(sets)|
  }

  /** The offset that G_send_heavyweight_join writes for a local joiner. */
  function JoinerOffset(dataLen: int): int {
    dataLen - (4 + MAX_GROUP_NAME) - (GROUP_ID_SIZE + 2 * 4)
  }

  /** It is the place of the joiner's own set. */
  lemma JoinerFindsItself(ds: seq<DaemonPart>, joiner: Name)
    requires AllSets(ds, Some(joiner)).Some? && FieldsOk(AllSets(ds, Some(joiner)).value)
    ensures
      var sets := AllSets(ds, Some(joiner)).value;
      && JoinerOffset(DataLen(sets)) >= 0
      && ReadSet(Region(sets), JoinerOffset(DataLen(sets))) == Some([joiner])
  {
    var sets := AllSets(ds, Some(joiner)).value;
    var n := |sets| - 1;
    hide Collect;
    RegionAppend(sets[..n], sets[n]);
    assert sets[..n] + [sets[n]] == sets;
    assert SetFits(sets[n]);
    NamesSize(sets[n].names);
    SetReadBack(sets, n);
  }

  // ----- the loops of G_build_memb_vs_buf

  /** Where the set of daemon `my` starts; 0 when it has none. */
  function OwnOffset(sets: seq<VsSet>, my: int): nat {
    if sets == [] then 0
    else if my in sets[|sets| - 1].procs then |Region(sets[..|sets| - 1])|
    else OwnOffset(sets[..|sets| - 1], my)
  }

  /** A member of daemon `my` is sent the set that lists it. */
  lemma {:induction false} OwnOffsetExact(sets: seq<VsSet>, my: int, a: nat)
    requires Separate(sets) && In(sets, a, my)
    ensures OwnOffset(sets, my) == |Region(sets[..a])|
  {
    var n := |sets| - 1;
    if a < n {
      assert !In(sets, n, my);
      var front := sets[..n];
      forall b, c, p | In(front, b, p) && In(front, c, p)
        ensures b == c
      {
        assert In(sets, b, p) && In(sets, c, p);
      }
      assert front[..a] == sets[..a];
      assert In(front, a, my);
      OwnOffsetExact(front, my, a);
    }
  }

  /** What is sent to the members of daemon ds[i]: at the offset they find a set, and that set
      lists exactly the members of the daemons that came with theirs, a joiner apart. */
  lemma MembersFindTheirSet(rank: int -> int, ds: seq<DaemonPart>, joiner: Option<Name>, i: nat)
    requires InVsOrder(rank, ds) && Apart(rank, ds) && i < |ds| && AllSets(ds, joiner).Some?
    requires FieldsOk(AllSets(ds, joiner).value)
    ensures
      var sets := AllSets(ds, joiner).value;
      var own := ReadSet(Region(sets), OwnOffset(sets, ds[i].proc));
      own.Some? &&
      forall j, x :: 0 <= j < |ds| && x in ds[j].members && Some(x) != joiner && SameWay(ds, i, j) ==> x in own.value
    ensures
      var sets := AllSets(ds, joiner).value;
      var own := ReadSet(Region(sets), OwnOffset(sets, ds[i].proc));
      forall x :: x in own.value ==> exists j :: 0 <= j < |ds| && x in ds[j].members && SameWay(ds, i, j)
  {
    var some := Collect(ds, joiner).sets;
    var a := OwnSetRead(rank, ds, joiner, i);
    CollectNamesOk(rank, ds, joiner);
    hide InVsOrder, Apart, Collect, Region, ReadSet, FieldsOk, MemberOf, OwnOffset, SameWay;
    forall j, x | 0 <= j < |ds| && x in ds[j].members && Some(x) != joiner && SameWay(ds, i, j)
      ensures x in some[a].names
    {
      SharesHome(rank, ds, joiner, a, i, j);
    }
    forall x | x in some[a].names
      ensures exists j :: 0 <= j < |ds| && x in ds[j].members && SameWay(ds, i, j)
    {
      assert MemberOf(ds, some[a], x);
      var j := MemberWhere(ds, some[a], x);
      SharesHome(rank, ds, joiner, a, i, j);
    }
  }

  lemma OwnSetRead(rank: int -> int, ds: seq<DaemonPart>, joiner: Option<Name>, i: nat) returns (a: nat)
    requires InVsOrder(rank, ds) && Apart(rank, ds) && i < |ds| && AllSets(ds, joiner).Some?
    requires FieldsOk(AllSets(ds, joiner).value)
    ensures
      var some := Collect(ds, joiner).sets;
      && In(some, a, ds[i].proc)
      && ReadSet(Region(AllSets(ds, joiner).value), OwnOffset(AllSets(ds, joiner).value, ds[i].proc)) == Some(some[a].names)
  {
    var sets, some := AllSets(ds, joiner).value, Collect(ds, joiner).sets;
    hide InVsOrder, Apart, Collect, Homes, Separate, Region, ReadSet, SetFits, OwnOffset;
    CollectSeparates(rank, ds, joiner);
    SomeHome(ds, some, i);
    a :| In(some, a, ds[i].proc);
    OwnOffsetExact(some, ds[i].proc, a);
    OffsetWithJoiner(ds, joiner, ds[i].proc);
    assert sets[..a] == some[..a];
    SetReadBack(sets, a);
    assert sets[a] == some[a];
  }

  /** The members at two daemons of the list have come the same way. */
  predicate SameWay(ds: seq<DaemonPart>, i: nat, j: nat)
    requires i < |ds| && j < |ds|
  {
    i == j || (ds[i].memb == ds[j].memb && !Unknown(ds[i].memb))
  }

  lemma SomeHome(ds: seq<DaemonPart>, sets: seq<VsSet>, i: nat)
    requires Homes(ds, sets) && i < |ds|
    ensures Housed(sets, ds[i].proc)
  {
  }

  lemma MemberWhere(ds: seq<DaemonPart>, s: VsSet, x: Name) returns (j: nat)
    requires MemberOf(ds, s, x)
    ensures j < |ds| && ds[j].proc in s.procs && x in ds[j].members
  {
    j :| 0 <= j < |ds| && ds[j].proc in s.procs && x in ds[j].members;
  }

  lemma SharesHome(rank: int -> int, ds: seq<DaemonPart>, joiner: Option<Name>, a: int, i: nat, j: nat)
    requires InVsOrder(rank, ds) && Apart(rank, ds) && i < |ds| && j < |ds|
    requires In(Collect(ds, joiner).sets, a, ds[i].proc)
    ensures In(Collect(ds, joiner).sets, a, ds[j].proc) <==> SameWay(ds, i, j)
  {
    var sets := Collect(ds, joiner).sets;
    hide InVsOrder, Collect, Homes, In;
    CollectSeparates(rank, ds, joiner);
    SameSetExactly(rank, ds, joiner, i, j);
    if In(sets, a, ds[j].proc) {
      assert Together(sets, ds[i].proc, ds[j].proc);
    } else {
      forall c | In(sets, c, ds[i].proc)
        ensures !In(sets, c, ds[j].proc)
      {
        assert c == a;
      }
    }
  }

  lemma OffsetWithJoiner(ds: seq<DaemonPart>, joiner: Option<Name>, my: int)
    requires AllSets(ds, joiner).Some?
    ensures Collect(ds, joiner).sets <= AllSets(ds, joiner).value
    ensures OwnOffset(AllSets(ds, joiner).value, my) == OwnOffset(Collect(ds, joiner).sets, my)
  {
    hide Collect, Region;
    var some := Collect(ds, joiner).sets;
    if joiner.Some? {
      assert AllSets(ds, joiner).value[..|some|] == some;
    }
  }

  /** The inner loop: one daemon's members, without the joiner. */
  method ListMembers(names: seq<Name>, joiner: Option<Name>, found: bool) returns (listed: seq<Name>, found1: bool)
    ensures Listing(listed, found1) == List(names, joiner, found)
  {
    listed, found1 := [], found;
    for i := 0 to |names|
      invariant Listing(listed, found1) == List(names[..i], joiner, found)
    {
      assert names[..i + 1][..i] == names[..i];
      if joiner.Some? && !found1 && joiner.value == names[i] {
        found1 := true;
      } else {
        listed := listed + [names[i]];
      }
    }
    assert names[..|names|] == names;
  }

  lemma {:induction false} PutNamesConcat(a: seq<Name>, b: seq<Name>)
    ensures PutNames(a + b) == PutNames(a) + PutNames(b)
  {
    if a == [] {
      assert a + b == b;
    } else {
      assert (a + b)[1..] == a[1..] + b;
      PutNamesConcat(a[1..], b);
    }
  }

  /** More names at the end of the last set, and its count written over. */
  lemma CountPatched(front: seq<Byte>, names: seq<Name>, more: seq<Name>)
    ensures
      var r := front + (Put(|names|, 4) + PutNames(names)) + PutNames(more);
      r[..|front|] + Put(|names| + |more|, 4) + r[|front| + 4..]
      == front + (Put(|names + more|, 4) + PutNames(names + more))
  {
    PutNamesConcat(names, more);
    hide PutNames;
    Patched(front, Put(|names|, 4), Put(|names + more|, 4), PutNames(names), PutNames(more));
  }

  lemma Patched(f: seq<Byte>, old4: seq<Byte>, new4: seq<Byte>, x: seq<Byte>, y: seq<Byte>)
    requires |old4| == 4
    ensures var r := f + (old4 + x) + y; r[..|f|] + new4 + r[|f| + 4..] == f + (new4 + (x + y))
  {
    var r := f + (old4 + x) + y;
    assert r[..|f|] == f;
    assert r[|f| + 4..] == x + y;
    Associative(f, new4, x + y);
  }

  /** The buffer and the locals of the loop, after the daemons that have made up b. */
  datatype Scan = Scan(region: seq<Byte>, num: nat, offset: nat, found: bool, memb: MembId, ptr: nat, size: nat)

  ghost predicate Writing(b: Built, my: int, s: Scan) {
    && s.region == Region(b.sets) && s.num == |b.sets| && s.found == b.found && s.offset == OwnOffset(b.sets, my)
    && if b.sets == [] then s.memb == UNKNOWN
       else
         var n := |b.sets| - 1;
         s.memb == b.sets[n].memb && s.ptr == |Region(b.sets[..n])| && s.size == |b.sets[n].names|
  }

  /** The last set of b goes on with the members of d. */
  lemma WritingGoesOn(b: Built, my: int, s: Scan, d: DaemonPart, joiner: Option<Name>)
    requires Writing(b, my, s) && Continues(b.sets, d.memb)
    ensures
      var l := List(d.members, joiner, s.found);
      var r := s.region + PutNames(l.names);
      && s.ptr + 4 <= |r|
      && Writing(AddDaemon(b, d, joiner), my,
           Scan(r[..s.ptr] + Put(s.size + |l.names|, 4) + r[s.ptr + 4..], s.num,
                if d.proc == my then s.ptr else s.offset, l.found, s.memb, s.ptr, s.size + |l.names|))
  {
    hide List, PutNames, Put, AddDaemon;
    LastGrown(b, d, joiner);
    var n := |b.sets| - 1;
    var l := List(d.members, joiner, s.found);
    var sets := AddDaemon(b, d, joiner).sets;
    RegionAppend(b.sets[..n], b.sets[n]);
    assert b.sets[..n] + [b.sets[n]] == b.sets;
    RegionAppend(b.sets[..n], sets[n]);
    assert sets[..n] + [sets[n]] == sets;
    CountPatched(Region(b.sets[..n]), b.sets[n].names, l.names);
    hide Region;
  }

  lemma LastGrown(b: Built, d: DaemonPart, joiner: Option<Name>)
    requires Continues(b.sets, d.memb)
    ensures
      var n, e, l := |b.sets| - 1, AddDaemon(b, d, joiner), List(d.members, joiner, b.found);
      && |e.sets| == n + 1 && e.sets[..n] == b.sets[..n] && e.found == l.found
      && e.sets[n].memb == b.sets[n].memb && e.sets[n].names == b.sets[n].names + l.names
      && forall p :: p in e.sets[n].procs <==> p in b.sets[n].procs || p == d.proc
  {
    hide List;
  }

  /** d begins a new set. */
  lemma WritingBegins(b: Built, my: int, s: Scan, d: DaemonPart, joiner: Option<Name>)
    requires Writing(b, my, s) && !Continues(b.sets, d.memb)
    ensures
      var l := List(d.members, joiner, s.found);
      var ptr := |s.region|;
      var r := s.region + Put(0, 4) + PutNames(l.names);
      Writing(AddDaemon(b, d, joiner), my,
        Scan(r[..ptr] + Put(|l.names|, 4) + r[ptr + 4..], s.num + 1,
             if d.proc == my then ptr else s.offset, l.found, d.memb, ptr, |l.names|))
  {
    hide List, PutNames, Put, AddDaemon, Continues;
    SetBegun(b, d, joiner);
    var l := List(d.members, joiner, s.found);
    var sets := AddDaemon(b, d, joiner).sets;
    RegionAppend(b.sets, sets[|b.sets|]);
    assert b.sets + [sets[|b.sets|]] == sets;
    CountWritten(Region(b.sets), l.names);
    hide Region;
  }

  lemma CountWritten(front: seq<Byte>, names: seq<Name>)
    ensures
      var r := front + Put(0, 4) + PutNames(names);
      r[..|front|] + Put(|names|, 4) + r[|front| + 4..] == front + (Put(|names|, 4) + PutNames(names))
  {
    hide *;
    Overwritten(front, Put(0, 4), Put(|names|, 4), PutNames(names));
  }

  lemma Overwritten(f: seq<Byte>, old4: seq<Byte>, new4: seq<Byte>, x: seq<Byte>)
    requires |old4| == 4
    ensures var r := f + old4 + x; r[..|f|] + new4 + r[|f| + 4..] == f + (new4 + x)
  {
    var r := f + old4 + x;
    assert r[..|f|] == f;
    assert r[|f| + 4..] == x;
    Associative(f, new4, x);
  }

  lemma SetBegun(b: Built, d: DaemonPart, joiner: Option<Name>)
    requires !Continues(b.sets, d.memb)
    ensures
      var n, e, l := |b.sets|, AddDaemon(b, d, joiner), List(d.members, joiner, b.found);
      && |e.sets| == n + 1 && e.sets[..n] == b.sets && e.found == l.found
      && e.sets[n] == VsSet(d.memb, [d.proc], l.names)
  {
    hide List;
  }

  lemma SoleName(x: Name)
    ensures PutNames([x]) == x
  {
    assert PutNames([x][1..]) == [];
  }

  lemma CollectNext(ds: seq<DaemonPart>, i: nat, joiner: Option<Name>)
    requires i < |ds|
    ensures Collect(ds[..i + 1], joiner) == AddDaemon(Collect(ds[..i], joiner), ds[i], joiner)
  {
    assert ds[..i + 1][..i] == ds[..i];
  }

  /** The test of the loop. */
  lemma NeededIs(b: Built, my: int, s: Scan, memb: MembId)
    requires Writing(b, my, s)
    ensures Unknown(s.memb) || s.memb != memb <==> !Continues(b.sets, memb)
    ensures s.region == Region(b.sets) && s.offset == OwnOffset(b.sets, my) && s.num == |b.sets| && s.found == b.found
  {
  }

  lemma NothingWritten(my: int, joiner: Option<Name>)
    ensures Writing(Collect([], joiner), my, Scan([], 0, 0, false, UNKNOWN, 0, 0))
  {
  }

  /** The joiner's own set, at the end. */
  lemma WritingEnds(ds: seq<DaemonPart>, my: int, joiner: Option<Name>, s: Scan)
    requires Writing(Collect(ds, joiner), my, s)
    ensures AllSets(ds, joiner).Some? <==> (joiner.Some? ==> s.found)
    ensures AllSets(ds, joiner).Some? ==>
      var sets := AllSets(ds, joiner).value;
      && s.offset == OwnOffset(sets, my)
      && (if joiner.Some? then Region(sets) == s.region + Put(1, 4) + joiner.value && |sets| == s.num + 1
          else Region(sets) == s.region && |sets| == s.num)
  {
    hide Collect, Region, PutNames;
    if joiner.Some? && s.found {
      RegionAppend(Collect(ds, joiner).sets, VsSet(UNKNOWN, [], [joiner.value]));
      SoleName(joiner.value);
      OffsetWithJoiner(ds, joiner, my);
    }
  }

  /** Writes the sets into the buffer; the count of the last set is written over after each daemon. */
  method BuildVsSets(ds: seq<DaemonPart>, my: int, joiner: Option<Name>)
    returns (ok: bool, region: seq<Byte>, num: nat, offset: nat)
    requires forall i, j :: 0 <= i < j < |ds| ==> ds[i].proc != ds[j].proc
    ensures ok <==> AllSets(ds, joiner).Some?
    ensures ok ==>
      var sets := AllSets(ds, joiner).value;
      region == Region(sets) && num == |sets| && offset == OwnOffset(sets, my)
  {
    hide *;
    region, num, offset := [], 0, 0;
    var found, currMemb := false, UNKNOWN;
    var currPtr: nat, currSize: nat := 0, 0;
    NothingWritten(my, joiner);
    assert ds[..0] == [];
    for i := 0 to |ds|
      invariant Writing(Collect(ds[..i], joiner), my, Scan(region, num, offset, found, currMemb, currPtr, currSize))
      invariant (forall k :: 0 <= k < i ==> ds[k].proc != my) ==> offset == 0
    {
      ghost var b := Collect(ds[..i], joiner);
      ghost var s := Scan(region, num, offset, found, currMemb, currPtr, currSize);
      CollectNext(ds, i, joiner);
      NeededIs(b, my, s, ds[i].memb);
      var listed, found1 := ListMembers(ds[i].members, joiner, found);
      if Continues(b.sets, ds[i].memb) {
        WritingGoesOn(b, my, s, ds[i], joiner);
      } else {
        WritingBegins(b, my, s, ds[i], joiner);
      }
      if Unknown(currMemb) || currMemb != ds[i].memb {
        num, currMemb, currPtr, currSize := num + 1, ds[i].memb, |region|, 0;
        region := region + Put(0, 4);
      }
      if ds[i].proc == my {
        assert offset == 0;  // the set of `my` is not found twice
        offset := currPtr;
      }
      region, currSize, found := region + PutNames(listed), currSize + |listed|, found1;
      region := region[..currPtr] + Put(currSize, 4) + region[currPtr + 4..];
    }
    assert ds[..|ds|] == ds;
    WritingEnds(ds, my, joiner, Scan(region, num, offset, found, currMemb, currPtr, currSize));
    NeededIs(Collect(ds, joiner), my, Scan(region, num, offset, found, currMemb, currPtr, currSize), UNKNOWN);
    ok := true;
    if joiner.Some? {
      if found {
        num := num + 1;
        region := region + Put(1, 4) + joiner.value;
      } else {
        ok := false;
      }
    }
  }
}
