/** The membership state machine of one daemon: its state, its pending timers, and the lists of
    members and representatives it gathers. */
module Membership {
  import opened Outcomes
  import opened Configuration

  datatype Phase = Op | Seg | Represented | Gather | Form | Evs

  datatype Timer =
    | TokenLossTimer            // Memb_token_loss
    | ScastAlive
    | GatherOrRepresented
    | ShiftToSegTimer           // Shift_to_seg
    | SendJoin
    | FormOrFailTimer           // Form_or_fail
    | LookupNew                 // Memb_lookup_new_members
    | TokenHurry                // Prot_token_hurry

  datatype Kind = PotentialRep | SegRep | RingRep

  datatype Rep = Rep(id: int, kind: Kind, seg: int)

  const MAX_PROCS_RING := 128
  const MAX_REPS := 25

  /** What a daemon knows from its configuration file: everybody, itself, and its segment. */
  datatype Env = Env(cn: Conf, my: int, seg: nat)

  datatype Node = Node(
    phase: Phase,
    alive: bool,                // Token_alive
    timers: set<Timer>,         // what is in the event queue
    members: seq<int>,          // F_members
    reps: seq<Rep>,             // F_reps
    potential: seq<Rep>,        // Potential_reps
    membership: Conf,           // Membership
    future: Conf,               // Future_membership
    commit: seq<int>)           // Commit_set

  // ----- lists

  function InsertMember(m: seq<int>, id: int): seq<int> {
    if id in m || |m| == MAX_PROCS_RING then m else m + [id]
  }

  /** The search of Insert_rep for an entry that settles the matter; s is the segment of rep. */
  function Settle(r: seq<Rep>, rep: Rep, s: int, i: nat): (o: Option<seq<Rep>>)
    requires i <= |r|
    ensures o.Some? ==> |o.value| == |r|
    decreases |r| - i
  {
    if i == |r| then None
    else if r[i].seg == s && (rep.kind.PotentialRep? || (r[i].id == rep.id && !r[i].kind.PotentialRep?)) then
      Some(if rep.kind.PotentialRep? then r else r[i := r[i].(kind := rep.kind)])
    else if r[i].seg == s && r[i].kind.PotentialRep? then
      Some(r[i := r[i].(kind := rep.kind, id := rep.id)])
    else
      Settle(r, rep, s, i + 1)
  }

  /** Insert_rep. */
  function InsertRep(cn: Conf, r: seq<Rep>, rep: Rep): (o: Outcome<seq<Rep>>)
    ensures o.Go? ==> |r| <= |o.value|
  {
    var s := SegmentOf(cn, rep.id);
    if s < 0 then Exit("Insert_rep: proc not exist")
    else
      match Settle(r, rep, s, 0)
      case Some(r1) => Go(r1)
      case None => Go(if |r| == MAX_REPS then r else r + [rep])
  }

  function InsertReps(cn: Conf, r: seq<Rep>, more: seq<Rep>): Outcome<seq<Rep>>
    decreases |more|
  {
    if more == [] then Go(r)
    else
      var r1 :- InsertRep(cn, r, more[0]);
      InsertReps(cn, r1, more[1..])
  }

  /** rep comes before current in the scan of Smallest_rep. */
  predicate Better(cn: Conf, rep: Rep, current: Rep) {
    match current.kind
    case SegRep => rep.kind.SegRep? && rep.seg < current.seg
    case RingRep =>
      || rep.kind.SegRep?
      || (rep.kind.RingRep? && (rep.seg < current.seg || (rep.seg == current.seg && Position(cn, rep.id) < Position(cn, current.id))))
    case PotentialRep => false
  }

  /** index_in_seg. */
  function Position(cn: Conf, id: int): int {
    var s := SegmentOf(cn, id);
    if s < 0 then -1 else IndexIn(cn[s], id)
  }

  function Scan(cn: Conf, r: seq<Rep>, current: nat, i: nat): (o: Outcome<nat>)
    requires current < |r| && i <= |r|
    ensures o.Go? ==> o.value < |r|
    decreases |r| - i
  {
    if i == |r| then Go(current)
    else if r[current].kind.PotentialRep? then Exit("Smallest_rep: bug!")
    else Scan(cn, r, if Better(cn, r[i], r[current]) then i else current, i + 1)
  }

  /** Smallest_rep: the index of the representative that is to form the membership. */
  function SmallestRep(cn: Conf, r: seq<Rep>): (o: Outcome<nat>)
    requires r != []
    ensures o.Go? ==> o.value < |r|
  {
    Scan(cn, r, 0, 1)
  }

  // ----- shifts

  function ShiftToSeg(env: Env, n: Node): Node {
    n.(phase := Seg, members := [env.my], timers := n.timers + {ScastAlive, GatherOrRepresented})
  }

  function ShiftToGather(env: Env, n: Node): Node {
    n.(phase := Gather, reps := [Rep(env.my, if n.alive then RingRep else SegRep, env.seg)],
       timers := n.timers - {ScastAlive, LookupNew} + {SendJoin, FormOrFailTimer})
  }

  function ShiftToRepresented(n: Node): Node {
    n.(phase := Represented, timers := n.timers - {ScastAlive, GatherOrRepresented} + {ShiftToSegTimer})
  }

  /** Whom to look for in the other segments, from segment i on. */
  function Lookouts(env: Env, memb: Conf, i: nat, kind: Kind): seq<Rep>
    requires i <= |env.cn| == |memb|
    decreases |env.cn| - i
  {
    if i == |env.cn| then []
    else
      (if i == env.seg || (memb[i] == [] && env.cn[i] == []) then []
       else [Rep(if memb[i] != [] then memb[i][0] else env.cn[i][0], kind, i)])
      + Lookouts(env, memb, i + 1, kind)
  }

  /** The kind that temp_rep has after the gathered representatives have been copied into it. */
  function KindLeft(reps: seq<Rep>): Kind {
    if |reps| > 1 then reps[|reps| - 1].kind else PotentialRep
  }

  /** The representatives that Memb_token_loss goes looking for. */
  function Lookout(env: Env, n: Node): Outcome<seq<Rep>>
    requires |n.membership| == |env.cn| == |n.future|
  {
    match n.phase
    case Op => InsertReps(env.cn, [], Lookouts(env, n.membership, 0, PotentialRep))
    case Gather =>
      var kept :- InsertReps(env.cn, [], if n.reps == [] then [] else n.reps[1..]);
      InsertReps(env.cn, kept, Lookouts(env, n.membership, 0, KindLeft(n.reps)))
    case Evs => InsertReps(env.cn, [], Lookouts(env, n.future, 0, PotentialRep))
    case _ => Go(n.potential)
  }

  function Alone(env: Env): Conf {
    seq(|env.cn|, i => if i == env.seg then [env.my] else [])
  }

  /** Memb_token_loss. */
  function TokenLoss(env: Env, n: Node): Outcome<Node>
    requires |n.membership| == |env.cn| == |n.future|
  {
    if n.phase.Seg? || n.phase.Represented? || (n.phase.Gather? && !n.alive) then
      Exit("Memb_token_loss: bug !!!")
    else
      var potential :- Lookout(env, n);
      var commit := if n.phase.Op? || n.phase.Gather? then [env.my] else n.commit;
      var n1 := ShiftToSeg(env, n.(potential := potential, commit := commit));
      Go(n1.(alive := false, membership := Alone(env),
             timers := n1.timers - {TokenLossTimer, SendJoin, FormOrFailTimer, TokenHurry, LookupNew}))
  }

  // ----- the form token on its first pass

  /** members_info and reps_info: who has been visited, who is to be visited before the next
      representative takes over, and the representatives. */
  datatype FormToken = FormToken(visited: seq<int>, pending: seq<int>, reps: seq<Rep>, next: nat)

  function RepIds(r: seq<Rep>): set<int> {
    set i | 0 <= i < |r| :: r[i].id
  }

  /** The members a representative brings along, once those that others bring are struck out. */
  function Bring(my: int, list: seq<int>, visited: seq<int>, others: set<int>): seq<int> {
    if list == [] then []
    else
      var x := list[0];
      (if x in visited || (x in others && x != my) then [] else [x]) + Bring(my, list[1..], visited, others)
  }

  /** What Fill_form1 makes of the member list: NotExpected if the daemon is not the one whose turn it
      is, InvalidRep (an EXIT) if it is expected as a potential representative, and Malformed if a
      representative has nobody to bring (num_pending becomes -1). */
  datatype Filled = NotExpected | InvalidRep | Malformed | Filled(token: FormToken)

  function FillMembers(env: Env, n: Node, t: FormToken): Filled {
    if !n.phase.Gather? then
      if t.pending == [] || t.pending[0] != env.my then NotExpected
      else Filled(t.(visited := t.visited + [env.my], pending := t.pending[1..]))
    else if t.next >= |t.reps| || t.reps[t.next].id != env.my || t.pending != [] then NotExpected
    else if t.reps[t.next].kind.PotentialRep? then InvalidRep
    else
      var list := if t.reps[t.next].kind.SegRep? then Bring(env.my, n.members, t.visited, RepIds(t.reps) + RepIds(n.reps))
                  else Flatten(n.membership);
      if list == [] then Malformed
      else Filled(t.(visited := t.visited + [list[0]], pending := list[1..], next := t.next + 1))
  }

  /** Into FORM, as Create_form1 and Fill_form1 end. */
  function EnterForm(n: Node): Node {
    n.(phase := Form, alive := false,
       timers := n.timers - {SendJoin, FormOrFailTimer, ShiftToSegTimer, TokenHurry} + {TokenLossTimer})
  }

  // ----- events

  datatype Event =
    | AliveMsg(sender: int)
    | JoinMsg(sender: int, reps: seq<Rep>)
    | ReferMsg(id: int, kind: Kind)
    | ForeignMsg(missing: bool)             // somebody of the configuration is not in the membership
    | Form1(token: FormToken)
    | Form2(expected: bool, future: Conf)   // whether this daemon is next on the member list
    | RingPacket                            // a packet of the current membership
    | RegularToken(installs: bool, tooManyRounds: bool)
    | Fires(timer: Timer, missing: bool)

  function Queued(n: Node, ts: set<Timer>): Node {
    n.(timers := n.timers + ts)
  }

  function HandleAlive(env: Env, n: Node, sender: int): Outcome<Node>
    requires |n.membership| == |env.cn| == |n.future|
  {
    match n.phase
    case Op =>
      if InConf(n.membership, sender) then
        var n1 :- TokenLoss(env, n);
        Go(n1.(members := InsertMember(n1.members, sender)))
      else Go(n)
    case Seg => Go(n.(members := InsertMember(n.members, sender)))
    case Represented => Go(Queued(n, {ShiftToSegTimer}))
    case Gather =>
      if !n.alive then Go(n.(members := InsertMember(n.members, sender)))
      else if InConf(n.membership, sender) then
        var n1 :- TokenLoss(env, n);
        Go(n1.(members := InsertMember(n1.members, sender)))
      else Go(n)
    case Form => Go(n)
    case Evs =>
      if InConf(n.future, sender) then
        var n1 :- TokenLoss(env, n);
        Go(n1.(members := InsertMember(n1.members, sender)))
      else Go(n)
  }

  function HandleJoin(env: Env, n: Node, sender: int, reps: seq<Rep>): Outcome<Node>
    requires |n.membership| == |env.cn| == |n.future| && reps != [] && n.reps != []
  {
    var myRep := SegmentOf(env.cn, sender) == env.seg && reps[0].kind.SegRep?;
    match n.phase
    case Op =>
      if !InConf(n.membership, sender) then
        if Leader(n.membership) == Some(env.my) then
          Go(ShiftToGather(env, n.(potential := [reps[0]], members := [])))
        else Go(n)
      else if |env.cn| > 1 then TokenLoss(env, n)
      else Go(n)
    case Seg => Go(if myRep then ShiftToRepresented(n) else n)
    case Represented => Go(if myRep then Queued(n, {ShiftToSegTimer}) else n)
    case Gather =>
      var mine :- InsertRep(env.cn, n.reps, reps[0]);
      var potential :- InsertReps(env.cn, n.potential, reps);
      var smallest :- SmallestRep(env.cn, mine);
      Go(n.(reps := mine, potential := potential,
            timers := if mine[smallest].id == reps[0].id then n.timers + {FormOrFailTimer} else n.timers))
    case Form => Go(n)
    case Evs =>
      if InConf(n.future, sender) then
        var n1 :- TokenLoss(env, n);
        Go(n1.(members := InsertMember(n1.members, sender)))
      else Go(n)
  }

  function HandleRefer(env: Env, n: Node, id: int, kind: Kind): Outcome<Node> {
    var s := SegmentOf(env.cn, id);
    if !n.phase.Gather? || s < 0 then Go(n)
    else
      var potential :- InsertRep(env.cn, n.potential, Rep(id, kind, s));
      Go(n.(potential := potential))
  }

  /** Memb_lookup_new_members. */
  function Lookup(env: Env, n: Node, missing: bool): Node {
    if !n.phase.Op? then n
    else
      var n1 := n.(potential := [], members := [], reps := [Rep(env.my, RingRep, env.seg)]);
      if missing || |env.cn| == 1 then ShiftToGather(env, n1) else n1
  }

  function HandleForm1(env: Env, n: Node, t: FormToken): Outcome<Node> {
    if n.phase.Seg? || n.phase.Form? || n.phase.Evs? || (n.phase.Op? && Leader(n.membership) == Some(env.my)) then Go(n)
    else if FillMembers(env, n, t).NotExpected? then Go(n)
    else if FillMembers(env, n, t).InvalidRep? then Exit("Fill_form1: invalid rep type")
    else
      var potential :- InsertReps(env.cn, [], Elsewhere(t.reps, env.seg));
      var members := if n.phase.Gather? then Bring(env.my, n.members, t.visited, RepIds(t.reps) + RepIds(n.reps)) else n.members;
      Go(EnterForm(n.(members := members, potential := potential)))
  }

  function HandleForm2(n: Node, expected: bool, future: Conf): Node {
    if n.phase.Form? && expected then
      n.(phase := Evs, alive := true, future := future, timers := n.timers + {TokenLossTimer})
    else n
  }

  /** Memb_regular. */
  function Install(env: Env, n: Node): Node {
    n.(phase := Op, membership := n.future,
       timers := if Leader(n.future) == Some(env.my) then n.timers + {LookupNew} else n.timers)
  }

  function HandleRegularToken(env: Env, n: Node, installs: bool, tooManyRounds: bool): Outcome<Node>
    requires |n.membership| == |env.cn| == |n.future|
  {
    if !n.alive then Go(n)
    else
      var leader := Leader(if n.phase.Evs? then n.future else n.membership) == Some(env.my);
      var n1 := Queued(n, {TokenLossTimer} + if leader then {TokenHurry} else {});
      if !n.phase.Evs? then Go(n1)
      else if installs then Go(Install(env, n1))
      else if tooManyRounds then TokenLoss(env, n1)
      else Go(n1)
  }

  function HandlePacket(env: Env, n: Node): Node {
    if !n.alive then n
    else
      var leader := Leader(if n.phase.Evs? then n.future else n.membership) == Some(env.my);
      Queued(n, {TokenLossTimer} + if leader then {TokenHurry} else {})
  }

  /** Back to OP, for a ring leader that has found nobody. */
  function BackToOp(n: Node): Node {
    n.(phase := Op, timers := n.timers - {SendJoin} + {LookupNew})
  }

  function FormOrFail(env: Env, n: Node): Outcome<Node>
    requires n.reps != []
  {
    var smallest :- SmallestRep(env.cn, n.reps);
    if n.reps[smallest].id == env.my then
      if n.alive && |n.reps| == 1 then Go(BackToOp(n)) else CreateForm1(env, n)
    else if n.alive then Go(BackToOp(n))
    else
      var potential :- InsertReps(env.cn, [], n.reps[1..]);
      Go(ShiftToGather(env, n.(members := [env.my], potential := potential)))
  }

  /** The member list with which Create_form1 starts. */
  function OwnMembers(env: Env, n: Node): seq<int>
    requires n.reps != []
  {
    Bring(env.my, if n.reps[0].kind.RingRep? then Flatten(n.membership) else n.members, [], RepIds(n.reps))
  }

  /** Sort_reps: the smallest of the rest, again and again; the last takes its place. */
  function SortReps(cn: Conf, r: seq<Rep>): Outcome<seq<Rep>>
    decreases |r|
  {
    if r == [] then Go([])
    else
      var k :- SmallestRep(cn, r);
      var n := |r| - 1;
      var rest :- SortReps(cn, r[k := r[n]][..n]);
      Go([r[k]] + rest)
  }

  /** The token that Create_form1 sends out: the creator has visited itself, its members are pending,
      and it is the first of the representatives. */
  function CreatedToken(env: Env, n: Node): Outcome<FormToken>
    requires n.reps != []
  {
    var reps :- SortReps(env.cn, n.reps);
    var members := OwnMembers(env, n);
    if members == [] then Exit("Create_form1: nobody") else Go(FormToken(members[..1], members[1..], reps, 1))
  }

  function CreateForm1(env: Env, n: Node): Outcome<Node>
    requires n.reps != []
  {
    var potential :- InsertReps(env.cn, [], Elsewhere(n.reps, env.seg));
    Go(EnterForm(n.(members := OwnMembers(env, n), potential := potential)))
  }

  /** The representatives of other segments, as potential ones. */
  function Elsewhere(r: seq<Rep>, seg: nat): seq<Rep> {
    if r == [] then []
    else (if r[0].seg == seg then [] else [r[0].(kind := PotentialRep)]) + Elsewhere(r[1..], seg)
  }

  function Fire(env: Env, n: Node, t: Timer, missing: bool): Outcome<Node>
    requires |n.membership| == |env.cn| == |n.future| && n.reps != []
  {
    var n1 := n.(timers := n.timers - {t});
    match t
    case TokenLossTimer => TokenLoss(env, n1)
    case ScastAlive => Go(Queued(n1, {ScastAlive}))
    case GatherOrRepresented =>
      Go(if Smallest(env.cn, n1.members, env.my) then ShiftToGather(env, n1) else ShiftToRepresented(n1))
    case ShiftToSegTimer => Go(ShiftToSeg(env, n1))
    case SendJoin => Go(Queued(n1, {SendJoin}))
    case FormOrFailTimer => FormOrFail(env, n1)
    case LookupNew => Go(Lookup(env, n1, missing))
    case TokenHurry => Go(HurryToken(env, n1))
  }

  function HurryToken(env: Env, n: Node): Node {
    if Leader(if n.phase.Evs? then n.future else n.membership) == Some(env.my) then Queued(n, {TokenHurry}) else n
  }

  /** my comes first, in configuration order, among the members heard of. */
  predicate Smallest(cn: Conf, members: seq<int>, my: int) {
    forall i :: 0 <= i < |members| ==>
      var s, t := SegmentOf(cn, my), SegmentOf(cn, members[i]);
      s < t || (s == t && Position(cn, my) <= Position(cn, members[i]))
  }

  /** What the rest of the world can do: messages come from daemons of the configuration, with
      representatives as Send_join builds them, and only pending timers fire. */
  ghost predicate Possible(env: Env, n: Node, e: Event) {
    match e
    case JoinMsg(_, reps) => reps != [] && reps[0].id != env.my && RepsKnown(env.cn, reps) && !reps[0].kind.PotentialRep?
    case Form1(t) => RepsKnown(env.cn, t.reps) && NoPotential(t.reps)
    case Form2(_, future) => |future| == |env.cn| && Known(env.cn, future)
    case Fires(t, _) => t in n.timers
    case _ => true
  }

  /** Nobody is on the list whose kind is still open. Election.TokensAreInOrder shows that all form
      tokens are like that. */
  predicate NoPotential(reps: seq<Rep>) {
    forall i :: 0 <= i < |reps| ==> !reps[i].kind.PotentialRep?
  }

  ghost predicate RepsKnown(cn: Conf, reps: seq<Rep>) {
    forall i :: 0 <= i < |reps| ==> SegmentOf(cn, reps[i].id) == reps[i].seg && InConf(cn, reps[i].id)
  }

  /** Every daemon of the membership is of the configuration, and in its segment. */
  ghost predicate Known(cn: Conf, memb: Conf)
    requires |memb| == |cn|
  {
    forall i, x :: 0 <= i < |cn| && x in memb[i] ==> SegmentOf(cn, x) == i
  }

  function Step(env: Env, n: Node, e: Event): Outcome<Node>
    requires |n.membership| == |env.cn| == |n.future| && n.reps != []
    requires e.JoinMsg? ==> e.reps != []
  {
    match e
    case AliveMsg(sender) => HandleAlive(env, n, sender)
    case JoinMsg(sender, reps) => HandleJoin(env, n, sender, reps)
    case ReferMsg(id, kind) => HandleRefer(env, n, id, kind)
    case ForeignMsg(missing) =>
      Go(if n.phase.Op? && Leader(n.membership) == Some(env.my) then Lookup(env, n, missing) else n)
    case Form1(t) => HandleForm1(env, n, t)
    case Form2(expected, future) => Go(HandleForm2(n, expected, future))
    case RingPacket => Go(HandlePacket(env, n))
    case RegularToken(installs, tooMany) => HandleRegularToken(env, n, installs, tooMany)
    case Fires(t, missing) => Fire(env, n, t, missing)
  }

  // ----- the invariant

  ghost predicate EnvOk(env: Env) {
    && env.seg < |env.cn| && SegmentOf(env.cn, env.my) == env.seg
    && forall i :: 0 <= i < |env.cn| ==> env.cn[i] != [] && SegmentOf(env.cn, env.cn[i][0]) == i
  }

  /** Exactly the watchdogs that belong to the state are pending. */
  ghost predicate TimersOk(n: Node) {
    && (TokenLossTimer in n.timers <==> n.phase.Op? || n.phase.Form? || n.phase.Evs? || (n.phase.Gather? && n.alive))
    && (GatherOrRepresented in n.timers <==> n.phase.Seg?)
    && (ScastAlive in n.timers <==> n.phase.Seg?)
    && (ShiftToSegTimer in n.timers <==> n.phase.Represented?)
    && (FormOrFailTimer in n.timers <==> n.phase.Gather?)
    && (SendJoin in n.timers <==> n.phase.Gather?)
    && (TokenHurry in n.timers ==> n.alive)
    && (LookupNew in n.timers ==> n.phase.Op?)
  }

  ghost predicate AliveOk(n: Node) {
    && (n.phase.Op? || n.phase.Evs? ==> n.alive)
    && (n.alive ==> n.phase.Op? || n.phase.Evs? || n.phase.Gather?)
  }

  /** Lists: a daemon without a token leads its own member list; nobody of unclear kind is among
      the representatives it gathers, and it comes first there. */
  ghost predicate ListsOk(env: Env, n: Node) {
    && |n.membership| == |env.cn| == |n.future|
    && Known(env.cn, n.membership) && Known(env.cn, n.future)
    && (n.phase.Seg? || n.phase.Represented? || (n.phase.Gather? && !n.alive) ==>
          |n.members| > 0 && n.members[0] == env.my && n.membership == Alone(env))
    && (n.phase.Gather? && n.alive ==> n.members == [])
    && n.reps != [] && RepsKnown(env.cn, n.reps) && RepsKnown(env.cn, n.potential)
    && (forall i :: 0 <= i < |n.reps| ==> !n.reps[i].kind.PotentialRep?)
    && (n.phase.Gather? ==> n.reps[0] == Rep(env.my, if n.alive then RingRep else SegRep, env.seg))
  }

  /** Only the leader of a ring looks for others. */
  ghost predicate LeaderOk(env: Env, n: Node) {
    LookupNew in n.timers || (n.phase.Gather? && n.alive) ==> Leader(n.membership) == Some(env.my)
  }

  ghost predicate Inv(env: Env, n: Node) {
    TimersOk(n) && AliveOk(n) && ListsOk(env, n) && LeaderOk(env, n)
  }

  // ----- the lists

  lemma {:induction false} SettleFacts(cn: Conf, r: seq<Rep>, rep: Rep, i: nat)
    requires i <= |r| && RepsKnown(cn, r) && SegmentOf(cn, rep.id) == rep.seg && InConf(cn, rep.id)
    ensures Settle(r, rep, rep.seg, i).Some? ==>
              var r1 := Settle(r, rep, rep.seg, i).value;
              && |r1| == |r| && RepsKnown(cn, r1)
              && (!rep.kind.PotentialRep? ==> rep in r1)
              && forall j :: 0 <= j < |r| ==>
                   && (!r[j].kind.PotentialRep? && !rep.kind.PotentialRep? ==> !r1[j].kind.PotentialRep?)
                   && (r[j].id != rep.id && !r[j].kind.PotentialRep? ==> r1[j] == r[j])
                   && (rep.kind.PotentialRep? ==> r1[j] == r[j])
    decreases |r| - i
  {
    if i < |r| {
      SettleFacts(cn, r, rep, i + 1);
      var o := Settle(r, rep, rep.seg, i);
      if o.Some? && !rep.kind.PotentialRep? && r[i].seg == rep.seg && (r[i].id == rep.id || r[i].kind.PotentialRep?) {
        assert o.value[i] == rep;
      }
    }
  }

  /** Insert_rep: every entry remains a daemon of the configuration; gathered representatives stay
      what they are, other than the one inserted, and it is among them if there was room. */
  lemma InsertRepFacts(cn: Conf, r: seq<Rep>, rep: Rep)
    requires RepsKnown(cn, r) && SegmentOf(cn, rep.id) == rep.seg && InConf(cn, rep.id)
    ensures InsertRep(cn, r, rep).Go?
    ensures var r1 := InsertRep(cn, r, rep).value;
            && RepsKnown(cn, r1) && |r1| >= |r|
            && (!rep.kind.PotentialRep? && |r| < MAX_REPS ==> rep in r1)
            && (!rep.kind.PotentialRep? && (forall j :: 0 <= j < |r| ==> !r[j].kind.PotentialRep?) ==>
                  forall j :: 0 <= j < |r1| ==> !r1[j].kind.PotentialRep?)
            && (forall j :: 0 <= j < |r| && r[j].id != rep.id && !r[j].kind.PotentialRep? ==> r1[j] == r[j])
  {
    SettleFacts(cn, r, rep, 0);
    hide Settle, SegmentOf;
  }

  lemma {:induction false} InsertRepsGo(cn: Conf, r: seq<Rep>, more: seq<Rep>)
    requires RepsKnown(cn, r) && RepsKnown(cn, more)
    ensures InsertReps(cn, r, more).Go? && RepsKnown(cn, InsertReps(cn, r, more).value)
    decreases |more|
  {
    if more != [] {
      InsertRepFacts(cn, r, more[0]);
      hide InsertRep;
      InsertRepsGo(cn, InsertRep(cn, r, more[0]).value, more[1..]);
    }
  }

  lemma {:induction false} LookoutsKnown(env: Env, memb: Conf, i: nat, kind: Kind)
    requires EnvOk(env) && i <= |env.cn| == |memb| && Known(env.cn, memb)
    ensures RepsKnown(env.cn, Lookouts(env, memb, i, kind))
    decreases |env.cn| - i
  {
    if i < |env.cn| {
      LookoutsKnown(env, memb, i + 1, kind);
      assert memb[i] != [] ==> memb[i][0] in memb[i];
      hide SegmentOf;
    }
  }

  lemma {:induction false} ElsewhereKnown(cn: Conf, r: seq<Rep>, seg: nat)
    requires RepsKnown(cn, r)
    ensures RepsKnown(cn, Elsewhere(r, seg))
  {
    if r != [] {
      ElsewhereKnown(cn, r[1..], seg);
      hide SegmentOf;
    }
  }

  lemma {:induction false} ScanFacts(cn: Conf, r: seq<Rep>, current: nat, i: nat)
    requires current < i <= |r| && forall j :: 0 <= j < |r| ==> !r[j].kind.PotentialRep?
    requires forall j :: 0 <= j < i ==> !Better(cn, r[j], r[current])
    ensures Scan(cn, r, current, i).Go?
    ensures var c := Scan(cn, r, current, i).value;
            c < |r| && forall j :: 0 <= j < |r| ==> !Better(cn, r[j], r[c])
    decreases |r| - i
  {
    if i < |r| {
      hide Position;
      ScanFacts(cn, r, if Better(cn, r[i], r[current]) then i else current, i + 1);
    }
  }

  /** Smallest_rep never meets its "bug" exit on gathered representatives, and nobody comes
      before the one it finds. */
  lemma SmallestRepFacts(cn: Conf, r: seq<Rep>)
    requires r != [] && forall j :: 0 <= j < |r| ==> !r[j].kind.PotentialRep?
    ensures SmallestRep(cn, r).Go? && SmallestRep(cn, r).value < |r|
    ensures forall j :: 0 <= j < |r| ==> !Better(cn, r[j], r[SmallestRep(cn, r).value])
  {
    ScanFacts(cn, r, 0, 1);
  }

  // ----- every step keeps the invariant

  lemma AloneKnown(env: Env)
    requires EnvOk(env)
    ensures Known(env.cn, Alone(env))
  {
  }

  lemma LookoutGoes(env: Env, n: Node)
    requires EnvOk(env) && ListsOk(env, n)
    ensures Lookout(env, n).Go? && RepsKnown(env.cn, Lookout(env, n).value)
  {
    LookoutsKnown(env, n.membership, 0, PotentialRep);
    LookoutsKnown(env, n.membership, 0, KindLeft(n.reps));
    LookoutsKnown(env, n.future, 0, PotentialRep);
    InsertRepsGo(env.cn, [], n.reps[1..]);
    if n.phase.Gather? {
      InsertRepsGo(env.cn, InsertReps(env.cn, [], n.reps[1..]).value,
                   Lookouts(env, n.membership, 0, KindLeft(n.reps)));
    } else {
      InsertRepsGo(env.cn, [], Lookouts(env, if n.phase.Op? then n.membership else n.future, 0, PotentialRep));
    }
  }

  /** The states in which the token can be lost; the timer that has just fired may be missing. */
  lemma TokenLossKeeps(env: Env, n: Node, sender: int)
    requires EnvOk(env) && AliveOk(n) && ListsOk(env, n)
    requires TimersOk(n.(timers := n.timers + {TokenLossTimer}))
    ensures TokenLoss(env, n).Go?
    ensures var n1 := TokenLoss(env, n).value;
            Inv(env, n1) && n1.phase.Seg? && Inv(env, n1.(members := InsertMember(n1.members, sender)))
  {
    LookoutGoes(env, n);
    AloneKnown(env);
    hide Lookout, Known, RepsKnown, EnvOk;
  }

  lemma AliveMsgKeeps(env: Env, n: Node, sender: int)
    requires EnvOk(env) && Inv(env, n)
    ensures HandleAlive(env, n, sender).Go? && Inv(env, HandleAlive(env, n, sender).value)
  {
    if n.alive {
      assert n.timers + {TokenLossTimer} == n.timers;
      TokenLossKeeps(env, n, sender);
    }
    hide TokenLoss, InConf, Known, RepsKnown, EnvOk;
  }

  lemma ToGatherKeeps(env: Env, n: Node)
    requires EnvOk(env) && ListsOk(env, n)
    requires n.phase.Op? || n.phase.Seg? || (n.phase.Gather? && !n.alive)
    requires TimersOk(n.(timers := n.timers + {GatherOrRepresented})) || TimersOk(n.(timers := n.timers + {FormOrFailTimer})) || TimersOk(n)
    requires n.phase.Op? <==> n.alive
    requires n.phase.Seg? ==> GatherOrRepresented !in n.timers
    requires n.alive ==> Leader(n.membership) == Some(env.my) && n.members == []
    ensures Inv(env, ShiftToGather(env, n))
  {
    assert [Rep(env.my, if n.alive then RingRep else SegRep, env.seg)][0].id == env.my;
  }

  lemma JoinMsgKeeps(env: Env, n: Node, sender: int, reps: seq<Rep>)
    requires EnvOk(env) && Inv(env, n) && reps != [] && reps[0].id != env.my
    requires RepsKnown(env.cn, reps) && !reps[0].kind.PotentialRep?
    ensures HandleJoin(env, n, sender, reps).Go? && Inv(env, HandleJoin(env, n, sender, reps).value)
  {
    match n.phase
    case Op =>
      assert n.timers + {TokenLossTimer} == n.timers;
      TokenLossKeeps(env, n, sender);
      if Leader(n.membership) == Some(env.my) {
        ToGatherKeeps(env, n.(potential := [reps[0]], members := []));
      }
    case Gather =>
      InsertRepFacts(env.cn, n.reps, reps[0]);
      assert SegmentOf(env.cn, reps[0].id) == reps[0].seg;
      InsertRepsGo(env.cn, n.potential, reps);
      SmallestRepFacts(env.cn, InsertRep(env.cn, n.reps, reps[0]).value);
    case Evs =>
      assert n.timers + {TokenLossTimer} == n.timers;
      TokenLossKeeps(env, n, sender);
    case _ =>
  }

  lemma ReferMsgKeeps(env: Env, n: Node, id: int, kind: Kind)
    requires EnvOk(env) && Inv(env, n)
    ensures HandleRefer(env, n, id, kind).Go? && Inv(env, HandleRefer(env, n, id, kind).value)
  {
    if n.phase.Gather? && SegmentOf(env.cn, id) >= 0 {
      InsertRepFacts(env.cn, n.potential, Rep(id, kind, SegmentOf(env.cn, id)));
    }
    hide InsertRep, Known, EnvOk;
  }

  lemma LookupKeeps(env: Env, n: Node, missing: bool)
    requires EnvOk(env) && Inv(env, n) && (n.phase.Op? ==> Leader(n.membership) == Some(env.my))
    ensures Inv(env, Lookup(env, n, missing))
  {
    if n.phase.Op? {
      var n1 := n.(potential := [], members := [], reps := [Rep(env.my, RingRep, env.seg)]);
      assert n1.reps[0].id == env.my;
      ToGatherKeeps(env, n1);
      hide ShiftToGather;
    }
  }

  lemma FormKeeps(env: Env, n: Node, members: seq<int>, potential: seq<Rep>)
    requires EnvOk(env) && ListsOk(env, n) && RepsKnown(env.cn, potential) && LookupNew !in n.timers
    requires ScastAlive !in n.timers && GatherOrRepresented !in n.timers
    ensures Inv(env, EnterForm(n.(members := members, potential := potential)))
  {
  }

  lemma Form1Keeps(env: Env, n: Node, t: FormToken)
    requires EnvOk(env) && Inv(env, n) && RepsKnown(env.cn, t.reps) && NoPotential(t.reps)
    ensures HandleForm1(env, n, t).Go? && Inv(env, HandleForm1(env, n, t).value)
  {
    ElsewhereKnown(env.cn, t.reps, env.seg);
    InsertRepsGo(env.cn, [], Elsewhere(t.reps, env.seg));
    var potential := InsertReps(env.cn, [], Elsewhere(t.reps, env.seg)).value;
    if !n.phase.Seg? && !n.phase.Form? && !n.phase.Evs? && !(n.phase.Op? && Leader(n.membership) == Some(env.my)) {
      FormKeeps(env, n, n.members, potential);
      FormKeeps(env, n, Bring(env.my, n.members, t.visited, RepIds(t.reps) + RepIds(n.reps)), potential);
      assert n.(members := n.members, potential := potential) == n.(potential := potential);
    }
    hide EnterForm, Inv;
  }

  lemma FormOrFailKeeps(env: Env, n: Node)
    requires EnvOk(env) && Inv(env, n.(timers := n.timers + {FormOrFailTimer})) && n.phase.Gather? && FormOrFailTimer !in n.timers
    ensures FormOrFail(env, n).Go? && Inv(env, FormOrFail(env, n).value)
  {
    SmallestRepFacts(env.cn, n.reps);
    ElsewhereKnown(env.cn, n.reps, env.seg);
    InsertRepsGo(env.cn, [], Elsewhere(n.reps, env.seg));
    InsertRepsGo(env.cn, [], n.reps[1..]);
    FormKeeps(env, n, OwnMembers(env, n), InsertReps(env.cn, [], Elsewhere(n.reps, env.seg)).value);
    if n.alive {
      BackToOpKeeps(env, n);
    } else {
      AgainKeeps(env, n);
    }
    hide EnterForm, ShiftToGather, OwnMembers, Inv, EnvOk, SmallestRep;
  }

  lemma BackToOpKeeps(env: Env, n: Node)
    requires Inv(env, n.(timers := n.timers + {FormOrFailTimer})) && n.phase.Gather? && n.alive && FormOrFailTimer !in n.timers
    ensures Inv(env, BackToOp(n))
  {
    hide Known, RepsKnown;
  }

  /** Failed to gather, without a token: start over. */
  lemma AgainKeeps(env: Env, n: Node)
    requires EnvOk(env) && Inv(env, n.(timers := n.timers + {FormOrFailTimer})) && n.phase.Gather? && !n.alive
    ensures n.reps != [] && InsertReps(env.cn, [], n.reps[1..]).Go?
    ensures Inv(env, ShiftToGather(env, n.(members := [env.my], potential := InsertReps(env.cn, [], n.reps[1..]).value)))
  {
    InsertRepsGo(env.cn, [], n.reps[1..]);
    var n1 := n.(members := [env.my], potential := InsertReps(env.cn, [], n.reps[1..]).value);
    hide InsertReps, Known, RepsKnown;
    assert TimersOk(n1.(timers := n1.timers + {FormOrFailTimer}));
    ToGatherKeeps(env, n1);
  }

  lemma RegularTokenKeeps(env: Env, n: Node, installs: bool, tooMany: bool)
    requires EnvOk(env) && Inv(env, n)
    ensures HandleRegularToken(env, n, installs, tooMany).Go?
    ensures Inv(env, HandleRegularToken(env, n, installs, tooMany).value)
  {
    if n.alive {
      var leader := Leader(if n.phase.Evs? then n.future else n.membership) == Some(env.my);
      var n1 := Queued(n, {TokenLossTimer} + if leader then {TokenHurry} else {});
      assert Inv(env, n1);
      assert n1.timers + {TokenLossTimer} == n1.timers;
      if n.phase.Evs? {
        TokenLossKeeps(env, n1, 0);
      }
    }
    hide TokenLoss, Known, RepsKnown, EnvOk;
  }

  lemma FireKeeps(env: Env, n: Node, t: Timer, missing: bool)
    requires EnvOk(env) && Inv(env, n) && t in n.timers
    ensures Fire(env, n, t, missing).Go? && Inv(env, Fire(env, n, t, missing).value)
  {
    var n1 := n.(timers := n.timers - {t});
    assert n1.timers + {t} == n.timers;
    assert n1.(timers := n1.timers + {t}) == n;
    match t
    case TokenLossTimer => TokenLossKeeps(env, n1, 0);
    case GatherOrRepresented => ToGatherKeeps(env, n1); hide ShiftToGather, Smallest;
    case FormOrFailTimer => FormOrFailKeeps(env, n1);
    case LookupNew => LookupKeeps(env, n1, missing);
    case _ =>
  }

  lemma StepKeeps(env: Env, n: Node, e: Event)
    requires EnvOk(env) && Inv(env, n) && Possible(env, n, e)
    ensures Step(env, n, e).Go? && Inv(env, Step(env, n, e).value)
  {
    hide EnvOk, HandleAlive, HandleJoin, HandleRefer, HandleForm1, HandleRegularToken, Fire, Lookup;
    match e
    case AliveMsg(sender) => AliveMsgKeeps(env, n, sender);
    case JoinMsg(sender, reps) => JoinMsgKeeps(env, n, sender, reps);
    case ReferMsg(id, kind) => ReferMsgKeeps(env, n, id, kind);
    case ForeignMsg(missing) =>
      if n.phase.Op? && Leader(n.membership) == Some(env.my) {
        LookupKeeps(env, n, missing);
      }
    case Form1(t) => Form1Keeps(env, n, t);
    case Form2(expected, future) =>
    case RingPacket =>
    case RegularToken(installs, tooMany) => RegularTokenKeeps(env, n, installs, tooMany);
    case Fires(t, missing) => FireKeeps(env, n, t, missing);
  }

  // ----- runs

  /** After Memb_init, which loses a token it never had. */
  function Start(env: Env): Node
    requires env.seg < |env.cn|
  {
    Node(Seg, false, {ScastAlive, GatherOrRepresented}, [env.my], [Rep(env.my, SegRep, env.seg)], [],
         Alone(env), Alone(env), [env.my])
  }

  ghost predicate Run(env: Env, trace: seq<Node>) {
    && EnvOk(env) && |trace| > 0 && trace[0] == Start(env)
    && forall i :: 0 <= i < |trace| - 1 ==> Next(env, trace[i], trace[i + 1])
  }

  predicate Shape(env: Env, n: Node) {
    |n.membership| == |env.cn| == |n.future| && n.reps != []
  }

  ghost predicate Next(env: Env, n: Node, n': Node) {
    Shape(env, n) && exists e :: Possible(env, n, e) && Step(env, n, e) == Outcome<Node>.Go(n')
  }

  lemma StartInv(env: Env)
    requires EnvOk(env)
    ensures Inv(env, Start(env))
  {
    AloneKnown(env);
    assert Start(env).reps[0].id == env.my;
  }

  lemma {:induction false} RunKeepsInv(env: Env, trace: seq<Node>, i: nat)
    requires Run(env, trace) && i < |trace|
    ensures Inv(env, trace[i])
  {
    hide Inv, Step;
    if i == 0 {
      StartInv(env);
    } else {
      RunKeepsInv(env, trace, i - 1);
      assert Next(env, trace[i - 1], trace[i]);
      var e :| Possible(env, trace[i - 1], e) && Step(env, trace[i - 1], e) == Outcome<Node>.Go(trace[i]);
      StepKeeps(env, trace[i - 1], e);
    }
  }

  /** Whatever packets, tokens and timers do to a daemon, in any order: no step reaches an EXIT
      alarm, neither "bug !!!" of Memb_token_loss nor that of Smallest_rep; a daemon in OP or EVS
      has a token; and in every state exactly the timers that can take it out of that state again
      are pending, the token-loss timer precisely when there is a token to lose. */
  lemma NoBugIsReached(env: Env, trace: seq<Node>, i: nat, e: Event)
    requires Run(env, trace) && i < |trace| && Possible(env, trace[i], e)
    ensures Shape(env, trace[i]) && (e.JoinMsg? ==> e.reps != [])
    ensures Step(env, trace[i], e).Go?
    ensures AliveOk(trace[i]) && TimersOk(trace[i])
  {
    hide Step;
    RunKeepsInv(env, trace, i);
    StepKeeps(env, trace[i], e);
  }
}
