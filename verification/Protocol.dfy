/** One daemon of the ring: what it does when a broadcast packet or the regular token arrives
    while it is not recovering from a membership change (Memb_state() != EVS).

    Packet buffers are maps from sequence numbers to slots here; RingDaemon implements the same
    handlers over the fixed array of 8192 entries. */
module Protocol {
  import opened Outcomes

  type Bytes = seq<bv8>

  datatype Service = Unreliable | Reliable | Fifo | Agreed | Safe

  /** A packet as it travels: fragment `index` of a message (1, 2, ..., and -k for the last of k). */
  datatype Packet = Packet(sender: int, service: Service, index: int, body: Bytes)

  /** A single-packet RELIABLE message is handed up as soon as it arrives. */
  predicate Early(p: Packet) {
    p.service.Reliable? && p.index == -1
  }

  /** An occupied entry of Packets[]: `exist` is 1 until the packet is delivered, then 2. */
  datatype Slot = Slot(packet: Packet, delivered: bool)

  /** One call of Deliver_packet. */
  datatype Delivery = Delivery(num: int, packet: Packet)

  /** A client message waiting to be sent, already cut into packet bodies. */
  datatype Message = Message(service: Service, parts: seq<Bytes>)

  /** The packet buffer of one daemon and the numbers that say how far it has got. */
  datatype Window = Window(
    slots: map<int, Slot>,       // Packets[]
    highest: int,                // Highest_seq
    myAru: int,                  // My_aru
    aru: int,                    // Aru
    lastDiscarded: int,
    lastDelivered: int,
    log: seq<Delivery>)          // every Deliver_packet so far

  datatype Daemon = Daemon(
    id: int,
    win: Window,
    mark: int,                   // Set_aru
    prevAru: int,                // Last_token->aru
    prevArq: int,                // the ARQ counter of Last_token
    lastRetrans: int,            // Last_num_retrans
    lastSent: int,               // Last_num_sent
    queue: Queue)                // Down_queue

  datatype Token = Token(num: int, aru: int, lastId: int, flow: int, arq: int, rtr: seq<int>)

  const MAX_PACKETS_IN_STRUCT := 8192
  const MAX_SEQ_GAP := 1600
  const ARQ_MODULUS := 16

  function Max(a: int, b: int): int { if a < b then b else a }

  /** The entry of Packets[] that packet q uses: q & PACKET_MASK. */
  function EntryOf(q: int): (r: int)
    ensures 0 <= r < MAX_PACKETS_IN_STRUCT
  {
    q % MAX_PACKETS_IN_STRUCT
  }

  // ----- delivery

  function DeliverAt(w: Window, q: int): Window
    requires q in w.slots
  {
    w.(slots := w.slots[q := w.slots[q].(delivered := true)],
       log := w.log + [Delivery(q, w.slots[q].packet)])
  }

  /** Deliver_agreed_packets: everything in order up to My_aru, stopping at the first SAFE. */
  function DeliverAgreed(w: Window): Outcome<Window>
    decreases w.myAru - w.lastDelivered
  {
    if w.myAru <= w.lastDelivered then
      Go(w)
    else
      var q := w.lastDelivered + 1;
      if q !in w.slots then
        Exit("Deliver_agreed_packets: Error, exist is 0")
      else if w.slots[q].delivered then
        DeliverAgreed(w.(lastDelivered := q))
      else if w.slots[q].packet.service.Safe? then
        Go(w)
      else
        DeliverAgreed(DeliverAt(w, q).(lastDelivered := q))
  }

  /** The loop of Deliver_reliable_packets over sequence numbers q..last. */
  function DeliverEarly(w: Window, q: int, last: int): Window
    decreases last - q
  {
    if last < q then
      w
    else if q in w.slots && !w.slots[q].delivered && Early(w.slots[q].packet) then
      DeliverEarly(DeliverAt(w, q), q + 1, last)
    else
      DeliverEarly(w, q + 1, last)
  }

  function DeliverReliable(w: Window, first: int, count: int): Window {
    DeliverEarly(w, Max(first, w.lastDelivered + 1), first + count - 1)
  }

  /** One iteration of the ordinary branch of Discard_packets. */
  function DiscardOne(w: Window): Window
    requires w.lastDiscarded + 1 in w.slots
  {
    var q := w.lastDiscarded + 1;
    var e := if w.slots[q].delivered then w else DeliverAt(w, q);
    e.(slots := e.slots - {q}, lastDiscarded := q, lastDelivered := Max(w.lastDelivered, q))
  }

  function Discard(w: Window): Outcome<Window>
    decreases w.aru - w.lastDiscarded
  {
    if w.aru <= w.lastDiscarded then
      Go(w)
    else if w.lastDiscarded + 1 !in w.slots then
      Exit("Discard_packets: (NOT EVS) packet not exist")
    else
      Discard(DiscardOne(w))
  }

  // ----- packets

  /** My_aru moves over every packet that is already there, but not past Highest_seq. */
  function Advance(slots: map<int, Slot>, my: int, highest: int): (r: int)
    ensures my <= r
    ensures r == my || r <= highest
    ensures forall q :: my < q <= r ==> q in slots
    ensures r < highest ==> r + 1 !in slots
    decreases highest - my
  {
    if my < highest && my + 1 in slots then Advance(slots, my + 1, highest) else my
  }

  /** Prot_handle_bcast for one packet of the current membership. */
  function HandlePacket(w: Window, q: int, p: Packet): Outcome<Window> {
    if q <= w.aru || q in w.slots then
      Go(w)
    else
      var e := w.(slots := w.slots[q := Slot(p, false)], highest := Max(w.highest, q));
      if q == w.myAru + 1 then
        DeliverAgreed(e.(myAru := Advance(e.slots, w.myAru, e.highest)))
      else
        Go(DeliverReliable(e, q, 1))
  }

  // ----- the token

  /** FC_allowed outside EVS. */
  function Allowed(w: Window, flow: int, window: int, personal: int): int {
    if w.highest > w.aru + MAX_SEQ_GAP then 0
    else
      var room := Max(window + personal - flow, 0);
      var room1 := if room > window then window else room;
      if room1 > personal then personal else room1
  }

  /** Highest_seq catches up with the token. */
  function CatchUp(w: Window, num: int): Window {
    w.(highest := Max(w.highest, num))
  }

  /** Put a packet of our own into the buffer under the next number. */
  function Append(w: Window, p: Packet): Outcome<Window> {
    if w.highest + 1 in w.slots then
      Exit("Send_new_packets: created packet already exist")
    else
      Go(w.(slots := w.slots[w.highest + 1 := Slot(p, false)], highest := w.highest + 1))
  }

  function AppendAll(w: Window, ps: seq<Packet>): Outcome<Window>
    decreases |ps|
  {
    if ps == [] then Go(w)
    else
      var w1 :- Append(w, ps[0]);
      AppendAll(w1, ps[1..])
  }

  /** The down queue: whole messages, and how many parts of the first one are already sent. */
  datatype Queue = Queue(messages: seq<Message>, cur: nat)

  predicate QueueOk(q: Queue) {
    && (forall i :: 0 <= i < |q.messages| ==> q.messages[i].parts != [])
    && (if q.messages == [] then q.cur == 0 else q.cur < |q.messages[0].parts|)
  }

  /** The next packet of the queue and what remains. */
  function NextPacket(id: int, q: Queue): (r: (Packet, Queue))
    requires QueueOk(q) && q.messages != []
    ensures QueueOk(r.1)
  {
    var m := q.messages[0];
    if q.cur + 1 == |m.parts| then
      (Packet(id, m.service, -|m.parts|, m.parts[q.cur]), Queue(q.messages[1..], 0))
    else
      (Packet(id, m.service, q.cur + 1, m.parts[q.cur]), Queue(q.messages, q.cur + 1))
  }

  /** The next `count` packets, or as many as there are. */
  function TakePackets(id: int, q: Queue, count: nat): (r: (seq<Packet>, Queue))
    requires QueueOk(q)
    ensures QueueOk(r.1)
    ensures |r.0| <= count
    decreases count
  {
    if count == 0 || q.messages == [] then
      ([], q)
    else
      var (p, q1) := NextPacket(id, q);
      var (ps, q2) := TakePackets(id, q1, count - 1);
      ([p] + ps, q2)
  }

  /** The sequence numbers among from..last that are missing. */
  function Missing(slots: map<int, Slot>, from: int, last: int): seq<int>
    decreases last - from
  {
    if last < from then []
    else (if from in slots then [] else [from]) + Missing(slots, from + 1, last)
  }

  /** Answer_retrans gives up when asked for something below its own Aru. */
  predicate Answerable(w: Window, rtr: seq<int>) {
    forall i :: 0 <= i < |rtr| ==> w.aru <= rtr[i]
  }

  /** The packets it sends again: those asked for that it holds. */
  function Answers(slots: map<int, Slot>, rtr: seq<int>): seq<Packet> {
    if rtr == [] then []
    else (if rtr[0] in slots then [slots[rtr[0]].packet] else []) + Answers(slots, rtr[1..])
  }

  predicate AcceptsArq(leader: bool, prevArq: int, arq: int) {
    if leader then arq == prevArq else arq == (prevArq + 1) % ARQ_MODULUS
  }

  /** What flow control and the room left on the token decide during one visit. */
  datatype Plan = Plan(count: nat, datagrams: nat, retrans: nat, requests: nat)

  /** What the three-way update writes: Token->aru, Token->aru_last_id and Set_aru. */
  datatype Stamp = Stamp(aru: int, lastId: int, mark: int)

  function StampAru(id: int, mark: int, myAru: int, highest: int, t: Token): Stamp {
    if t.aru == mark || t.lastId == id || t.aru == t.num then
      Stamp(myAru, id, if myAru < highest then myAru else -1)
    else if t.aru > myAru then
      Stamp(myAru, id, myAru)
    else
      Stamp(t.aru, t.lastId, -1)
  }

  /** The buffer when the token leaves: caught up, own packets appended, My_aru advanced. */
  function BeforeToken(w: Window, t: Token, sent: seq<Packet>): Outcome<Window> {
    if !Answerable(w, t.rtr) then
      Exit("Answer_retrans: retrans requested below Aru")
    else
      var w1 :- AppendAll(CatchUp(w, t.num), sent);
      Go(w1.(myAru := Advance(w1.slots, w1.myAru, w1.highest)))
  }

  /** The buffer after the token has left with aru tokenAru, the one before with prevAru. */
  function AfterToken(w: Window, tokenAru: int, prevAru: int, datagrams: nat): Outcome<Window> {
    var w1 :- Discard(w.(aru := if tokenAru > prevAru then prevAru else tokenAru));
    var w2 :- DeliverAgreed(w1);
    Go(DeliverReliable(w2, w2.highest - datagrams + 1, datagrams))
  }

  /** The token as it leaves the daemon whose buffer is w. */
  function NextToken(leader: bool, d: Daemon, w: Window, t: Token, plan: Plan): Token {
    var s := StampAru(d.id, d.mark, w.myAru, w.highest, t);
    var arq := if leader then (t.arq + 1) % ARQ_MODULUS else t.arq;
    var limit := if w.highest < w.myAru + plan.requests then w.highest else w.myAru + plan.requests;
    Token(w.highest, s.aru, s.lastId,
          t.flow - d.lastRetrans - d.lastSent + plan.retrans + plan.datagrams,
          arq, Missing(w.slots, w.myAru + 1, limit))
  }

  datatype TokenResult = TokenResult(daemon: Daemon, token: Token, sent: seq<Packet>)

  /** Prot_handle_token for a regular token that passed the ARQ test. */
  function HandleToken(leader: bool, d: Daemon, t: Token, plan: Plan): Outcome<TokenResult>
    requires QueueOk(d.queue)
  {
    var (sent, queue) := TakePackets(d.id, d.queue, plan.count);
    var w :- BeforeToken(d.win, t, sent);
    var t1 := NextToken(leader, d, w, t, plan);
    var mark := StampAru(d.id, d.mark, w.myAru, w.highest, t).mark;
    var w1 :- AfterToken(w, t1.aru, d.prevAru, plan.datagrams);
    Go(TokenResult(Daemon(d.id, w1, mark, t1.aru, t1.arq, plan.retrans, plan.datagrams, queue), t1, sent))
  }
}
