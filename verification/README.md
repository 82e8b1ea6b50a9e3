# A verified model of the Spread 4.0.0 daemon

The Spread daemon is a group communication server. Daemons form a ring around which a token
travels; the holder of the token numbers and multicasts packets, and every daemon hands them up in
one total order at the service level asked for (reliable, FIFO, agreed, safe). When daemons crash
or the network splits or heals, a membership protocol gathers the daemons that can reach each
other, and a recovery phase gives those that come from the same old ring the same last messages
(Extended Virtual Synchrony). On top of this sit the process groups, and below it the datagrams.

The project models these parts as state machines, functions and classes, and proves what they
promise for every input, every interleaving and every ring size. Where a promise fails, there is a
lemma with the failing run and an exact condition.

| part | files |
|---|---|
| ring protocol: token, packet window, stability, delivery, ARQ counter, flow control | `Protocol`, `AruCore`, `WindowInvariant`, `Ring`, `RingTheorems`, `RingStart`, `RingSteps`, `RingProgress`, `RingDaemon` |
| messages above packets: fragments, reassembly, what a membership change does to them | `Atomicity`, `AtomicityRuns`, `AtomicityEvs` |
| recovery, one old ring: the form token's folding, FORM2, the last deliveries, what is left over | `FormToken`, `Evs`, `EvsTheorems`, `EvsLate`, `EvsLeftover`, `EvsDaemon` |
| recovery, the whole new ring: token aru, requests, exits and early finishes | `EvsCore`, `EvsRing`, `EvsDeck`, `EvsTrouble`, `EvsRuns`, `EvsProgress` |
| membership: states and timers, election, routing of the form tokens | `Membership`, `MembershipSteps`, `MembershipDaemon`, `Election`, `Configuration`, `Routing` |
| groups: bookkeeping, state exchange, synced sets, virtual-synchrony sets | `Groups`, `SyncedSet`, `GroupsWire`, `GroupsRebuild`, `GroupsBytes`, `GroupsExchange`, `GroupsBook`, `GroupsSteps`, `GroupsDaemon`, `VsSets` |
| datagrams, client byte streams, timers | `Datagram`, `Session`, `Timers` |
| results that may be an exit or nothing | `Outcomes` |

The C code changes global variables in place. Its handlers are therefore classes and methods with
loops (`RingDaemon`, `EvsDaemon`, `MembershipDaemon`, `GroupsDaemon`, `Routing.Net`,
`Datagram.Outgoing`, `Session`, `Timers.TimeQueue`), each proved equal to a function on values; the
theorems are about those functions, over whole runs of a system of daemons and a network that
loses, delays, duplicates and reorders. A log of what has been handed up is added to the state so
that properties of delivery can be stated.

## What the proofs found

- **Stability can be overestimated after a membership change.** The first regular token carries
  `aru = Last_seq` with `seq = 0`. If it was last stamped by somebody other than its first holder
  and there are at least three daemons, the branch at protocol.c:587-590 sets `Set_aru` to the
  holder's own `Highest_seq`, and later the holder finds that mark on a token that somebody else has
  lowered. `RingStart` gives the run, in which a SAFE packet is delivered while a daemon does not
  have it, and proves that this is the only way: stability holds on all runs if and only if there
  are at most two daemons, or the token's aru is not above its seq, or the first holder stamped it,
  or a window is closed so that nobody can send.
- **The acknowledgements can stall.** The first regular token's `aru_last_id` is nobody's word: no
  line of the program sets it before a daemon lowers or resets the aru. If no member's id happens to
  be in it and the first holder sends more packets than the token's aru (`Last_seq`) says, the aru is
  below seq with nobody to raise it, and stays there until somebody misses a packet up to it; nothing
  above it becomes stable. `RingProgress` gives the run, proves that this is the only way, and that
  otherwise a ring in which nobody sends or misses anything comes to rest within three rotations.
- **Recovery can exit, or be declared finished too early.** During recovery `Token->seq` is 0, so a
  daemon without packet 1 lowers the token's aru to the value that lets the next one overwrite it
  (protocol.c:578-582). The overwritten aru can reach `Last_seq` while packets are missing, and a
  daemon installs the new membership; or it makes an `Aru` pass a packet that is still asked for, and
  the daemon exits in `Answer_retrans`. `Read_form2` also leaves `Set_aru` as the old ring had it,
  which has the same effect. `EvsTrouble` shows that recovery is free of both if and only if there is
  one daemon only, or nobody can stand at 0 and no daemon's old `Set_aru` is a number at which an
  earlier one may stop, unless that earlier one is the leader and nobody behind may stop there too.
  Those that do finish agree on every run (`EvsRuns.FinishedAgree`).
- **Old packets can survive recovery.** The first visit sets `Aru` to 0, and `Aru` is all that keeps
  discarded packets out. A delayed copy that arrives later stays in `Packets[]`; in the next
  membership it is handed up in place of the new packet of that number, or makes the sender of that
  number exit. `EvsLeftover` says exactly when the buffer is empty at the end.
- **One late packet breaks virtual synchrony.** A packet of the old ring numbered above the entry's
  `highest_seq` that reaches only one daemon in EVS raises that daemon's `Highest_seq`, and it
  delivers more than the others. `EvsLate` says exactly which late packets do this.
- **The election can depend on the order of arrival.** `Smallest_rep` compares two segment
  representatives by segment only, so two of one segment tie and the first in the list wins
  (`Election.ElectionExactly`).
- **Group ids can disagree after the exchange** exactly when two synced sets hold a group with the
  same membership id, both unchanged, but with different indices (`Groups.ExchangeExactly`).
- **The splitter of the state exchange loops for ever** exactly when the members of one group at
  one daemon do not fit a fresh buffer (`GroupsWire.SplitEndsExactly`).
- **A ring leader listed by another daemon as a segment representative** brings nobody to the form
  token, whose count of pending members then drops below zero (`Election.FillExact`).
- **A negative `data_len` keeps `Net_recv` in its loop for ever.** The field is a signed 16-bit
  number; -36 makes the header and its body take no room (`Datagram.NoProgress`). The loop ends if
  and only if no offset comes twice (`Datagram.WalkEndsExactly`).
- **`E_add_time` leaves 1000000 in the microseconds** when they add up to exactly one second, and
  such a time compares as different from the same instant written properly (`Timers.CompareExact`).

## Model

| member | source | states |
|---|---|---|
| AruCore.VisitKeepsInv | spread-src-4.0.0/daemon/protocol.c:578-593 | the three-way update of aru, aru_last_id and Set_aru keeps every Aru of the ring below what every member has received, whoever visits and whatever it has received meanwhile |
| AruCore.NewAruBounds | spread-src-4.0.0/daemon/protocol.c:633-637 | the new Aru, the minimum of two departing arus, is at least every Aru before and at most every My_aru |
| AruCore.ResetIsAlone | spread-src-4.0.0/daemon/protocol.c:578-593 | whoever may overwrite the token's aru is the only daemon that still has a mark |
| WindowInvariant.PacketKeepsInv | spread-src-4.0.0/daemon/protocol.c:312-410 | a packet, new, old or duplicate, never makes the daemon exit and keeps the buffer exact: what is held, handed up and discarded (what changes is in RingSteps.ArrivalExact) |
| WindowInvariant.BeforeTokenKeeps | spread-src-4.0.0/daemon/protocol.c:533-577 | up to the moment the token leaves nothing exits; new packets get the next numbers and the daemon holds them |
| WindowInvariant.AfterTokenKeeps | spread-src-4.0.0/daemon/protocol.c:633-680 | if the new Aru is something this daemon has received, discarding and delivery find every packet they need |
| WindowInvariant.AgreedKeeps | spread-src-4.0.0/daemon/protocol.c:1056-1084 | in-order delivery never meets an empty entry, stops only at My_aru or an unstable SAFE packet, and changes nothing that was received |
| WindowInvariant.DiscardKeeps | spread-src-4.0.0/daemon/protocol.c:1240-1260 | discarding up to Aru never meets an empty entry and keeps all packets above |
| WindowInvariant.MissingExact | spread-src-4.0.0/daemon/protocol.c:616-631 | the retransmission requests are exactly the packets missing in the range looked at |
| Ring.HandleTokenKeeps | spread-src-4.0.0/daemon/protocol.c:421-681 | one visit of the token, all parts together: no exit, exact buffer, new Aru, flow figures, requests above My_aru (what is held, handed up and asked for is in RingSteps.VisitExact) |
| Ring.NextKeepsInv | spread-src-4.0.0/daemon/protocol.c:230-681 | every step of the system (token, old token, packet, submission) keeps the invariant of the ring |
| Ring.RunKeepsInv | spread-src-4.0.0/daemon/protocol.c:230-681 | the invariant holds in every state of every run from a harmless start, for any number of daemons |
| Ring.StaleRejected | spread-src-4.0.0/daemon/protocol.c:471-511 | a token up to 14 rotations old is refused, by the leader and by every other daemon |
| RingTheorems.RunsAreStable | spread-src-4.0.0/daemon/protocol.c:578-593 | on every run nothing exits, no daemon takes for stable what some member has not received, and a SAFE packet is delivered only once every member holds it |
| RingTheorems.TotalOrder | spread-src-4.0.0/daemon/protocol.c:360-410 | two daemons' ordered deliveries are prefixes of one sequence, in increasing order of seq; every packet is delivered at most once and only if it was sent |
| RingTheorems.DeliveryIsPrompt | spread-src-4.0.0/daemon/protocol.c:1056-1084 | delivery stops only at My_aru or at a SAFE packet that is not stable, and My_aru only at a packet that is missing |
| RingTheorems.RunsGoForward | spread-src-4.0.0/daemon/protocol.c:633-637 | Aru, My_aru and Last_delivered of a daemon never decrease between any two states of a run |
| RingTheorems.SlotsDoNotCollide | spread-src-4.0.0/daemon/protocol.c:350-360 | two packets still in use never share an entry of Packets[], that is, seq & PACKET_MASK identifies them |
| RingTheorems.FlowIsConserved | spread-src-4.0.0/daemon/protocol.c:520-531 | Token->flow_control is always the sum over the ring of Last_num_retrans + Last_num_sent |
| RingTheorems.FlowIsBounded | spread-src-4.0.0/daemon/flow_control.c:61-73 | without retransmissions the sum never exceeds Window + Personal_window + 1 |
| RingTheorems.EachTokenOnce | spread-src-4.0.0/daemon/protocol.c:471-511 | the live token is always accepted and no daemon processes one it has processed before |
| RingStart.StableExactlyWhenHarmless | spread-src-4.0.0/daemon/protocol.c:587-590 | stability holds on all runs from a start if and only if the start is harmless or a closed window keeps everybody from sending anything |
| RingStart.SafeExactlyWhenHarmless | spread-src-4.0.0/daemon/membership.c:2013-2022 | with no messages waiting, SAFE delivery means delivery everywhere on all runs under exactly the same condition |
| RingStart.EveryRingStarts | spread-src-4.0.0/daemon/protocol.c:115-121 | every ring, whatever its leader, its waiting messages and the aru and aru_last_id left on the token, is a start of the runs the theorems speak of |
| RingStart.HarmfulRun | spread-src-4.0.0/daemon/membership.c:2013-2022 | the run from a first token with aru above seq, for every ring of three or more |
| RingSteps.ArrivalExact | spread-src-4.0.0/daemon/protocol.c:312-410 | what a packet does to a daemon, by what it held: nothing if it is old; behind a gap it is taken in and handed up at once exactly if it is a whole RELIABLE message; one that closes the gap moves My_aru to the next gap and hands up all that is in order |
| RingSteps.PacketsArrive | spread-src-4.0.0/daemon/protocol.c:312-410 | the same over the steps of every run, where nothing else changes |
| RingSteps.EarlyExact | spread-src-4.0.0/daemon/protocol.c:1031-1054 | which packets of a range are handed up early, and nothing else about the buffer changes |
| RingSteps.AgreedExact | spread-src-4.0.0/daemon/protocol.c:1056-1084 | delivery in order hands up exactly what it passes over and had not been handed up |
| RingSteps.VisitExact | spread-src-4.0.0/daemon/protocol.c:421-681 | after a visit the daemon holds what it held and what it sent, but for what is stable; it has handed up what is in order and the early ones of its newest packets; and it asks for exactly what it misses |
| RingSteps.TokensVisit | spread-src-4.0.0/daemon/protocol.c:421-681 | the same over the steps of every run; as many packets are sent as the visit has room for, or all there are |
| RingSteps.MissingIsAskedFor | spread-src-4.0.0/daemon/protocol.c:541-564 | on every run, of the numbers there is room for the token asks for exactly those that the daemon neither holds nor has handed up, My_aru + 1 always among them |
| RingSteps.AnswersExact | spread-src-4.0.0/daemon/protocol.c:753-859 | every packet asked for and held is sent again, once for each time it is asked for and in that order, and nothing else |
| RingSteps.RequestsAreAnswered | spread-src-4.0.0/daemon/protocol.c:753-859 | on every run the next holder sends again exactly the packets asked for that it holds, as they were sent first |
| RingSteps.SendsAllItMay | spread-src-4.0.0/daemon/protocol.c:862-953 | the number of packets sent is the room there is or all that is waiting |
| RingSteps.VisitExitsExactly | spread-src-4.0.0/daemon/protocol.c:753-953 | up to the departure of the token a daemon exits exactly if it is asked for something below its Aru or holds a packet under a number it is to give away |
| RingSteps.DiscardExitsExactly | spread-src-4.0.0/daemon/protocol.c:1240-1260 | discarding exits exactly at a number up to Aru that is not held |
| RingSteps.AgreedExitsExactly | spread-src-4.0.0/daemon/protocol.c:1056-1084 | in-order delivery exits exactly at a number that is not held and that nothing stops it from reaching |
| RingProgress.RunsComeToRest | spread-src-4.0.0/daemon/protocol.c:578-637 | once nobody sends and everybody has everything, three rotations bring every Aru to the top, everything handed up and every buffer empty, if and only if the aru is not below seq or some member may raise it; otherwise that never happens |
| RingProgress.AruRisesExactly | spread-src-4.0.0/daemon/protocol.c:578-593 | at every moment of every run the aru can rise if and only if the first token says 0, or a member has written it, or it is at least what the first holder can send |
| RingProgress.StallRun | spread-src-4.0.0/daemon/membership.c:2013-2022 | the run that gets stuck, for every ring and every first token that is none of these |
| RingDaemon.SlotsSet | spread-src-4.0.0/daemon/protocol.c:375-386 | filling entry seq & PACKET_MASK adds that packet to the window and changes no other |
| RingDaemon.SlotsClear | spread-src-4.0.0/daemon/protocol.c:1240-1260 | clearing an entry removes exactly the oldest packet of the window |
| RingDaemon.SlotsAt | spread-src-4.0.0/daemon/protocol.c:350-360 | exist of an entry says whether that number of the window is held |
| RingDaemon.ArraySuffices | spread-src-4.0.0/daemon/protocol.c:862-953 | on every run, whatever comes next, all numbers a handler touches fit the 8192 entries |
| RingDaemon.Daemon.DeliverPacket | spread-src-4.0.0/daemon/protocol.c:955-1029 | marks exactly this entry as delivered and logs it |
| RingDaemon.Daemon.DeliverAgreedPackets | spread-src-4.0.0/daemon/protocol.c:1056-1084 | the loop does in-order delivery as specified, and exits when that does |
| RingDaemon.Daemon.DeliverReliablePackets | spread-src-4.0.0/daemon/protocol.c:1031-1054 | delivers the early packets of the range and nothing else |
| RingDaemon.Daemon.DiscardPackets | spread-src-4.0.0/daemon/protocol.c:1240-1260 | frees everything up to Aru, handing up what has not been, and never leaves the fixed window; exits exactly when an entry is empty |
| RingDaemon.Daemon.AdvanceMyAru | spread-src-4.0.0/daemon/protocol.c:388-400 | My_aru moves to the last packet before the first gap |
| RingDaemon.Daemon.HandlePacket | spread-src-4.0.0/daemon/protocol.c:312-410 | Prot_handle_bcast on the array of 8192 is the step on the unbounded window of which ArrivalExact speaks, exits included |
| RingDaemon.Daemon.SendNewPackets | spread-src-4.0.0/daemon/protocol.c:862-953 | sends the next packets of the down queue in order, numbers and stores them, and leaves the rest queued |
| RingDaemon.Daemon.RequestMissing | spread-src-4.0.0/daemon/protocol.c:616-631 | the requests are exactly the missing numbers of the range, in order |
| RingDaemon.Daemon.AnswerRetrans | spread-src-4.0.0/daemon/protocol.c:753-859 | sends again exactly the packets asked for that it holds, in the order asked for, and exits exactly when something below Aru is asked for |
| RingDaemon.Daemon.UpdateAru | spread-src-4.0.0/daemon/protocol.c:578-593 | Token->aru, aru_last_id and Set_aru become what the specified stamp says, so that AruCore's visit is what the daemon does; the aru written is never above My_aru |
| RingDaemon.Daemon.ForwardToken | spread-src-4.0.0/daemon/protocol.c:594-632 | the departing token carries the seq, aru, flow, ARQ counter and requests of the visit of which VisitExact speaks, and the packet buffer is not touched |
| RingDaemon.Daemon.HandleToken | spread-src-4.0.0/daemon/protocol.c:421-681 | Prot_handle_token on the array is the step on window, token and queue from which the runs of Ring are made, exits included |
| Atomicity.WithoutEarly | spread-src-4.0.0/daemon/protocol.c:965-972 | single-packet RELIABLE messages delivered ahead do not disturb the assembly of the others |
| Atomicity.HandUpSorts | spread-src-4.0.0/daemon/protocol.c:955-1029 | packets of many senders interleaved are put together sender by sender, and a sequence error needs one in some sender's own stream |
| Atomicity.LogHandsUp | spread-src-4.0.0/daemon/protocol.c:986-1029 | what a daemon hands up of a sender is what that sender's packets up to Last_delivered amount to, and the half message in Up_queue is the rest |
| Atomicity.SameMessageOrder | spread-src-4.0.0/daemon/protocol.c:955-1029 | comparable packet deliveries give comparable sequences of whole messages |
| AtomicityRuns.TakeSupplies | spread-src-4.0.0/daemon/protocol.c:868-912 | fragmenting onto packets neither loses nor reorders: messages sent and messages queued stay the same sequence, cur_element included |
| AtomicityRuns.StepAccounts | spread-src-4.0.0/daemon/protocol.c:862-953 | no step of the system loses, invents, repeats or reorders a message between clients, queue and ring |
| AtomicityRuns.SendersAreFaithful | spread-src-4.0.0/daemon/protocol.c:862-953 | at every moment of a run, messages sent whole followed by messages queued are exactly what the clients handed in |
| AtomicityRuns.MessagesAreWhole | spread-src-4.0.0/daemon/protocol.c:986-1029 | on every run "sequence error" is unreachable; what any daemon hands up of a sender are the first of the messages handed in there, whole; all of them once everything is sent and delivered |
| AtomicityRuns.MessagesInOneOrder | spread-src-4.0.0/daemon/protocol.c:955-1029 | whole messages of all senders come in one order at all daemons |
| AtomicityEvs.RecoveryIsWhole | spread-src-4.0.0/daemon/protocol.c:1134-1206 | recovery never meets a sequence error although packets are missing; of a sender in the commit set every completely sent message is handed up |
| AtomicityEvs.NothingIsLostOrSplit | spread-src-4.0.0/daemon/protocol.c:1178-1206 | what any survivor has handed up of another, together with that one's queue rewound to the start of its partly sent message, is exactly what its clients handed in; and a new ring can go on from that queue |
| AtomicityEvs.RewoundExactly | spread-src-4.0.0/daemon/protocol.c:1178-1182 | a queue can go on a ring on which nothing has been sent if and only if it stands at the start of a message; that is why cur_element is set back |
| FormToken.EntryExact | spread-src-4.0.0/daemon/membership.c:1616-1787 | whichever members of an old ring are visited, its entry lists exactly the packets none of them has, the maxima of their aru and highest_seq, its visitors in order, and the union of their commit sets |
| FormToken.CreatedIsNew | spread-src-4.0.0/daemon/membership.c:1357-1400 | the creator's entry and a visitor's first entry are the same although the scans start at different numbers |
| FormToken.MergedLists | spread-src-4.0.0/daemon/membership.c:1753-1787 | a visitor goes next into the trans part; nobody is lost or doubled in the commit set |
| FormToken.RingsStayApart | spread-src-4.0.0/daemon/membership.c:1600-1670 | however daemons of different old rings alternate, each ring's entry is the one its own members make alone |
| FormToken.ScanHoles | spread-src-4.0.0/daemon/membership.c:1357-1375 | the scan lists the missing numbers in order |
| FormToken.KeepHoles | spread-src-4.0.0/daemon/membership.c:1711-1748 | the holes kept are those this daemon cannot fill |
| FormToken.InsertMembers | spread-src-4.0.0/daemon/membership.c:1063-1082 | inserting a list into a set kept as a list, as in the commit set that EntryExact describes |
| FormToken.FillEntry | spread-src-4.0.0/daemon/membership.c:1672-1787 | one visitor's update of its ring's entry |
| Evs.ReadForm2Exact | spread-src-4.0.0/daemon/membership.c:1953-1979 | reading the entry delivers up to its aru and exits "should be a hole" exactly if one of the holes has arrived since |
| Evs.RecoverKeeps | spread-src-4.0.0/daemon/protocol.c:312-410 | whatever packets arrive and whatever the tokens make of Aru, the part of the buffer above the entry's aru stays exact; reading the entry has met no arrived hole |
| Evs.AruPlaysNoPart | spread-src-4.0.0/daemon/protocol.c:633-637 | what Aru is during recovery has no influence on what the final delivery hands up |
| Evs.FinishesExactly | spread-src-4.0.0/daemon/protocol.c:1095-1176 | the final delivery succeeds if and only if every number up to Highest_seq is held or a hole |
| Evs.FinishCanonical | spread-src-4.0.0/daemon/protocol.c:1095-1176 | what is delivered before and after the transitional signal is a function of the ring's packets, the entry, the commit set and Highest_seq alone |
| Evs.CommittedFinishes | spread-src-4.0.0/daemon/protocol.c:533-577 | a daemon that has committed finds every number it needs in the final delivery |
| Evs.VirtualSynchrony | spread-src-4.0.0/daemon/protocol.c:1095-1176 | two daemons that read one entry, receive any of its packets, old ones included, and see any tokens deliver the same ordered packets in the same order with the signal at the same place |
| Evs.BeforeSignalWithin | spread-src-4.0.0/daemon/protocol.c:1104-1132 | the first loop leaves only numbers between Last_discarded and Highest_seq in the buffer |
| Evs.AfterSignalEmpties | spread-src-4.0.0/daemon/protocol.c:1140-1176 | after the second loop the buffer is empty up to Highest_seq |
| EvsTheorems.RunsFormExactly | spread-src-4.0.0/daemon/membership.c:1444-1839 | from any state of any run of the ring the first pass makes an exact entry |
| EvsTheorems.RunsAreVirtuallySynchronous | spread-src-4.0.0/daemon/protocol.c:1086-1261 | from any state of any run, through both passes and recovery, whatever the tokens make of Aru: no arrived packet where the entry has a hole, the final delivery of a committed daemon succeeds, and two that finish agree |
| EvsTheorems.SafeBeforeSignal | spread-src-4.0.0/daemon/protocol.c:1119-1122 | a SAFE packet delivered before the signal is at most the ring's aru |
| EvsTheorems.SafeAcrossRecovery | spread-src-4.0.0/daemon/protocol.c:1119-1122 | every member of the old ring, come through or not, holds a SAFE packet that anybody delivers before the signal |
| EvsLate.LateExactly | spread-src-4.0.0/daemon/protocol.c:312-359 | finishing with different Highest_seq is harmless if and only if nothing between would be delivered in order |
| EvsLate.LateDaemons | spread-src-4.0.0/daemon/protocol.c:1095-1176 | two daemons that read one entry and finish agree if and only if the packets between their Highest_seq bring nothing new |
| EvsLate.LateBreaks | spread-src-4.0.0/daemon/protocol.c:1095-1176 | one late packet makes a daemon deliver more than the others |
| EvsCore.VisitKeepsInv | spread-src-4.0.0/daemon/protocol.c:578-637 | in recovery, where Token->seq stays 0 and Set_aru is that of the old ring, the token update keeps every Aru below what every member of the new ring has, from every sound start |
| EvsCore.ReceiveKeepsInv | spread-src-4.0.0/daemon/protocol.c:388-400 | so does My_aru moving forward between visits |
| EvsRing.VisitGoes | spread-src-4.0.0/daemon/protocol.c:421-680 | a visit in recovery never exits while nothing below Aru is asked for; only a daemon that has committed installs the new membership |
| EvsRing.NextKeepsInv | spread-src-4.0.0/daemon/protocol.c:312-680 | every step of the new ring (token with its requests, hurried or not, packets of the old rings) keeps the invariant of recovery |
| EvsRing.SoundRuns | spread-src-4.0.0/daemon/protocol.c:421-680 | from a sound start, for any number of daemons and old rings, no visit is answered with an exit and nobody installs the new membership before all have committed |
| EvsTrouble.TroubleFreeExactly | spread-src-4.0.0/daemon/protocol.c:578-593 | no exit and no early finish on any run if and only if the start is sound: a condition on My_aru, Highest_seq, the missing packets and Set_aru of each daemon when FORM2 has been read |
| EvsTrouble.NobodyFinishesEarlyExactly | spread-src-4.0.0/daemon/protocol.c:1095-1100 | nobody installs the new membership before all have committed, on any run, if and only if the start is sound |
| EvsTrouble.UnsoundRun | spread-src-4.0.0/daemon/protocol.c:560-593 | from every start that is not sound, a run on which a daemon finishes while another one misses packets |
| EvsTrouble.ExitRun | spread-src-4.0.0/daemon/protocol.c:785-789 | for every ring whose leader misses packet 1 and whose second daemon stops beyond packet 2, a run on which the next daemon of the leader's old ring takes the EXIT alarm in Answer_retrans |
| EvsDeck.ZeroFirst | spread-src-4.0.0/daemon/protocol.c:578-593 | the leader at 0: the second daemon finishes in its second visit |
| EvsDeck.ZeroLater | spread-src-4.0.0/daemon/protocol.c:578-593 | another daemon at 0: the leader finishes in its second visit |
| EvsDeck.ClashLater | spread-src-4.0.0/daemon/protocol.c:578-593 | a Set_aru of the old ring equal to a number at which an earlier daemon, not the leader, stops: the leader finishes in its second visit |
| EvsDeck.ClashFirst | spread-src-4.0.0/daemon/protocol.c:578-593 | the same with the leader as the earlier one and another daemon behind that stops there: the leader keeps its mark through the round |
| EvsRuns.ReadyFromRun | spread-src-4.0.0/daemon/membership.c:1953-2030 | whoever was visited in any state of a run and reads the entry starts recovery in order, so the runs of recovery begin where those of the ring end |
| EvsRuns.FinishedAgree | spread-src-4.0.0/daemon/protocol.c:1095-1176 | on every run of the new ring, sound or not: two daemons of one old ring that have installed the new membership have handed up the same ordered packets, with the signal at the same place |
| EvsRuns.HandedUpExactly | spread-src-4.0.0/daemon/protocol.c:1095-1180 | on every run: a finished daemon has handed up exactly the ordered packets that are no hole and come before every hole or from a sender in the commit set, and before the signal exactly those before every hole and SAFE packet |
| EvsRuns.VisitExactly | spread-src-4.0.0/daemon/protocol.c:533-577 | a visit of recovery changes no packet, commits exactly if nothing is missing, and asks for exactly what is missing of the next numbers; requests of other rings stay on the token |
| EvsRuns.TokensVisit | spread-src-4.0.0/daemon/protocol.c:533-577 | the same over every run of the new ring |
| EvsRuns.PacketsArrive | spread-src-4.0.0/daemon/protocol.c:365-402 | on every run of recovery: what an arriving packet changes at the daemon it comes to, My_aru included, and that nothing else changes |
| EvsProgress.RecoveryEnds | spread-src-4.0.0/daemon/protocol.c:560-645 | from any state of a sound run in which nobody misses a packet and nobody has finished, at most three rotations bring every member to install the new membership |
| EvsLeftover.FirstVisitDropsAru | spread-src-4.0.0/daemon/protocol.c:633-637 | the first visit of recovery sets Aru to 0 |
| EvsLeftover.OldPacketStays | spread-src-4.0.0/daemon/protocol.c:360-386 | an old packet that arrives after that visit is in the buffer when the next membership starts |
| EvsLeftover.DrainedExactly | spread-src-4.0.0/daemon/protocol.c:1104-1176 | the final delivery leaves in the buffer exactly what lies at or below the entry's aru |
| EvsLeftover.BufferEmptyExactly | spread-src-4.0.0/daemon/protocol.c:1095-1176 | the buffer is empty at the end if and only if every old packet that arrived was still at or below Aru when it did; otherwise it holds exactly those that were not |
| EvsLeftover.NextRingStartsExactly | spread-src-4.0.0/daemon/protocol.c:1226-1236 | a daemon starts the next membership as the runs of Ring suppose if and only if no old packet came back |
| EvsLeftover.NewPacketDropped | spread-src-4.0.0/daemon/protocol.c:368-374 | the new packet with the number of a leftover one is dropped |
| EvsLeftover.OldPacketDelivered | spread-src-4.0.0/daemon/protocol.c:1056-1084 | the leftover packet is counted in My_aru and handed up under the new number |
| EvsLeftover.SenderExits | spread-src-4.0.0/daemon/protocol.c:932-936 | a daemon that creates a packet with the number of a leftover one exits |
| EvsDaemon.Daemon.MarkHoles | spread-src-4.0.0/daemon/membership.c:1960-1972 | marks exactly the holes, or exits when one is there |
| EvsDaemon.Daemon.ReceivePacket | spread-src-4.0.0/daemon/protocol.c:312-400 | takes a packet in without delivering it, unless it is at or below Aru, held, or a hole; the new state is that of Receive |
| EvsDaemon.Daemon.AnswerRetrans | spread-src-4.0.0/daemon/protocol.c:753-859 | sends again what is asked for of its own ring and held, and exits exactly when something below Aru is asked for |
| EvsDaemon.Daemon.RequestMissing | spread-src-4.0.0/daemon/protocol.c:616-631 | asks for exactly the numbers that are neither held nor holes, in order |
| EvsDaemon.Daemon.UpdateAru | spread-src-4.0.0/daemon/protocol.c:578-593 | aru, aru_last_id and Set_aru become those of the stamp with Token->seq 0 |
| EvsDaemon.Daemon.VisitToken | spread-src-4.0.0/daemon/protocol.c:533-645 | the visit from which the runs of EvsRing are made: answers, My_aru, commit, requests, aru stamp, new Aru, and whether the final delivery is due |
| EvsDaemon.Daemon.DeliverBeforeSignal | spread-src-4.0.0/daemon/protocol.c:1104-1132 | hands up everything before the first hole or SAFE packet, and exits exactly when one of these is neither held nor a hole |
| EvsDaemon.Daemon.DeliverAfterSignal | spread-src-4.0.0/daemon/protocol.c:1139-1176 | hands up the rest, beyond a hole only what members of the commit set have sent, and exits exactly when a number is neither held nor a hole |
| EvsDaemon.Daemon.DiscardPackets | spread-src-4.0.0/daemon/protocol.c:1095-1236 | the whole final delivery, as in the theorem of virtual synchrony, and everything reset for the next membership but for the old packets that have come back |
| Membership.InsertRepFacts | spread-src-4.0.0/daemon/membership.c:1084-1167 | inserting a representative keeps the gathered ones and adds it if there is room |
| Membership.SmallestRepFacts | spread-src-4.0.0/daemon/membership.c:1198-1237 | the scan never meets its bug exit and nobody comes before its choice (who that is: Election.ElectedExactly) |
| Membership.TokenLossKeeps | spread-src-4.0.0/daemon/membership.c:737-852 | losing the token in any state that can lose it leads to SEG in good order |
| Membership.StepKeeps | spread-src-4.0.0/daemon/membership.c:255-1061 | every message, token and timer, in every state, keeps the invariant of the machine and does not exit, "invalid rep type" included |
| Membership.RunKeepsInv | spread-src-4.0.0/daemon/membership.c:255-1061 | the invariant holds in every state of every run, over every interleaving of packets, tokens and timers |
| Membership.NoBugIsReached | spread-src-4.0.0/daemon/membership.c:737-852 | no "bug !!!" or "invalid rep type" exit is reachable; OP or EVS implies Token_alive; exactly the watchdogs of the state are pending, the token-loss timer if and only if in OP, FORM, EVS or GATHER with a token |
| MembershipSteps.StepReacts | spread-src-4.0.0/daemon/membership.c:255-1061 | what every message, token and timer does in every state that keeps the invariant: the next state, its members, representatives, memberships and timers, field by field |
| MembershipSteps.RunsReact | spread-src-4.0.0/daemon/membership.c:255-1061 | the same over every run |
| MembershipSteps.AliveReacts | spread-src-4.0.0/daemon/membership.c:322-393 | with a token, a sender inside the current membership means that the token is lost, and a sender outside changes nothing; in SEG, and in GATHER without a token, the sender becomes a member |
| MembershipSteps.JoinReacts | spread-src-4.0.0/daemon/membership.c:395-542 | a leader in OP gathers with a foreign sender, a ring with one of its own is broken, SEG becomes REPRESENTED, and GATHER takes the sender's representatives |
| MembershipSteps.LossExactly | spread-src-4.0.0/daemon/membership.c:737-852 | a lost token leaves the daemon alone in SEG with that state's timers, looking once for every other segment |
| MembershipSteps.LookoutsExact | spread-src-4.0.0/daemon/membership.c:783-835 | exactly one lookout for each other segment: its first member, or its first configured daemon |
| MembershipSteps.FormOrFailReacts | spread-src-4.0.0/daemon/membership.c:908-956 | who makes the form token, who goes back to its ring, and who gathers anew |
| MembershipSteps.FillsExactly | spread-src-4.0.0/daemon/membership.c:1444-1585 | whose turn it is on the first pass, and which members a representative brings |
| MembershipSteps.CreatesExactly | spread-src-4.0.0/daemon/membership.c:1275-1442 | the first form token: its members are those the creator brings, its representatives sorted |
| MembershipSteps.BringExact | spread-src-4.0.0/daemon/membership.c:1494-1585 | of a list those are brought that have not been visited and are not representatives themselves |
| MembershipSteps.BringKeepsOrder | spread-src-4.0.0/daemon/membership.c:1494-1585 | in the order of the list |
| MembershipSteps.TokenReacts | spread-src-4.0.0/daemon/membership.c:2273-2303 | when recovery ends the future membership is the membership, in OP, and its leader will look for others |
| MembershipSteps.InsertGathered | spread-src-4.0.0/daemon/membership.c:1084-1167 | a gathered representative already on the list takes on its new kind, another goes to the end if there is room |
| MembershipSteps.InsertPotential | spread-src-4.0.0/daemon/membership.c:1084-1167 | a potential one goes to the end if its segment is not on the list and there is room |
| MembershipSteps.InsertExitsExactly | spread-src-4.0.0/daemon/membership.c:1084-1167 | exits exactly for a daemon outside the configuration |
| MembershipSteps.SmallestExitsExactly | spread-src-4.0.0/daemon/membership.c:1198-1237 | exits exactly if the first of several is a potential representative |
| MembershipSteps.LossExitsExactly | spread-src-4.0.0/daemon/membership.c:737-852 | exits exactly if there is no token to lose |
| MembershipSteps.Form1ExitsExactly | spread-src-4.0.0/daemon/membership.c:1444-1585 | exits exactly if the daemon is expected as a potential representative |
| MembershipDaemon.InsertRep | spread-src-4.0.0/daemon/membership.c:1084-1167 | the search and update in place give the list that InsertRepFacts speaks of, and exit when it does |
| MembershipDaemon.SmallestRep | spread-src-4.0.0/daemon/membership.c:1198-1237 | the scan over updated locals finds the representative that Election.ElectedExactly describes |
| MembershipDaemon.SortReps | spread-src-4.0.0/daemon/membership.c:1257-1273 | selection over the shrinking copy gives the sorted list of which SortRepsSorts and SortRepsKeeps speak, and exits when the scan does |
| MembershipDaemon.Daemon.TokenLoss | spread-src-4.0.0/daemon/membership.c:737-852 | the handler changes the state as specified and exits when that does |
| MembershipDaemon.Daemon.FindLookouts | spread-src-4.0.0/daemon/membership.c:783-835 | one representative for every other segment, of the kind that was copied last |
| MembershipDaemon.Daemon.HandleAlive | spread-src-4.0.0/daemon/membership.c:322-393 | in each of the six states the daemon ends as AliveReacts says, and exits exactly when the machine does |
| MembershipDaemon.Daemon.HandleJoin | spread-src-4.0.0/daemon/membership.c:395-542 | in each of the six states the daemon ends as JoinReacts says, and exits exactly when the machine does |
| MembershipDaemon.Daemon.FormOrFail | spread-src-4.0.0/daemon/membership.c:908-956 | decides as the machine does whether a form token is made; otherwise a ring leader goes back to OP and the others gather anew |
| MembershipDaemon.Daemon.CreateForm1 | spread-src-4.0.0/daemon/membership.c:1275-1442 | the creator ends in FORM with exactly the watchdogs of that state, its token beginning with its own members |
| MembershipDaemon.Daemon.FillForm1 | spread-src-4.0.0/daemon/membership.c:1444-1585 | the visitor ends as the machine says, and the token it passes on is the one whose measure FillExact shows to go down |
| MembershipDaemon.Strike | spread-src-4.0.0/daemon/membership.c:1494-1585 | strikes out members that are visited or that others bring |
| Election.ElectionExactly | spread-src-4.0.0/daemon/membership.c:1198-1237 | daemons with the same representatives elect the same one, however they are ordered, if and only if nobody ties |
| Election.ElectionAgrees | spread-src-4.0.0/daemon/membership.c:1198-1237 | with nobody tied, two daemons with the same representatives in different orders elect the same daemon |
| Election.TieBreaks | spread-src-4.0.0/daemon/membership.c:1208-1220 | for every tied representative there is an order of the same list in which that one is elected |
| Election.ElectedExactly | spread-src-4.0.0/daemon/membership.c:1198-1237 | if a segment representative is on the list, the elected one is a segment representative of the least segment; otherwise it is of the least segment and first there in the configuration; the first of equals |
| Election.SortRepsSorts | spread-src-4.0.0/daemon/membership.c:1257-1273 | the list is sorted: segment representatives by segment, then the others by segment and configuration |
| Election.FillExact | spread-src-4.0.0/daemon/membership.c:1494-1585 | an accepting daemon comes next on the visited list and the lexicographic measure goes down; the one malformed case |
| Election.SortRepsKeeps | spread-src-4.0.0/daemon/membership.c:1257-1273 | sorting does not exit and only reorders the gathered representatives |
| Election.TokensAreInOrder | spread-src-4.0.0/daemon/membership.c:1275-1585 | every token, from whatever creator through whatever daemons, holds exactly the gathered representatives of its creator, none of them potential, so nobody exits "invalid rep type" |
| Election.CreatorFirst | spread-src-4.0.0/daemon/membership.c:1275-1356 | the creator is the first visited |
| Election.VisitedAreThose | spread-src-4.0.0/daemon/membership.c:1494-1585 | the members listed are those that accepted the token, in order, and it comes to an end |
| Configuration.LeaderIsFirst | spread-src-4.0.0/daemon/configuration.c:644-655 | Conf_leader is the first of the whole order |
| Configuration.LastIsLast | spread-src-4.0.0/daemon/configuration.c:657-671 | Conf_last is the last of the whole order |
| Routing.SuccessorInOrder | spread-src-4.0.0/daemon/network.c:165-246 | the token addresses that members compute on their own form one cycle in list order |
| Routing.Net.SetMembership | spread-src-4.0.0/daemon/network.c:165-246 | Token_address, Send_address and the segment leader, or failure when this daemon is not a member |
| Routing.BuildKeepsOrder | spread-src-4.0.0/daemon/membership.c:1912-1927 | the membership built from a sorted list has that order |
| Routing.Form2ReachesEveryone | spread-src-4.0.0/daemon/membership.c:1887-1927 | FORM2 passes its validity check at each member exactly once and ends at Conf_last |
| Routing.SmallestMember | spread-src-4.0.0/daemon/membership.c:1169-1196 | the member found is one that no other precedes in configuration order |
| Routing.SortMembers | spread-src-4.0.0/daemon/membership.c:1239-1255 | selection in place gives a permutation of the members in configuration order |
| Routing.PrepareForm2 | spread-src-4.0.0/daemon/membership.c:1815-1828 | in whatever order members were gathered, FORM2 goes once around all of them |
| Groups.AbsorbAllBuilds | spread-src-4.0.0/daemon/groups.c:2095-2242 | what reading any records in any order makes of a list of groups |
| Groups.ExchangeAgrees | spread-src-4.0.0/daemon/groups.c:1466-1536 | all daemons end with the same groups, ids and members, whatever the splitting, chaining and order of GROUPS messages |
| Groups.ExchangeDisagrees | spread-src-4.0.0/daemon/groups.c:1466-1536 | otherwise daemons of two sets keep different ids |
| Groups.ExchangeExactly | spread-src-4.0.0/daemon/groups.c:1380-1536 | agreement if and only if every group held under different ids is changed or comes from different memberships |
| SyncedSet.MergeExact | spread-src-4.0.0/daemon/groups.c:2547-2579 | merging two disjoint sets gives their union in configuration order |
| SyncedSet.MergeAllExact | spread-src-4.0.0/daemon/groups.c:2547-2579 | in whatever order sets are added, MySyncedSet becomes Reg_memb in configuration order |
| SyncedSet.MergesExactly | spread-src-4.0.0/daemon/groups.c:2547-2579 | two sets in configuration order can be merged if and only if they are disjoint; a daemon outside the configuration always makes it exit |
| SyncedSet.OrderIsUnique | spread-src-4.0.0/daemon/groups.c:2547-2579 | two lists in configuration order with the same members are equal |
| SyncedSet.AddToSyncedSet | spread-src-4.0.0/daemon/groups.c:2547-2579 | the loop that merges in place produces that union, and exits exactly when the sets overlap or name a daemon outside the configuration, as Merge says |
| GroupsWire.SplitEndsExactly | spread-src-4.0.0/daemon/groups.c:1997-2011 | the splitter ends if and only if every daemon's members fit a fresh buffer |
| GroupsWire.StuckForever | spread-src-4.0.0/daemon/groups.c:1837-1995 | past a daemon that does not fit it never gets |
| GroupsWire.GroupsStayWithin | spread-src-4.0.0/daemon/groups.c:1943-1950 | no buffer with its header overflows |
| GroupsWire.FillIsGreedy | spread-src-4.0.0/daemon/groups.c:1837-1995 | a message takes as much as goes into it: all its groups but the last are whole, and the next daemon or the next group would not have fitted |
| GroupsWire.SplitChains | spread-src-4.0.0/daemon/groups.c:1837-2011 | the messages follow each other without gap or overlap |
| GroupsWire.ChainCovers | spread-src-4.0.0/daemon/groups.c:1837-2011 | every daemon of every group is in some message |
| GroupsWire.ChainOrder | spread-src-4.0.0/daemon/groups.c:1837-2011 | no daemon of a group is in two messages: later spans start where earlier ones ended |
| GroupsWire.FitDaemons | spread-src-4.0.0/daemon/groups.c:1925-1985 | the inner loop: as many daemons as fit |
| GroupsWire.BuildBuf | spread-src-4.0.0/daemon/groups.c:1837-1995 | one buffer holds as much as fits from the cursor on, as specified, and leaves the cursor behind it |
| GroupsWire.BuildNewBufs | spread-src-4.0.0/daemon/groups.c:1997-2011 | for a list that fits, the loop ends, and the buffers are the split that ExchangeRoundTrip reads back |
| GroupsRebuild.ExchangeRoundTrip | spread-src-4.0.0/daemon/groups.c:2069-2244 | the messages, read in any order into an empty list, rebuild the same groups, ids, daemons, members and counts |
| GroupsRebuild.RepresentedExactly | spread-src-4.0.0/daemon/groups.c:1924-1985 | a list of groups is sent with exactly its daemons, their membership ids and their members |
| GroupsRebuild.ApartInAnyOrder | spread-src-4.0.0/daemon/groups.c:2069-2244 | messages of one sender never say two things about one daemon, in any order |
| GroupsBytes.ChunksExact | spread-src-4.0.0/daemon/message.c:320-350 | fragments are of legal size, not empty, as few as possible, and together the message |
| GroupsBytes.Fragment | spread-src-4.0.0/daemon/message.c:320-350 | the loop of fragmentation produces the chunks of header and buffer, the header in the first |
| GroupsBytes.PartsBack | spread-src-4.0.0/daemon/groups.c:2095-2242 | the group records of a message: reading their bytes gives the same records back; MessBack adds what stands in front of them |
| GroupsExchange.MessBack | spread-src-4.0.0/daemon/groups.c:2069-2242 | reading a GROUPS message gives back the membership id, the synced set of a first message, and its groups |
| GroupsExchange.AnyOrder | spread-src-4.0.0/daemon/groups.c:2069-2242 | the order of the messages does not change which records are read |
| GroupsExchange.WholeExchange | spread-src-4.0.0/daemon/groups.c:1837-2242 | the messages of a synced set, as bytes, cut into packet bodies and received in any order, can be read and rebuild exactly the groups they were made from |
| GroupsExchange.SyncedSetArrives | spread-src-4.0.0/daemon/groups.c:1880-1923 | every message brings the membership id, and the first one alone the synced set |
| GroupsExchange.MessagesFit | spread-src-4.0.0/daemon/groups.c:1880-2010 | written out, no message is longer than GROUPS_BUF_SIZE if the synced set leaves room in the first |
| GroupsExchange.PartExactly | spread-src-4.0.0/daemon/groups.c:1924-1985 | which groups can be written out: every number fits its field, every name has 32 bytes |
| GroupsBook.StepKeeps | spread-src-4.0.0/daemon/groups.c:299-1121 | joins, leaves, kills, membership changes and exchanges keep the books of the groups in order; a record may name no daemon, as one whose first daemon did not fit |
| GroupsBook.RunKeepsInv | spread-src-4.0.0/daemon/groups.c:299-1121 | the books are in order in every state of every run of joins, leaves, kills, membership changes and exchanges, cascades included |
| GroupsBook.BooksAreInOrder | spread-src-4.0.0/daemon/groups.c:2628-2763 | num_members is the sum of the member lists, no daemon entry or group is empty, mboxes are those of the local members; in GOP no group is changed and every daemon entry carries the group's membership id |
| GroupsBook.ConditionsFollow | spread-src-4.0.0/daemon/groups.c:299-684 | after any event that is not fatal, whether a transition or an exchange is under way follows from the event alone, so the fatal events are those out of turn |
| GroupsSteps.StepDoes | spread-src-4.0.0/daemon/groups.c:299-1121 | who is in which group after any event, with the ids, flags and mailboxes of the groups, field by field |
| GroupsSteps.RunsDo | spread-src-4.0.0/daemon/groups.c:299-1121 | the same over every run; a group is on the list exactly as long as it has a member |
| GroupsSteps.JoinDoes | spread-src-4.0.0/daemon/groups.c:686-870 | exactly the member that joins is new, at its daemon, in that group; index and membership ids of group and entry |
| GroupsSteps.LeaveDoes | spread-src-4.0.0/daemon/groups.c:872-1007 | exactly the member that leaves is gone, the index is one higher, other groups are untouched |
| GroupsSteps.KillDoes | spread-src-4.0.0/daemon/groups.c:1009-1121 | the member is gone from every group it was in, nobody else is, and the other groups are untouched |
| GroupsSteps.TransDoes | spread-src-4.0.0/daemon/groups.c:550-684 | nobody leaves in a transition; a group with daemons left behind starts anew with those marked, the others are as they were |
| GroupsSteps.RegInTrans | spread-src-4.0.0/daemon/groups.c:299-548 | exactly the members at daemons that came through stay; changed groups start anew in the regular membership |
| GroupsSteps.RegInCascade | spread-src-4.0.0/daemon/groups.c:299-548 | in a cascade the gathered members come in, and exactly those at daemons that came through stay |
| GroupsSteps.AbsorbedMembers | spread-src-4.0.0/daemon/groups.c:2095-2242 | reading records adds exactly the members they name |
| GroupsSteps.FatalExactly | spread-src-4.0.0/daemon/groups.c:299-1121 | which events are fatal in which state |
| GroupsSteps.StampedExactly | spread-src-4.0.0/daemon/groups.c:2751-2763 | every daemon that is not partitioned gets the id, and no other; members stay |
| GroupsSteps.BoxesMove | spread-src-4.0.0/daemon/groups.c:2732-2747 | the last mailbox takes the place of the one that goes, the others stay where they are |
| GroupsDaemon.RemoveMailbox | spread-src-4.0.0/daemon/groups.c:2732-2747 | the mailbox goes, the last one takes its place |
| GroupsDaemon.MarkPartitioned | spread-src-4.0.0/daemon/groups.c:575-620 | daemons outside Trans_memb are marked, the group changes id and flag only if there are any |
| GroupsDaemon.UpdateMembIds | spread-src-4.0.0/daemon/groups.c:2751-2763 | all but partitioned daemons get the id |
| GroupsDaemon.RemoveDaemon | spread-src-4.0.0/daemon/groups.c:2688-2708 | the count goes down by the daemon's members |
| GroupsDaemon.EliminatePartitioned | spread-src-4.0.0/daemon/groups.c:2619-2666 | exactly the partitioned daemons go |
| GroupsDaemon.Daemon.HandleJoin | spread-src-4.0.0/daemon/groups.c:686-870 | groups and mailboxes become those of which JoinDoes speaks, for new and existing groups and daemons; a member that is there already changes nothing |
| GroupsDaemon.Daemon.HandleLeave | spread-src-4.0.0/daemon/groups.c:872-1007 | groups and mailboxes become those of which LeaveDoes speaks, down to the removal of an empty daemon entry and an empty group |
| GroupsDaemon.Daemon.HandleTransInOp | spread-src-4.0.0/daemon/groups.c:550-684 | every group is marked as TransDoes says, and the daemon is in GTRANS |
| VsSets.SortedExact | spread-src-4.0.0/daemon/groups.c:201-237 | the daemons sorted by membership id, then by configuration |
| VsSets.SameSetExactly | spread-src-4.0.0/daemon/groups.c:1745-1763 | members share a set if and only if they share a daemon or a known membership id |
| VsSets.EveryoneListed | spread-src-4.0.0/daemon/groups.c:1657-1812 | each member is listed once, a joiner alone and last; the only fatal case is a joiner who is no member |
| VsSets.MembersFindTheirSet | spread-src-4.0.0/daemon/groups.c:1764-1770 | at the stored offset a member reads the set of exactly those who came its way, a joiner apart |
| VsSets.JoinerFindsItself | spread-src-4.0.0/daemon/groups.c:1262-1280 | the offset computed back from data_len is that of the joiner's own set |
| VsSets.BuildVsSets | spread-src-4.0.0/daemon/groups.c:1742-1810 | the bytes, the number of sets and the offset; "Found my vs set twice" is unreachable |
| VsSets.ListMembers | spread-src-4.0.0/daemon/groups.c:1772-1790 | the inner loop leaves out the first occurrence of the joiner and no one else |
| Datagram.PackingRoundTrip | spread-src-4.0.0/daemon/network.c:280-385 | no datagram exceeds MAX_PACKET_SIZE, the receiver accepts each, and what it unpacks is what was sent, in order |
| Datagram.PackedInGroups | spread-src-4.0.0/daemon/network.c:280-352 | every packet goes into exactly one datagram, and none is sent while the next packet would still have gone into it |
| Datagram.GroupReceived | spread-src-4.0.0/daemon/network.c:584-633 | the header walk accepts and the copying loop recovers, padding included |
| Datagram.CutExactly | spread-src-4.0.0/daemon/network.c:584-633 | of a datagram cut off after k bytes the length check accepts it if and only if k is the end of a packet or of the padding behind it; cut at the end of packet n, the first n packets are taken out |
| Datagram.CutsAreDropped | spread-src-4.0.0/daemon/protocol.c:242-246 | datagrams cut off inside a packet are lost as a whole and nothing else is lost with them |
| Datagram.DataLenExact | spread-src-4.0.0/daemon/net_types.h:110-122 | data_len is the two's complement of its two bytes, and which headers go with which bodies |
| Datagram.WalkEndsExactly | spread-src-4.0.0/daemon/network.c:584-633 | with data_len read as the signed number it is, the length check ends if and only if no offset comes twice, and then within as many iterations as there are bytes |
| Datagram.NoProgress | spread-src-4.0.0/daemon/network.c:604-628 | one header with data_len -36 behind the first packet keeps the loop at its offset for ever |
| Datagram.Outgoing.QueueBcast | spread-src-4.0.0/daemon/network.c:280-352 | appends with padding, or flushes first |
| Datagram.Outgoing.FlushBcast | spread-src-4.0.0/daemon/network.c:354-385 | sends what is queued and starts afresh |
| Datagram.CheckLength | spread-src-4.0.0/daemon/network.c:584-633 | on a datagram on which the walk ends: the length if the packets fill it exactly, -1 otherwise |
| Datagram.CopyPackets | spread-src-4.0.0/daemon/protocol.c:312-358 | the copying loop |
| Session.LocateExact | spread-src-4.0.0/daemon/message.c:420-432 | after any number of bytes the cursor stands exactly before the rest of the message |
| Session.CurrentLocation | spread-src-4.0.0/daemon/message.c:420-432 | the loop finds the cursor that LocateExact characterises |
| Session.SentSome | spread-src-4.0.0/daemon/session.c:1690-1735 | a short send moves bytes from the front of what is to come to the wire, nothing else |
| Session.Session.Write | spread-src-4.0.0/daemon/session.c:1530-1669 | the message becomes the last part of what the client will get; at the limit of queued messages the session is killed instead |
| Session.Session.Badger | spread-src-4.0.0/daemon/session.c:1671-1756 | however sends are cut short, wire followed by queue stays what was accepted |
| Session.Session.SendFirst | spread-src-4.0.0/daemon/session.c:1554-1640 | sending at once, element by element, leaves exactly the unsent rest queued at the right cursor |
| Timers.AddTimeExact | spread-src-4.0.0/daemon/events.c:176-188 | the sum is exact, and normal unless the microseconds add up to one second |
| Timers.CompareExact | spread-src-4.0.0/daemon/events.c:190-197 | the comparison follows real time, but for the one instant written in two ways |
| Timers.EnqueueExact | spread-src-4.0.0/daemon/events.c:199-287 | one event of each kind, sorted; a re-queue replaces only that event's deadline; equal deadlines keep the order of insertion |
| Timers.TimeQueue.Queue | spread-src-4.0.0/daemon/events.c:199-287 | the single walk that removes the old event and finds the place of the new one |
| Timers.TimeQueue.Dequeue | spread-src-4.0.0/daemon/events.c:289-330 | removes exactly the event of that kind and says whether there was one |

## How the model relates to the program

- Numbers are unbounded. The program uses 32-bit sequence numbers and compares membership ids by
  subtraction; overflow is not modelled. The four-bit ARQ counter and the mask of `Packets[]` are.
- A ring is a list of members in the order in which the token will reach them. A step is a visit of
  the token, the arrival of any packet ever sent, the arrival of an old token, or a client message.
  The network may deliver any packet to any daemon at any time, any number of times or never.
- How many packets a visit sends and how many requests fit the token are parameters, bounded by
  what `FC_allowed` and the size of a datagram admit. At most 40 headers of 36 bytes fit 1472 bytes;
  with this, `Ring.LimitsOk` (a personal window of at most 163) is what the 8192 entries need.
- A run starts as `Discard_packets` and `Read_form2` leave a daemon: empty buffers, `Set_aru` -1, the
  flow control figures 0, the down queue at the start of a message. The buffers are empty if and only
  if no old packet came back during the recovery before (`EvsLeftover.KeptOut`); all theorems about
  runs of `Ring` suppose this.
- In `EvsRing` the holder gets the token with any number of requests for its old ring; those of other
  rings stay on the token, as in the program. A run ends when the token comes to a daemon that has
  installed the new membership. `Last_seq` is any number above all packets.
- The invariant of the ring supposes a harmless start; all theorems about whole runs say so.
- In the membership machine, messages come from daemons of the configuration and name daemons of the
  configuration, and a form token that arrives has not listed the receiver as visited yet and holds
  no potential representative (`Election.TokensAreInOrder`: none that is made does).
- In the book-keeping machine of the groups an event out of turn, fatal in the program, ends the run.
- `Sess_write` and `Sess_badger` call a `send` that may take any part of the bytes or fail.
- A daemon's `Up_queue` entry is keyed by the sender; the program keys it by the sender's index.

## Left out

- Sockets, clocks, the configuration file, logging, authentication, the client library and the Java
  examples: their effects are parameters or steps of the environment.
- Configuration reload: it can queue a token loss in any state, so the invariant of the timers
  would not hold.
- Wrap-around of sequence numbers and of membership times.
- Liveness that depends on timeouts and on what the network loses: that a ring is eventually formed,
  or that a packet asked for arrives. What follows once everybody has everything is proved
  (RingProgress, EvsProgress).
- To whom packets are sent again (one daemon, a segment, or all), the copying of other rings'
  requests outside recovery, the arithmetic of the room that is left for requests (a parameter of a
  visit), and the counters of rounds and hurries; the workaround that swallows the token after
  MAX_EVS_ROUNDS rotations is the end of a run.
- What a daemon does in the new membership while others still recover.
- Packets from senders outside the configuration, and send errors in Net_queue_bcast and
  Net_flush_bcast: the model counts every datagram as sent.
- Byte order conversion and the flag bits of packet types.
- In Net_recv, reading a header that begins before or ends beyond what was received is taken for a
  refusal, and so is a negative length in the loop that copies the packets. The conf_hash and
  transmiter_id that Net_queue_bcast writes into the first header of a datagram are not modelled:
  headers go out as they come in.
- Backoff_membership and the recovery that follows it: its second loop never recomputes
  pack_entry, so "everything up to My_aru exists" does not hold there.
- A FORM1 token with more than 20 old rings, on which a visitor removes itself from the member list,
  is modelled for the rings' entries only.
- EvsDaemon keeps the buffer of recovery as a map from numbers, so an old packet that comes back is
  not taken for the packet 8192 further on, whose entry of Packets[] it would share. Marks of holes
  that an earlier recovery left in Packets[] are not modelled.
- HandleRefer, Memb_handle_foreign, the lookup of new members and the token-hurry timer are
  functions of the membership machine without a method of their own.
- GroupsDaemon covers the handlers with loops of their own; the membership handlers of GGATHER and
  GGT are functions of GroupsBook.
- Private groups, light-weight membership messages and the masks of groups.
- Sess_read and the acceptance of sessions.
- ExchangeExactly: covers an exchange that no further membership change interrupts; GroupsBook
  covers the books in cascades, not the agreement between daemons after them.
- TroubleFreeExactly: characterises exits and early finishes together, as NobodyFinishesEarlyExactly
  does early finishes alone; an unsound start always leads to an early finish, and to an exit in the
  cases of ExitRun.
- SoundRuns: packets above an entry's highest number do not arrive in EvsRing; what they do is the
  subject of EvsLate.
- RunsAreVirtuallySynchronous: supposes that no packet above the entry's highest number arrives,
  because otherwise the property is false; EvsLate says when exactly.
- NothingIsLostOrSplit: supposes that the commit sets name the visited daemon alone, as after a
  first token loss; RecoveryIsWhole covers cascades in which each daemon has the packets of everyone
  in its commit set.
- TotalOrder: says nothing of single-packet RELIABLE messages, which are delivered early on purpose.
- FlowIsBounded: supposes that nothing is retransmitted, because FC_allowed does not limit
  retransmissions.
- GroupsStayWithin: counts the bytes as the program does; the limit on local members does not charge
  the message header that the splitter charges.
