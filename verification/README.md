# Verified model of the shelf-label edge tier

This project models, in Dafny, the part of the shelf-label platform that runs inside a store,
and proves what it promises. Six areas are covered.

- **Mesh** (`MeshModel`, `MeshRoutes`, `MeshRouteLaws`, `NeighbourTables`, `RegistrationLaws`,
  `Formation`, `FormationLaws`, `FormedFlag`, `FormationRoutes`, `RouteDrift`, `Network`,
  `MeshWitnesses`): neighbour tables trimmed to a radio's capacity, a tree formed by interleaved
  association exchanges, and the coordinator's least-cost routing table.
- **Price delivery** (`Scheduling`, `SchedulingLaws`, `Coordinator`, `Delivery`, `DeliveryLaws`,
  `Endpoints`): the controller reserves a sequence durably, the coordinator schedules and retries
  over a radio that loses, repeats and delays, the label verifies what it displays and enforces a
  monotonic sequence, and the controller may crash between any two steps.
- **Upstream buffer** (`QueueKeys`, `UpstreamQueue`, `BufferStore`, `Buffer`, `BufferSlots`,
  `BufferFailures`, `FlushMachine`, `FlushAccounts`, `FlushPass`, `Flush`, `Gateway`): a bounded
  ordered queue over a key-value store, with coalescing, eviction and reopening, and the flush to the
  cloud, while messages come in, marks run out, writes fail and processes die.
- **Label images** (`ImageCodec`, `DecodeLimit`, `Framebuffer`): the run-length wire format, differences,
  windows, and the window that turns the previous image into the next.
- **Clocks and mode** (`HybridClock`, `WanDetector`).
- **Firmware encodings** (`Calendar`, `Canon`, `Sha256`, `Crc32c`, `SequenceRule`,
  `RecordDamage`, `FirmwareLaws`): the civil-date algorithm, the canonical price string,
  streaming SHA-256, CRC-32C and the sequence record. `Bytes`, `Ordering` and `Common` hold what several modules share.

A part of the source that changes state step by step is a class or a method with loops, and is
proved against a function or a predicate on values; the laws are then lemmas about those values.
The modules named `Laws` say what each step does, and what every run must then do, in the fields of
the state alone and both ways: what happens, exactly when, and what then stays as it was.
A protocol is a state machine: a datatype of events, a step function, an invariant that every
step keeps, and theorems about every history of events. The objects that run a protocol
(`Network`, `Coordinator`, `Controller`, `ShelfLabel`, `Queue`) have a `Valid()` that holds the
invariant of every run, and each of their methods is a step. Whatever the outside world decides (does
a signature verify, does a write reach the disk, does the radio deliver, which timer fires next)
is a parameter of the event, so each theorem holds for every choice.

`dafny verify dfyconfig.toml` verifies the whole project.

## Where the code and its comments part

- **Avoidance.** The comment on the avoidance penalty (edge/mesh/routing.go:41-46) counts seven
  per hop over a five-hop radius. The code also adds two for a nearly flat relay. The penalty
  still dominates up to seven hops (`AvoidanceDominates`), and at eight it does not
  (`EightHopsMayLose`, on a ring that satisfies every invariant of registration and formation).
- **Stale routes.** The comment on the route look-up (edge/mesh/routing.go:502-503) says that the
  table is rebuilt if a topology change has invalidated it. Ramps, fades and running batteries
  change costs without marking it (edge/mesh/network.go:516-522 and 656-683). What a look-up hands
  out is the best for the zone as it was computed for, and for the zone as it is now if no hop has
  changed its cost (`Route`, `HarmlessDrift`), or if only its own hops improved and only others
  worsened (`FavouredStaysLeast`); otherwise it need not be (`FadedRouteIsNotLeast`).
- **Stale deadlines.** Join callbacks check which round they belong to; the end of formation does
  not (edge/mesh/routing.go:142-160). A deadline left over from before a restart declares the
  network formed (`StaleDeadlineMisleads`). That is the only step that makes the flag wrong
  (`TrustLostExactly`). The flag is right throughout every run in which a round is called only once
  the last has been announced (`PrudentRunsTrusted`), and any round called earlier can be misled
  (`ImprudentCallMisleads`). Nothing else of a stale round has any effect (`StaleChangesNothing`).
- **Parent choice.** The comment on the choice of parent (edge/mesh/routing.go:250-252) speaks of
  the strongest link with ties broken toward the shallower node. The code scores link quality
  minus twelve per level and keeps the first of equal scores in table order (`BestIsFirstBest`).
- **A second coordinator** is refused only after it has been registered
  (edge/mesh/network.go:416-421), so it stays among the nodes; its table is empty until a later
  radio in range meets it like any other. All invariants hold with it present.
- **The image decoder** converts varints to signed integers (edge/sec/framebuffer.go:447-486), so
  a sum can wrap and the decoder then accesses its buffers out of range. That takes a varint of
  2^63 - 65534 or more, and no less (`LimitIsSharp`).
- **A retry of a committed sequence** is stale (firmware/src/app/usslp_seq.c:28), although the
  header says that the recovered sequence accepts the retry (firmware/src/app/usslp_seq.h:22-29).
  The one exception is the sentinel INT64_MIN itself (`RetryIsStale`).
- **The sequence record** stores its checksum high byte first, so that body and checksum are not
  one codeword: damage across their border can pass in two places (`RejectedExactly`).
- **Stale topic entries.** Removing an entry leaves its topic in the coalescing map
  (edge/sgu/queue.go:299-308), so Coalesced and Flushed can count one entry twice. The counters
  satisfy an inequality, and each operation says when it widens it (`Enqueue`, `Remove`).
- **A failed write** leaves the index ahead of the store: exactly the queued records that the
  enqueue takes out are orphaned (`FailedWriteOrphans`, `OrphansExactly`), and a restart queues them
  again. For a coalescable entry the version it replaced can so outlive its successors
  (`FailedWriteLeavesTwo`), and a restart finds two versions exactly if an enqueue could not take the
  older one out (`DoublesExactly`, `ReopenedTwice`). No entry is lost by it (`NothingLost`), and an
  entry whose removal failed is not published again while its mark holds. An indexed entry
  without a record is skipped by a flush but never removed (edge/sgu/queue.go:311-335), so 128 of
  them at the head stop every later flush (edge/sgu/autonomy.go:527-534): an entry goes exactly when
  fewer than 128 precede it (`WithinMeans`, `AllWithinReach`, `StalledExactly`).
- **Clock skew** is computed in 64-bit nanoseconds and wraps for a peer some 292 years away.
  `RefusedInWindows` says which peers it refuses, `RefusalRightExactly` when that is what its
  comment says, and `SkewWrapAdmits` gives a peer that it lets through.
- **A finished delivery may go on the air again.** A failed report is retried without asking whether
  the job is still pending, and a time-out if any delivery of the label is
  (edge/sec/coordinator.go:566-618), so an acknowledgement that overtakes the radio's report is
  followed by another transmission (`RetriedExactly`, `FinishedMayAir`). The label then discards it
  as stale, and no outcome changes (`ShownExactly`, `DoneFiresOnce`).
- **A late or lost acknowledgement** can leave the controller's displayed sequence behind the
  glass, never ahead of it (`SequenceSandwich`). A partial refresh against the stale image can then
  leave the glass wrong (`StaleFileMisleads`).

## Model

| member | source | states |
|---|---|---|
| `MeshModel.LinkCostIsZigbee` | edge/mesh/radio.go:202-215 | the integer link cost used throughout is, at every LQI, the rounded reciprocal fourth power clamped to 1..7 |
| `MeshRoutes.LeastIndex` | edge/mesh/routing.go:363-386 | the popped entry is least by cost, then by name |
| `MeshRoutes.OfferHop` | edge/mesh/routing.go:426-460 | offering one peer a hop keeps the search invariant and accounts for that peer |
| `MeshRoutes.Relax` | edge/mesh/routing.go:415-461 | settling a popped node leaves no hop out of it that undercuts a known distance |
| `MeshRoutes.ShortestDistances` | edge/mesh/routing.go:403-461 | the search ends with exact distances and a predecessor tree of usable hops |
| `MeshRoutes.PathsCostAtLeastDistance` | edge/mesh/routing.go:412-461 | no path whatever costs less than the distance found |
| `MeshRoutes.WalkBack` | edge/mesh/routing.go:464-482 | walking predecessors ends, because distance strictly falls, and yields the tree path from the coordinator |
| `MeshRoutes.CollectRoutes` | edge/mesh/routing.go:463-490 | exactly the walks that fit the radius are entered |
| `MeshRoutes.ComputeRoutes` | edge/mesh/routing.go:397-491 | each entry is a least-cost path within the radius; a reachable node is absent only if a least-cost path to it exceeds the radius |
| `MeshRouteLaws.RouteRelays` | edge/mesh/routing.go:414-431 | everything between the ends of a route is a live, joined, non-end-device relay; the destination is live and joined |
| `MeshRouteLaws.LeastPathIsSimple` | edge/mesh/routing.go:397-491 | a least-cost path visits no node twice |
| `MeshRouteLaws.AvoidanceDominates` | edge/mesh/routing.go:41-51 | a node with a clean path of at most seven hops is never routed to over an avoided link |
| `MeshRouteLaws.RoutesFollowHops` | edge/mesh/routing.go:397-491 | a routing table stays optimal for any zone that offers the same hops at the same cost |
| `MeshRouteLaws.RoutesAreCheapest` | edge/mesh/routing.go:397-491 | hop by hop, in the fields of radios and links and the Zigbee formula: a route's every hop can carry a frame and no such chain costs less; a radio without one is out of reach of every chain within the radius that is cheapest |
| `MeshWitnesses.EightHopsMayLose` | edge/mesh/routing.go:41-51 | at eight hops avoidance fails: a ring with a clean path of eight hops, in which every table takes the avoided link |
| `MeshWitnesses.RingIsComplete` | edge/mesh/network.go:428-453 | in that ring every radio hears exactly those in range |
| `MeshWitnesses.RingIsSound` | edge/mesh/network.go:402-457 | its tables and its tree satisfy every invariant of registration and formation |
| `MeshWitnesses.FadedRouteIsNotLeast` | edge/mesh/network.go:673-683 | after a fade, the route every table holds is no longer the best, and nothing marks it |
| `MeshWitnesses.TriangleIsSound` | edge/mesh/network.go:402-457 | the zone of that fade satisfies every invariant before and after it |
| `NeighbourTables.AscendingUnique` | edge/mesh/routing.go:79-89 | sorting peers by role, distance and name has one answer |
| `NeighbourTables.TrimExact` | edge/mesh/routing.go:62-102 | trimming keeps exactly the capacity's worth of most preferred peers and parts from the rest on both sides, links included |
| `NeighbourTables.TrimKeepsAParent` | edge/mesh/routing.go:57-102 | a trimmed table that held a possible parent still holds one |
| `NeighbourTables.MetAllKeeps` | edge/mesh/network.go:446-453 | meeting candidates in turn, each trimming at once and so rewriting others, keeps every other table in order |
| `NeighbourTables.AddKeeps` | edge/mesh/network.go:402-457 | one registration, refused or not, keeps all table invariants |
| `NeighbourTables.TablesAlwaysOk` | edge/mesh/network.go:402-457 | after any sequence of registrations: symmetric, duplicate-free, in range, a link exactly per pair, every table within capacity |
| `RegistrationLaws.RegisteredExactly` | edge/mesh/network.go:402-426 | each outcome of a registration, exactly when it occurs, and the fields of the new radio |
| `RegistrationLaws.AddMeetsAllInRange` | edge/mesh/network.go:428-457 | a registration that fills no table leaves every older pair as it was and makes neighbours of the new radio and exactly those within range, nearest first |
| `RegistrationLaws.AddLinksAllInRange` | edge/mesh/network.go:449-455 | and gives each such pair a link of the quality measured, the others as before |
| `RegistrationLaws.FullTableKeepsTheBest` | edge/mesh/routing.go:62-103 | a full table keeps as many as it has room for: better standing first, then nearer, then by name; both sides forget a dropped pair |
| `RegistrationLaws.NeighboursInRange` | edge/mesh/network.go:402-457 | after any run that brings no radio more others within range than its table has room for, two radios are neighbours exactly if within range and the later was not refused as a second coordinator |
| `RegistrationLaws.FewAreSparse` | edge/mesh/network.go:402-457 | at most 25 calls are such a run |
| `Formation.BestIsFirstBest` | edge/mesh/routing.go:253-281 | the chosen parent scores no less than any eligible peer, and more than any listed before it |
| `FormationLaws.ParentChosenExactly` | edge/mesh/routing.go:253-281 | a parent is chosen exactly if some listed radio can take the child, and none that can has a better link less twelve per level |
| `FormationLaws.AttemptLeadsTo` | edge/mesh/routing.go:195-225 | an attempt leads to an exchange with the best radio that can take the child, to another attempt if there is none, or to nothing |
| `FormationLaws.ExchangeEnds` | edge/mesh/routing.go:226-247 | an exchange that can end in an association does: below that parent, one deeper, one child more, nothing else changed; if not, nobody changes and a current one is tried again |
| `FormationLaws.AttemptJoins` | edge/mesh/routing.go:195-247 | in every run: a current attempt of a radio that some radio can take, then whatever happens, then the end of its exchange while there is room, leaves it joined |
| `FormationLaws.RoundCalls` | edge/mesh/routing.go:118-187 | a round calls exactly the live radios still to join, each once, and sets its deadline |
| `FormationLaws.RestartForgets` | edge/mesh/routing.go:315-331 | after a restart nobody but the coordinator is joined and nobody has a child |
| `FormationLaws.AnnouncedExactly` | edge/mesh/routing.go:142-184 | a round is announced exactly when its deadline passes or its last radio joins, and only that puts the flag up |
| `Formation.StaleChangesNothing` | edge/mesh/routing.go:195-225 | erasing every stale callback and deadline from any history leaves zone, round, enrolment and all that is still to come of the round the same; only the formed flag can differ |
| `Formation.ParentsReachCoordinator` | edge/mesh/routing.go:236-241 | following parents from a joined radio reaches the coordinator in exactly its depth |
| `Formation.StepKeeps` | edge/mesh/routing.go:118-333 | every callback, deadline, round, reset, registration, link and battery change keeps tables, tree, callbacks and announcements in order |
| `Formation.RunKeeps` | edge/mesh/routing.go:118-333 | so does every run |
| `Formation.FormationInvariant` | edge/mesh/routing.go:118-302 | in every run: parents are joined relays, depth within the limit and equal to the distance to the coordinator, child counters exact and within the limit, nobody called for is stranded |
| `Formation.AssociationStands` | edge/mesh/routing.go:220-247 | until a restart an association is never changed, although the end of an exchange does not recheck it |
| `Formation.EarlyFinishMeansAllJoined` | edge/mesh/routing.go:142-184 | in every run, a round announced complete before its deadline has joined everybody it called for |
| `Formation.StaleDeadlineMisleads` | edge/mesh/routing.go:142-184 | a history in which the deadline of an earlier round declares the network formed while a radio has still to join |
| `FormedFlag.TrustLostExactly` | edge/mesh/routing.go:142-184 | a step spoils a right flag exactly when it is the deadline of an unannounced earlier round while the current one is not announced either |
| `FormedFlag.PrudentRunsTrusted` | edge/mesh/routing.go:118-184 | in every run in which a round is called only once the last has been announced, the flag is right throughout |
| `FormedFlag.ImprudentCallMisleads` | edge/mesh/routing.go:118-184 | after any history whose round is not announced, calling another lets the first one's deadline put the flag up wrongly |
| `FormationRoutes.ChainIsAPath` | edge/mesh/routing.go:408-453 | a joined radio whose associations stand on usable links has a path along its ancestors, as many hops long as it is deep |
| `FormationRoutes.JoinedRadiosAreRouted` | edge/mesh/routing.go:468-498 | a routing table omits such a radio only for a best path that is too long, never if the chain costs no more than the limit, and routes it at no more than the chain's cost |
| `FormationRoutes.FormedRadiosAreReachable` | edge/mesh/routing.go:118-302 | in every run such a radio has a path within the depth limit |
| `Network.RemoveFirst` | edge/mesh/routing.go:94-101 | removes the first occurrence and nothing else |
| `Network.SortPeers` | edge/mesh/routing.go:79-89 | sorts peers by the given preference |
| `Network.Network.TrimNeighbours` | edge/mesh/routing.go:62-102 | the object's tables become the trimmed ones |
| `Network.Network.FindCandidates` | edge/mesh/network.go:428-445 | the radios in range, nearest first, whatever order the map is walked in |
| `Network.Network.MeetAll` | edge/mesh/network.go:446-453 | the loop over candidates is the fold of meetings and trims |
| `Network.Network.AddNode` | edge/mesh/network.go:402-457 | moves the object by the registration step, error cases included, and keeps it valid |
| `Network.Network.BestParent` | edge/mesh/routing.go:253-281 | the scan finds the parent of the specification |
| `Network.Network.Form` | edge/mesh/routing.go:118-185 | starts a round: one attempt for every live radio still to join, a deadline, and an immediate end if there is nobody to call |
| `Network.Network.Finish` | edge/mesh/routing.go:142-160 | announces a round once and marks the routes stale |
| `Network.Network.PassDeadline` | edge/mesh/routing.go:142-184 | a deadline moves the object by the deadline step, whatever round it belongs to |
| `Network.Network.ResetAssociations` | edge/mesh/routing.go:315-330 | forgets every association and every route |
| `Network.Network.RestartCoordinator` | edge/mesh/routing.go:315-333 | a reset followed by a round, from a valid state to a valid state |
| `Network.Network.AttemptJoin` | edge/mesh/routing.go:195-218 | one attempt moves the object by the attempt step |
| `Network.Network.EndExchange` | edge/mesh/routing.go:220-247 | the end of an exchange moves the object by the exchange step, the announcement of the last join included |
| `Network.Network.SetLink` | edge/mesh/network.go:637-645 | degrading, cutting, restoring or avoiding a link leaves routes that are the best for the changed zone |
| `Network.Network.Fade` | edge/mesh/network.go:656-683 | link quality changes, the routes do not, and the zone they were computed for is remembered |
| `Network.Network.SetBattery` | edge/mesh/network.go:516-522 | so for a battery |
| `Network.Network.RecomputeRoutes` | edge/mesh/routing.go:397-500 | the routes become the best for the zone as it is |
| `Network.Network.Route` | edge/mesh/routing.go:504-522 | the route handed out is least-cost for the zone as computed for, and for the zone as it is if it offers the same hops at the same cost or the drift favours the route; missing only for want of a path or for length |
| `Network.HarmlessDrift` | edge/mesh/routing.go:433-453 | drift that crosses no cost step, usable limit or battery limit leaves every hop and cost as it was |
| `RouteDrift.FavouredStaysLeast` | edge/mesh/routing.go:408-467 | a least-cost path stays least when none of its hops got dearer or unusable and no hop apart from it got cheaper or newly usable |
| `Network.DriftAsideFavours` | edge/mesh/routing.go:433-453 | so it does when its links kept their cost step or improved, the others kept theirs or worsened, and no relay of it ran low or any recovered |
| `Scheduling.StepKeeps` | edge/sec/coordinator.go:462-618 | every step of the scheduler keeps its invariant |
| `Scheduling.RunKeeps` | edge/sec/coordinator.go:462-713 | so does every run |
| `Scheduling.SchedulerGuarantees` | edge/sec/coordinator.go:462-618 | in every run: each delivery in exactly one of queued, pending and finished; its callback called exactly once if finished and never otherwise; one pending per label and at most MaxInflight in all; at most MaxAttempts transmissions; no free label waits while slots are free and no pump runs |
| `Scheduling.DoneFiresOnce` | edge/sec/coordinator.go:772-810 | a step calls at most one callback, exactly that of the delivery it finishes, which was never called before; a reported outcome never changes |
| `Scheduling.DeliveredMeansAcknowledged` | edge/sec/coordinator.go:659-713 | a delivery counts as delivered only on an applied acknowledgement of its own label and sequence |
| `Scheduling.StartsInOrder` | edge/sec/coordinator.go:482-513 | a start takes the earliest eligible entry, so a label's deliveries start in submission order |
| `Scheduling.RetriesAreBounded` | edge/sec/coordinator.go:516-618 | over every run, with a positive attempt limit a delivery sees at most three transmissions, reports and time-outs per attempt allowed |
| `SchedulingLaws.FinishedExactly` | edge/sec/coordinator.go:462-804 | the events that finish a delivery, with its outcome: exactly a submission after a stop, a transmission to a label that refuses it, a failed report or time-out after a stop or at the limit, and an acknowledgement of its label and sequence |
| `SchedulingLaws.FailureIsRetried` | edge/sec/coordinator.go:566-618 | a failed report or a time-out of a pending job below the limit leaves it pending with a transmission to come |
| `SchedulingLaws.RetriedExactly` | edge/sec/coordinator.go:566-618 | after a failed report another transmission comes exactly if not stopped and attempts are left; after a time-out exactly if, besides, any delivery of the label is pending, the job itself finished or not |
| `SchedulingLaws.FinishedMayAir` | edge/sec/coordinator.go:516-713 | an acknowledgement that overtakes the radio's report lets a delivery already applied go on the air again |
| `SchedulingLaws.AirsExactly` | edge/sec/coordinator.go:516-562 | a delivery goes on the air exactly when its transmission comes up and its label has not refused such frames |
| `SchedulingLaws.NeverStuck` | edge/sec/coordinator.go:516-618 | a pending job always has an event of its own to come |
| `SchedulingLaws.EveryOutcomeHasItsReason` | edge/sec/coordinator.go:462-804 | in every run: abandoned only after a stop or after all attempts went on the air; refused for want of an attestation only for a label that said so |
| `SchedulingLaws.StrictExactly` | edge/sec/coordinator.go:724-739 | a label is known to refuse unattested frames exactly once one of its acknowledgements said so |
| `SchedulingLaws.StoppedExactly` | edge/sec/coordinator.go:446-455 | the coordinator is stopped exactly from the moment it is told to, for good |
| `Coordinator.Coordinator.SubmitDelivery` | edge/sec/coordinator.go:462-473 | moves the object by the submission step |
| `Coordinator.Coordinator.PumpTurn` | edge/sec/coordinator.go:482-513 | one pump turn starts the first delivery whose label is free, or ends the loop |
| `Coordinator.Coordinator.CompleteJob` | edge/sec/coordinator.go:772-804 | a job is finished only while it holds its label's slot |
| `Coordinator.Coordinator.TransmitJob` | edge/sec/coordinator.go:516-562 | transmits and counts the attempt, or refuses an unattested frame to a strict label |
| `Coordinator.Coordinator.TxDone` | edge/sec/coordinator.go:540-592 | the radio's report: wait for the label, retry or give up |
| `Coordinator.Coordinator.HandleAckTimeout` | edge/sec/coordinator.go:595-618 | a timeout retries, gives up, or is ignored once the slot is free |
| `Coordinator.Coordinator.ReceiveAck` | edge/sec/coordinator.go:659-713 | an acknowledgement completes the pending job it answers and no other |
| `Coordinator.Coordinator.NoteStatus` | edge/sec/coordinator.go:724-739 | remembers a label that refuses unattested frames |
| `Coordinator.Coordinator.Guarantees` | edge/sec/coordinator.go:462-618 | every guarantee of the scheduler holds of the object, for every delivery submitted to it |
| `Coordinator.Coordinator.Halt` | edge/sec/coordinator.go:446-455 | moves the object by the stop step |
| `Delivery.StepKeeps` | edge/sec/controller.go:537-672 | every step of controller, coordinator, radio and label keeps the protocol invariant |
| `Delivery.RunKeeps` | edge/sec/controller.go:537-672 | so does every run, crashes included |
| `Delivery.SequenceSandwich` | edge/sec/controller.go:537-672 | in every run: displayed on record <= on the glass <= durably reserved, and the glass shows the price of the one accepted update of that sequence |
| `Delivery.NothingFalls` | edge/sec/controller.go:828-848 | no step lowers a label's sequence or a durable record; only a crash lowers the displayed sequence in memory |
| `Delivery.AcceptedStands` | edge/sec/controller.go:564-574 | no step takes back or reprices an accepted update |
| `Delivery.RunNeverFalls` | edge/labelsim/label.go:677-803 | between any two moments of any run nothing durable falls and nothing on the glass moves back |
| `Delivery.DeliveredWasShown` | edge/sec/controller.go:828-848 | a delivery reported delivered was shown with exactly its sequence and price, and is then the displayed one on record |
| `Delivery.DeliveredMeansShown` | edge/sec/coordinator.go:659-713 | in every run, every delivery reported delivered was applied by its label |
| `Delivery.UnverifiedLeavesNoTrace` | edge/sec/controller.go:548-559 | erase every unverified update from any history, and the system is at every moment the same |
| `DeliveryLaws.ShownExactly` | edge/labelsim/label.go:677-803 | a step changes what a label shows exactly if a frame with a greater sequence reaches it that verifies if attested and is attested if the label is strict |
| `DeliveryLaws.AnsweredExactly` | edge/labelsim/label.go:677-803 | what the label answers in each case, and that a frame changes nothing else |
| `DeliveryLaws.GlassIsRising` | edge/labelsim/label.go:677-803 | in every run a label has shown exactly the welcome frames that reached it, each that exceeds those before it |
| `DeliveryLaws.ShownCameWelcome` | edge/labelsim/label.go:700-726 | everything a label ever showed came in a frame that was welcome |
| `DeliveryLaws.UnverifiedFramesShowNothing` | edge/labelsim/label.go:700-726 | erasing from any history the frames that do not verify leaves what every label has shown |
| `DeliveryLaws.AcceptedExactly` | edge/sec/controller.go:537-672 | an update is put on its way exactly if it is for a label of the zone, verifies, is newer, renders and is reserved; a gap is no reason to refuse; any other leaves no trace beyond memory |
| `DeliveryLaws.DisplayedExactly` | edge/sec/controller.go:828-848 | the displayed sequence moves exactly on an acknowledgement that says applied and answers the pending job |
| `DeliveryLaws.AirExactly` | edge/sec/coordinator.go:516-562 | a frame goes on the air exactly then, and carries the delivery as submitted |
| `Endpoints.ShelfLabel.Receive` | edge/labelsim/label.go:584-803 | the glass changes exactly if the frame is newer, verifies if attested, and is attested if the label is strict; the answer says which; the sequence never falls, and a sound system stays sound |
| `Endpoints.Controller.constructor` | edge/sec/controller.go:432-474 | opening on a durable store is the crash step, and what it opens on stays sound |
| `Endpoints.Controller.Apply` | edge/sec/controller.go:537-672 | the update path is the protocol step and keeps the system sound; every refusal but a failed write leaves the controller as it was |
| `Endpoints.Controller.Acknowledge` | edge/sec/controller.go:828-848 | an acknowledgement is the protocol step and keeps the system sound |
| `Endpoints.Controller.Sound` | edge/sec/controller.go:619-644 | of the controller object: displayed on record <= on the glass <= in its store, for every label |
| `QueueKeys.KeyOrder` | edge/sgu/queue.go:163-165 | fixed-width hexadecimal keys sort as the numbers they carry and are unique |
| `QueueKeys.KeyReads` | edge/sgu/queue.go:155-165 | a key is the prefix and sixteen lower-case digits that say the sequence number |
| `QueueKeys.SortedUnique` | edge/sgu/queue.go:173-202 | a set of keys has one sorted enumeration |
| `UpstreamQueue.EvictionExact` | edge/sgu/queue.go:257-296 | the victims are the shortest prefix of (class, position) whose removal meets both bounds, and survivors keep their order |
| `UpstreamQueue.SacrificeByClass` | edge/sgu/queue.go:257-296 | by class and age: bulk goes first, then latest values, then critical entries, each oldest first and nothing else; each goes because there is still too much, and in the end there is not |
| `UpstreamQueue.CriticalGoesLast` | edge/sgu/queue.go:257-296 | critical evidence goes only once no bulk entry and no latest value is left |
| `UpstreamQueue.BoundsHold` | edge/sgu/queue.go:257-296 | with only the three classes, both bounds hold after eviction |
| `BufferStore.PutAgrees` | edge/sgu/queue.go:222-223 | storing the new entry keeps store and index in step |
| `BufferStore.DeleteAgrees` | edge/sgu/queue.go:273-277 | so does deleting a victim |
| `BufferStore.IndexTells` | edge/sgu/queue.go:185-186 | the record filed under an indexed number says the number, class, topic, time and size that the index says |
| `BufferStore.ReopenRestores` | edge/sgu/queue.go:173-202 | a scan of a store in step rebuilds the very same order |
| `BufferStore.AgreesUnique` | edge/sgu/queue.go:173-202 | a store is in step with one order only |
| `BufferStore.NextIsAbove` | edge/sgu/queue.go:173-202 | the restored counter is above every queued sequence and no higher than needed |
| `BufferStore.ReopenedIndex` | edge/sgu/queue.go:173-202 | whatever writes had failed, reopening indexes exactly the readable records, in order, and is then in step |
| `BufferStore.Scan` | edge/sgu/queue.go:178-179 | the bindings come out once each in byte order |
| `Buffer.OneLatestPerTopic` | edge/sgu/queue.go:225-234 | at most one coalescable entry per topic is queued |
| `Buffer.TopicsStay` | edge/sgu/queue.go:225-247 | an enqueue keeps at most one queued entry per topic, coalescing and eviction included |
| `Buffer.AppendedByTopic` | edge/sgu/queue.go:225-241 | an enqueue takes out its own topic's queued version, appends the new entry, and leaves the rest to the overflow policy |
| `Buffer.UnstatedIsEvidence` | edge/sgu/queue.go:205-248 | an entry of no stated class is critical evidence: it takes out no version of its topic and goes only once no bulk entry and no latest value is left; any other class stands, and unknown ones are never given up |
| `Buffer.VictimsCounted` | edge/sgu/queue.go:283-290 | each victim is counted once, bulk and other classes apart |
| `Buffer.LossyMeans` | edge/sgu/queue.go:280-286 | evidence counts as lost exactly when a critical entry was given up, and then nothing of a lower class is left |
| `Buffer.TopicsOfOk` | edge/sgu/queue.go:180-197 | the topic map rebuilt on opening names each topic's queued entry |
| `Buffer.BatchAgrees` | edge/sgu/queue.go:222-247 | the whole batch of one enqueue leaves store and index in step |
| `Buffer.Queue.constructor` | edge/sgu/queue.go:173-202 | opening restores order, depth, bytes, topics and counter from the scan |
| `Buffer.Queue.RemoveIndexed` | edge/sgu/queue.go:299-308 | drops one sequence from an exact index |
| `Buffer.Queue.Evict` | edge/sgu/queue.go:257-296 | the nested loop computes exactly the specified victims, counters, topics and deletions |
| `Buffer.Queue.Enqueue` | edge/sgu/queue.go:205-248 | coalesce, append, evict, write: the new order, counters, topics and store; after a failed write the buffer is in step exactly if its order did not change; the counter gap widens exactly on a stale topic |
| `Buffer.FailedWriteLeavesTwo` | edge/sgu/queue.go:225-247 | a failed write between two good ones leaves two entries of one topic to be found on reopening |
| `BufferFailures.FailedWriteOrphans` | edge/sgu/queue.go:225-248 | a failed write orphans exactly the queued records whose numbers the enqueue takes out |
| `BufferFailures.OrphansExactly` | edge/sgu/queue.go:225-248 | from a buffer in step it orphans a record exactly when, before it, the topic's version is still queued or an older entry falls to the bounds |
| `BufferFailures.DoublesExactly` | edge/sgu/queue.go:225-248 | an enqueue first leaves two versions of a topic stored exactly when the new one stays and the store holds another that it does not take out |
| `BufferFailures.ReopenedTwice` | edge/sgu/queue.go:173-202 | reopening finds two queued versions of a topic exactly when the store holds two |
| `Buffer.Queue.Peek` | edge/sgu/queue.go:311-335 | the readable entries at the head, in order, or an error at the first read that fails |
| `Buffer.Queue.Remove` | edge/sgu/queue.go:338-347 | removes one entry from index and store and keeps them in step; the counter gap widens exactly when the entry was absent |
| `Buffer.Queue.MarkSent` | edge/sgu/queue.go:354-362 | remembers a key, unless it is empty or the write fails |
| `Buffer.Queue.Expire` | edge/sgu/queue.go:358-360 | a mark written with a time to live runs out |
| `Buffer.Reopen` | edge/sgu/queue.go:173-202 | reopening indexes the readable records with the counter just above them; the same order, depth and bytes if the queue was in step; one entry per topic exactly if the store holds one |
| `Flush.FlushOne` | edge/sgu/autonomy.go:548-566 | one entry: skipped if its mark is found, else published, marked and removed, each write succeeding or not, with messages and expiries in between; the history grows by those and by exactly the operations performed before it is done or dies |
| `Flush.FlushBatch` | edge/sgu/autonomy.go:547-567 | a batch stops at the first message the link does not take, which is then one of the calls it made |
| `Flush.Drain` | edge/sgu/autonomy.go:517-572 | the flush ends, whatever comes in meanwhile; if link and store kept up at each of its own polls, calls and reads, nothing within reach is left; if it died it performed exactly the operations it had; the history grows by its steps and the interruptions, in order |
| `FlushPass.QuietFlush` | edge/sgu/autonomy.go:517-572 | an uninterrupted flush has, wherever it stops or dies, dealt with the first entries in order: published those not skipped, marked those written, removed them, with at most one entry in hand |
| `FlushPass.AllWithinReach` | edge/sgu/autonomy.go:527-534 | once nothing is within reach, exactly the entries that were within reach have gone |
| `FlushPass.FlushLapsesNothing` | edge/sgu/autonomy.go:548-566 | a flush takes nothing back from the cloud, and while marks are kept no key lapses |
| `BufferSlots.WithinMeans` | edge/sgu/autonomy.go:527-534 | an entry is within reach of a flush exactly when fewer than a batch of entries without a record precede it |
| `BufferSlots.StalledExactly` | edge/sgu/queue.go:311-335 | nothing is within reach exactly when the first batch of the index has no record at all |
| `FlushPass.StalledAt128` | edge/sgu/autonomy.go:518-534 | a flush finds nothing exactly when none of the first 128 indexed entries has a readable record |
| `FlushPass.PassInOrder` | edge/sgu/autonomy.go:512-572 | each pass publishes in increasing sequence |
| `Flush.Restart` | edge/sgu/queue.go:173-202 | reopening the store, at whatever point the process died and whatever writes had failed, appends the crash step of the machine; the new buffer is in step |
| `Flush.Offer` | edge/sgu/queue.go:205-248 | an enqueue, encoded or not, written or not, appends its step of the machine |
| `BufferSlots.HeldAfter` | edge/sgu/queue.go:205-248 | what can be read after an enqueue is what could be read before and the written entry, less the predecessor and the victims |
| `Flush.Open` | edge/sgu/queue.go:173-202 | a new buffer and link are where the machine starts, with the counter at zero |
| `FlushMachine.AtMostOncePerLapse` | edge/sgu/autonomy.go:512-572 | over every run, a key reaches the cloud at most once, plus once for each lapse: a crash or failed write between publication and mark, a mark that ran out, or one not found |
| `FlushMachine.NothingLeavesUnpublished` | edge/sgu/autonomy.go:548-566 | over every run, an entry leaves the queue, eviction apart, only once it or its key has reached the cloud |
| `FlushMachine.LapsesCounted` | edge/sgu/queue.go:349-365 | the bookkeeping of lapses counts exactly those steps of the history |
| `FlushAccounts.NothingLost` | edge/sgu/autonomy.go:548-566 | over every run, failing writes and crashes included, each entry offered is queued, was given up on an enqueue, or is at the cloud, itself or its key |
| `FlushAccounts.RunSound` | edge/sgu/queue.go:173-347 | over every run the index is exact, records are filed under their numbers, and what was offered is what is queued, given up and gone to the cloud |
| `FlushAccounts.RoomGivesUpNothing` | edge/sgu/queue.go:225-296 | over every run whose writes succeed, under limits with room for all that came in, only versions with a newer one offered are given up, and store and index are in step |
| `Flush.ObjectsKeepPromises` | edge/sgu/autonomy.go:512-572 | of the buffer and link objects: a key is at the cloud at most once plus once per lapse of its mark, and each entry offered is queued, given up on an enqueue or at the cloud, itself or its key |
| `Gateway.Live` | edge/sgu/autonomy.go:512-572 | a gateway through any sequence of messages, flushes with interruptions, expiries, failures, deaths and restarts: its history is each event's contribution in turn, and the objects are where it leads |
| `Gateway.MessagesOffered` | edge/sgu/queue.go:205-248 | in every life each message that could be encoded was offered |
| `Gateway.OncePlusDeaths` | edge/sgu/autonomy.go:509-572 | in every life, while marks are kept, a key is published at most once plus once per flush that died |
| `Gateway.RecoveryEmpties` | edge/sgu/autonomy.go:509-572 | the restart and flush after any life leave nothing queued and nothing unaccounted for |
| `Gateway.RoomyLife` | edge/sgu/queue.go:225-296 | in a life whose writes succeed, with room for all its messages, only versions with a newer one offered are given up |
| `Gateway.Recover` | edge/sgu/autonomy.go:509-572 | after any such life, a restart and a flush whose own polls and calls succeeded leave nothing queued: each message is at the cloud, itself or its key, or was given up on an enqueue, only for newer versions if there was room; while marks are kept, no key is there more than once plus once per flush that died |
| `ImageCodec.ImageRoundTrip` | edge/sec/framebuffer.go:377-489 | decoding an encoded image gives it back, whatever bytes follow, for both sides up to 65535 |
| `ImageCodec.KnownImage` | edge/sec/framebuffer.go:377-415 | one image of three rows, byte by byte, on both sides of the border between short and long runs |
| `ImageCodec.DecodeIsSafe` | edge/sec/framebuffer.go:433-489 | on arbitrary bytes a decoded image is well formed, and with every varint below 2^63 - 65534 nothing is accessed out of range |
| `DecodeLimit.LimitIsSharp` | edge/sec/framebuffer.go:433-489 | that bound on varints is the greatest under which no input makes the decoder access anything out of range |
| `DecodeLimit.TwoRunsFault` | edge/sec/framebuffer.go:472-478 | two runs whose lengths add up to 2^63 or more make it do so, on every panel at least two wide |
| `DecodeLimit.SmallPanelFaults` | edge/sec/framebuffer.go:472-478 | twenty bytes that do |
| `ImageCodec.BoundsAreTightest` | edge/sec/framebuffer.go:258-297 | no smaller rectangle holds the change |
| `ImageCodec.WindowRestores` | edge/sec/framebuffer.go:313-347 | copying the changed window of the next image over the previous one gives the next |
| `ImageCodec.WindowExact` | edge/sec/framebuffer.go:313-347 | copying any window of the next image over the glass gives the next image exactly when they differ nowhere outside it |
| `ImageCodec.GlassShowsNext` | edge/sec/controller.go:594-613 | whichever waveform is decided, the label shows the new image exactly if, for a partial one, the glass differed from it only inside the window; so whenever the image on file is what it shows |
| `ImageCodec.PartialExactly` | edge/sec/render.go:266-291 | the short waveform is used exactly if available, asked for, with an image of the same size on file, a change, none of it in colour, and changed pixels and window within their shares |
| `ImageCodec.CountIsNumber` | edge/sec/framebuffer.go:258-297 | the changed-pixel count is the number of pixels that differ |
| `ImageCodec.StaleFileMisleads` | edge/sec/render.go:266-291 | with a stale image on file the decision can pick a partial refresh that leaves the glass wrong |
| `Framebuffer.Framebuffer.constructor` | edge/sec/framebuffer.go:117-122 | a white panel, or the empty one for an impossible size |
| `Framebuffer.Framebuffer.Set` | edge/sec/framebuffer.go:134-139 | changes one pixel and nothing else; off the panel, nothing |
| `Framebuffer.Framebuffer.Blit` | edge/sec/framebuffer.go:338-347 | the panel with the clipped source copied in |
| `Framebuffer.Framebuffer.SubImage` | edge/sec/framebuffer.go:313-334 | a fresh panel holding the clipped part |
| `Framebuffer.Framebuffer.Diff` | edge/sec/framebuffer.go:258-297 | the exact count, the tightest bounds, and whether colour is touched; a size change reports everything |
| `Framebuffer.Framebuffer.EncodeRLE` | edge/sec/framebuffer.go:377-419 | the loops write the specified encoding |
| `Framebuffer.EncodeLine` | edge/sec/framebuffer.go:397-415 | one row as packed runs |
| `Framebuffer.DecodeLine` | edge/sec/framebuffer.go:452-479 | reads runs until the row is full, and stops where the specification stops |
| `Framebuffer.CopyRepeated` | edge/sec/framebuffer.go:483-485 | copies a row over consecutive slices of the pixel buffer, computed in wrapping 64-bit integers, or stops at one out of range |
| `Framebuffer.DecodeRLE` | edge/sec/framebuffer.go:433-489 | the decoder agrees with the specification on every input: errors, wrapped 64-bit products and accesses out of range included |
| `HybridClock.CompareIsTotalOrder` | edge/sgu/hlc.go:77-96 | stamps are totally ordered |
| `HybridClock.BeforeExactly` | edge/sgu/hlc.go:77-96 | the earlier wall time comes first, then the lesser counter, then the lesser name |
| `HybridClock.Clock.constructor` | edge/sgu/hlc.go:167-175 | a clock that has issued nothing, with the default limit where none is given |
| `HybridClock.Clock.Now` | edge/sgu/hlc.go:182-193 | issues the specified stamp and keeps it as the reading |
| `HybridClock.Clock.Observe` | edge/sgu/hlc.go:208-250 | merges or refuses a peer, with the skew figures and counters |
| `HybridClock.IssueAdvances` | edge/sgu/hlc.go:208-261 | a stamp exceeds the previous one and an adopted peer's exactly when the counter it would increment is not full |
| `HybridClock.IssuedExactly` | edge/sgu/hlc.go:182-261 | the stamp issued bears the greatest wall time in question, and a counter one above those that bear it already |
| `HybridClock.StampsIncrease` | edge/sgu/hlc.go:182-261 | in every run each stamp exceeds all earlier ones and any adopted peer's, however physical time jumps |
| `HybridClock.RefusedExactly` | edge/sgu/hlc.go:211-223 | without wrap-around a peer is refused exactly when it is more than the limit ahead |
| `HybridClock.RefusedInWindows` | edge/sgu/hlc.go:211-223 | for every stamp and reading: the refused leads are those between the limit and 2^63 nanoseconds, modulo 2^64 |
| `HybridClock.RefusalRightExactly` | edge/sgu/hlc.go:211-223 | within 2^64 nanoseconds of the limit the guard is right exactly when the lead fits 64 bits |
| `HybridClock.SkewWrapAdmits` | edge/sgu/hlc.go:211-223 | with wrap-around a peer centuries ahead is adopted |
| `HybridClock.WallIsBounded` | edge/sgu/hlc.go:208-250 | no run drags wall time more than the limit past the greatest physical reading |
| `WanDetector.Detector.Probe` | edge/sgu/wan.go:242-297 | one probe moves the detector by the check step |
| `WanDetector.Detector.ChangeTo` | edge/sgu/wan.go:301-313 | a transition discards the evidence gathered so far |
| `WanDetector.Detector.ForceMode` | edge/sgu/wan.go:319-330 | a forced mode is a transition unless already in force |
| `WanDetector.CountersMeasureRuns` | edge/sgu/wan.go:253-313 | after every history each counter is the length of the current run of its outcome since the last change |
| `WanDetector.ChangeNeedsRun` | edge/sgu/wan.go:258-289 | a probe changes the mode only at the end of a run with the threshold count and span, all after the last change |
| `WanDetector.RunChangesMode` | edge/sgu/wan.go:242-313 | a run of one outcome with the threshold count and span does change the mode |
| `WanDetector.DrivenSpacing` | edge/sgu/wan.go:242-313 | probe-driven changes are spaced by at least the shorter span, forced changes in between or not |
| `WanDetector.FlappingBounded` | edge/sgu/wan.go:242-330 | at most 1 + T / min(FailFor, RecoverFor) probe-driven changes in any span T |
| `Calendar.SplitInstant` | firmware/src/crypto/usslp_canon.c:96-103 | days and second of day are floored, although C truncates |
| `Calendar.CivilSuccessor` | firmware/src/crypto/usslp_canon.c:65-80 | day 0 is 1970-01-01 and each further day is the Gregorian successor, before the epoch as after it |
| `Calendar.CivilIncreasing` | firmware/src/crypto/usslp_canon.c:65-80 | later days have later dates |
| `Calendar.Rfc3339Domain` | firmware/src/crypto/usslp_canon.c:88-133 | the formatter refuses exactly the instants outside years 0 to 9999 |
| `Calendar.Rfc3339Increasing` | firmware/src/crypto/usslp_canon.c:88-133 | the text is twenty bytes and sorts as the instants do |
| `Calendar.Rfc3339Injective` | firmware/src/crypto/usslp_canon.c:88-133 | equal texts name the same instant |
| `FirmwareLaws.Rfc3339ReadsBack` | firmware/src/crypto/usslp_canon.c:88-133 | the text reads back as the civil date of the day and the hour, minute and second |
| `Canon.FormatI64` | firmware/src/crypto/usslp_canon.c:22-55 | writes the decimal text, or refuses a buffer without room for it and its terminator |
| `Canon.DecimalRoundTrip` | firmware/src/crypto/usslp_canon.c:22-55 | reading the text back gives the number |
| `Canon.CanonicalInjective` | firmware/src/crypto/usslp_canon.c:147-228 | equal canonical strings come from equal tuples when the four leading identifiers hold no separator |
| `FirmwareLaws.CanonicalReads` | firmware/src/crypto/usslp_canon.c:147-228 | read field by field the string gives the scheme, tenant, store, label, SKU, amount, currency, time, sequence and promotion |
| `Canon.SeparatorCollides` | firmware/src/crypto/usslp_canon.c:147-228 | for every tuple: the part of an identifier behind a separator may move to the next identifier, if it fits, and the canonical string is the same |
| `Canon.CanonicalLength` | firmware/src/crypto/usslp_canon.c:147-228 | at most 726 bytes |
| `Canon.PriceString` | firmware/src/crypto/usslp_canon.c:236-271 | the string sink writes the canonical string, or says which refusal it is and writes nothing |
| `Canon.PriceDigest` | firmware/src/crypto/usslp_canon.c:273-301 | the digest sink hashes exactly the bytes the string sink would have built |
| `Sha256.PadZerosIsLeast` | firmware/src/crypto/usslp_sha256.c:113-137 | the padding is the least of section 5.1.1 of FIPS 180-4 |
| `FirmwareLaws.PaddedBytes` | firmware/src/crypto/usslp_sha256.c:113-128 | the padded message byte by byte: message, 128, zeros, length in bits |
| `FirmwareLaws.SerialisedWords` | firmware/src/crypto/usslp_sha256.c:130-135 | the digest's bytes are the chain's words, most significant byte first |
| `Sha256.Context.constructor` | firmware/src/crypto/usslp_sha256.c:73-82 | a context that has absorbed nothing |
| `Sha256.Context.Update` | firmware/src/crypto/usslp_sha256.c:84-111 | absorbs exactly the bytes given, however they straddle blocks |
| `Sha256.Context.Final` | firmware/src/crypto/usslp_sha256.c:113-137 | the digest of everything absorbed: the compression function folded over the padded message, its length taken modulo 2^64 |
| `Sha256.HashChunks` | firmware/src/crypto/usslp_sha256.c:73-146 | every way of splitting a message into updates gives the digest of the whole |
| `Crc32c.NibbleIsFourBits` | firmware/src/usslp_crc32c.c:3-22 | one table lookup is four steps of the bitwise register |
| `FirmwareLaws.CheckValue` | firmware/src/usslp_crc32c.c:3-27 | the checksum of the digits one to nine is the standard's check value |
| `Crc32c.Update` | firmware/src/usslp_crc32c.c:11-22 | the loop computes the bit-at-a-time CRC-32C |
| `Crc32c.CrcAppend` | firmware/src/usslp_crc32c.c:11-27 | checksumming in two calls is checksumming the concatenation |
| `Crc32c.BurstDetected` | firmware/src/usslp_crc32c.c:11-27 | messages that differ only within four consecutive bytes have different checksums |
| `SequenceRule.SequenceState.constructor` | firmware/src/app/usslp_seq.c:7-12 | nothing displayed yet |
| `SequenceRule.SequenceState.Check` | firmware/src/app/usslp_seq.c:19-33 | accepts or finds stale, counting only rejections |
| `SequenceRule.SequenceState.Commit` | firmware/src/app/usslp_seq.c:35-43 | moves the glass forward, never back |
| `SequenceRule.SequenceState.Load` | firmware/src/app/usslp_seq.c:77-88 | restores a sound record and treats any other as absent |
| `SequenceRule.GlassShowsGreatest` | firmware/src/app/usslp_seq.c:19-43 | whatever the order, repetition or delay of offers, the glass ends on the greatest and never moves back |
| `SequenceRule.RetryIsStale` | firmware/src/app/usslp_seq.c:19-33 | a committed sequence offered again is stale, the sentinel alone excepted |
| `SequenceRule.RecordRoundTrip` | firmware/src/app/usslp_seq.c:45-88 | every int64 survives encoding and decoding |
| `FirmwareLaws.RecordReads` | firmware/src/app/usslp_seq.c:45-75 | the record byte by byte: four letters, the sequence in two's complement, the checksum of both, most significant byte first |
| `SequenceRule.DamageRejected` | firmware/src/app/usslp_seq.c:77-88 | damage within four consecutive bytes of the body, or of the checksum, is rejected |
| `SequenceRule.DamagedByteRejected` | firmware/src/app/usslp_seq.c:77-88 | so is any one damaged byte, wherever it is |
| `RecordDamage.RejectedExactly` | firmware/src/app/usslp_seq.c:70-88 | damage within four consecutive bytes is sure to be rejected wherever it starts, except exactly at bytes 10 and 11 |
| `RecordDamage.StraddleRejected` | firmware/src/app/usslp_seq.c:70-88 | damage to the last three body bytes and the top byte of the checksum is rejected |
| `RecordDamage.PassesAtTen` | firmware/src/app/usslp_seq.c:70-88 | the sound records of 0 and 0x4d90 differ only in bytes 10 to 13 |
| `RecordDamage.PassesAtEleven` | firmware/src/app/usslp_seq.c:70-88 | the sound records of 0 and 0x5d differ only in bytes 11 to 14 |
| `RecordDamage.ChecksumDifference` | firmware/src/usslp_crc32c.c:11-27 | checksums of messages with different last four bytes differ by what the register makes of the difference |

## Left out

- Enqueue: the 64-bit sequence counter is taken not to wrap (`next < 2^64` on entry).
- Framebuffer.Blit: copying a panel onto itself is not covered; source and target are distinct.
- FlushOne: during one flush the store answers each read, look-up, mark and deletion by the entry's sequence number; a peek of up to 128 records is one step.
- Reopen: a scan that fails makes the source refuse to open the buffer; that refusal is not modelled.
- StampsIncrease: the 32-bit counter is taken not to be full where it is incremented; `IssueAdvances` shows that this is exactly the condition.
- FormationInvariant: kills, revivals and single-node rejoins, for which the child counters are not exact (edge/mesh/network.go:603-623).
- Form: the delays drawn for attempts and the contention for the channel; callbacks fire in any order instead, and the completion callback is not called.
- ComputeRoutes: link quality is an integer read once per computation; radio propagation, noise and fading enter as changes of it, and distances are compared squared, over reals.
- Controller.constructor: a record that no longer decodes is skipped on restore; that loses its durable reservation, and is not modelled.
- Delivery: each Apply and each delivery callback is one atomic step; alerts, statistics, telemetry and battery figures are not modelled, and the price stands for the whole update.
- DecodeRLE: `int` is 64 bits wide.
- The SHA-256 compression function is a parameter of every statement; Ed25519 verification and key rings are a boolean input of the event.
- Identifiers in `Canon` are strings without NUL, as C strings are; pointer validity is not modelled.
- The wire codecs of edge/labelsim (updates, attested updates, acknowledgements): fixed-offset packing whose round trips would add only easy members. `Delivery` takes frames as values.
- The frame scheduling of edge/mesh/transmit.go, radio airtime and duty cycles: `Delivery` takes any loss, repetition and delay instead.
- The defaulting of other configuration values: limits, thresholds and spans are taken as they stand after it.
- Reconciliation after an outage, local price activation, promotion rules, the replica index.
- Rendering templates, fonts, the E-Ink driver, the MQTT broker and client, diagnostics, metrics, the cloud platform and the deployment tooling.
