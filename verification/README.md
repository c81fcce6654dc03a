# LinkLake, verified models

LinkLake is a tunnelling platform: clients open TCP, UDP, HTTP, SNI and SOCKS5 tunnels through a server.
This project models the logic on which its correctness rests and proves it in Dafny:

* **UDP data plane** (`UdpProtocol`, `UdpWire`, `UdpReassembly`, `UdpDedup`, `UdpQueue`, `UdpExpiry`,
  `UdpGenuine`, `UdpOutcome`, `UdpDelivery`, `UdpCapacity`, `UdpReassembler`): datagrams are split into
  frames, and a bounded, expiring, deduplicating reassembler puts them together again, exactly once,
  whatever the order of arrival.
* **SOCKS5 fragments** (`Socks5Udp`, `Socks5Names`, `Socks5Reassembly`, `Socks5Invariant`, `Socks5Runs`,
  `Socks5Outcome`, `Socks5Delivery`, `Socks5Capacity`, `Socks5Overtaken`, `Socks5Budget`, `Socks5Steps`,
  `Socks5Reassembler`): section 7 of RFC 1928, with reassemblers that share one budget of atomic counters.
  The budget is a machine over interleaved atomic steps, and every call of a reassembler is shown to be a
  script of such steps.
* **Alerts** (`Alerting`, `AlertLifecycle`, `AlertReminders`, `AlertOutcome`, `AlertEvaluation`,
  `AlertRouting`, `Outbox`, `OutboxRuns`, `OutboxAttempts`, `OutboxOutcome`, `AlertCatalog`):
  the evaluation of rules and the leased notification outbox, as tables changed by transactions.
* **Noise relay** (`NoiseRelay`): framing over a byte stream with arbitrary reads, and rekeying in
  lockstep (Noise Protocol Framework revision 34, section 11.3).
* **Normal forms and selection** (`PublicPorts`, `PortMapping`, `PortGrammar`, `Cidr`, `CidrMeaning`,
  `FleetBundle`, `FleetMeaning`, `FleetCanonical`, `FleetIntegrity`, `Base32`, `TargetPool`, `TargetText`,
  `TargetProbe`, `TargetHealth`).
* **Client configuration** (`ManagedConfig`, `AgentSpecs`, `AgentConfig`, `AgentDemand`, `AgentSupervisor`,
  `ManagedFile`).

Code that updates state in place is a class whose methods are proved equal to functions on values; the
properties of whole runs are lemmas about those functions. Beside them stand references that do not use
them (`UdpOutcome`, `Socks5Outcome`, `OutboxOutcome`, `AlertOutcome`, `AgentDemand` and the wire layouts):
what each operation comes to, in the system's own terms and with its limits as numbers. Library modules:
`Wrappers`, `Bytes`, `MapSum`, `Sequences`, `Sorting`, `Text`, `PortText`, `AlertTypes`.

Some promises hold only under a condition:

* After a successful replacement of the managed file the backup is valid unless the file was missing or
  damaged beside a damaged backup (`ManagedFile.BackupValidIff`, with the input in
  `ManagedFile.DamagedBackupSurvives`).
* An encoded SOCKS5 datagram decodes exactly when its port is not zero, and a decoded one encodes exactly
  when it has at most 65,535 bytes (`Socks5Udp.DecodeEncode`, `Socks5Udp.EncodeDecode`).
* A relayed connection that ends cleanly has delivered everything exactly when every byte arrived: a cut
  between two frames ends as cleanly, with less delivered (`NoiseRelay.RelayIsFaithful`, with the input in
  `NoiseRelay.CleanEndIsNotComplete`).
* With reordering allowed, a SOCKS5 datagram whose final fragment arrives after the one numbered next is
  never delivered: its assembly stays until time-out, conflict or discard (`Socks5Overtaken.OvertakenIsStuck`,
  with the input in `Socks5Overtaken.LateFinalIsReached`: fragments 1, 3 and then 2, marked final).
* The queue of completed datagrams is kept to twice the size of their record unless a datagram is pushed
  twice at one instant with its session discarded in between (`UdpQueue.QueueBounded`, with the input in
  `UdpQueue.QueueOutgrows`: then it grows without limit); its distinct entries are within that limit always.

## Model

| member | source | states |
|---|---|---|
| UdpProtocol.DecodeEncode | crates/linklake-core/src/udp_protocol.rs:47-103 | decoding the encoding of a valid fragment gives the fragment back |
| UdpProtocol.EncodeDecode | crates/linklake-core/src/udp_protocol.rs:47-103 | every frame the decoder accepts is exactly the encoding of what it decodes to |
| UdpProtocol.PartsAreDatagram | crates/linklake-core/src/udp_protocol.rs:135-194 | the parts of an accepted datagram are valid, numbered in order, share its identity and concatenate to the payload |
| UdpProtocol.FragmentDatagram | crates/linklake-core/src/udp_protocol.rs:135-194 | the splitting loop reports exactly the stated errors; otherwise frame i decodes to part i, fits the limit, and all but the last fill it |
| UdpWire.DecodeExact | crates/linklake-core/src/udp_protocol.rs:63-103 | a frame decodes to a fragment exactly if its octets, place by place, are that fragment's and the fragment is allowed |
| UdpWire.EncodeExact | crates/linklake-core/src/udp_protocol.rs:47-61 | a fragment encodes to a frame exactly under the same two conditions |
| UdpWire.DecodeReason | crates/linklake-core/src/udp_protocol.rs:63-103 | the reason for refusing a frame is a fault the frame has |
| UdpWire.ValidExact | crates/linklake-core/src/udp_protocol.rs:196-235 | a fragment is valid exactly if it is within the limits and as long as its place in the datagram demands |
| UdpWire.SplitsExactly | crates/linklake-core/src/udp_protocol.rs:135-160 | a datagram can be split exactly if it fits UDP and 64 frames; otherwise the reason given holds |
| UdpReassembly.InvPush | crates/linklake-core/src/udp_reassembly.rs:133-209 | a push keeps the representation invariant: counters match slots, partials are neither empty nor complete, all limits hold, every remembered key is queued |
| UdpReassembly.InvExpire | crates/linklake-core/src/udp_reassembly.rs:211-243 | expiry keeps the representation invariant |
| UdpReassembly.InvDiscard | crates/linklake-core/src/udp_reassembly.rs:246-273 | discarding a session keeps the representation invariant |
| UdpReassembly.InvRemember | crates/linklake-core/src/udp_reassembly.rs:335-358 | remembering a delivery keeps the map within its limit and every record queued, through eviction and compaction |
| UdpReassembly.EvictOldestRemovesOne | crates/linklake-core/src/udp_reassembly.rs:346-353 | capacity eviction removes exactly one record, one whose queue entry is current |
| UdpReassembly.CompactKeeps | crates/linklake-core/src/udp_reassembly.rs:355-358 | compaction keeps exactly the current queue entries |
| UdpReassembly.InvReachable | crates/linklake-core/src/udp_reassembly.rs:133-333 | the invariant holds in every state any run can reach |
| UdpDedup.QueueSorted | crates/linklake-core/src/udp_reassembly.rs:335-358 | under a non-decreasing clock the queue is sorted by time in every reachable state |
| UdpDedup.ExpireExact | crates/linklake-core/src/udp_reassembly.rs:211-243 | until the next clean-up is due expiry changes nothing; from then on it keeps exactly the partials and records still in time and puts the next one off by a tenth of a second |
| UdpDedup.EvictsAnOldest | crates/linklake-core/src/udp_reassembly.rs:346-353 | the evicted record is one of the oldest |
| UdpDedup.OnlyForgetsForReason | crates/linklake-core/src/udp_reassembly.rs:141-148 | a remembered key stays remembered and is not delivered unless its retention elapsed, its session is discarded, or a completing push finds a full record with it among the oldest |
| UdpDedup.SecondDeliveryNeedsReason | crates/linklake-core/src/udp_reassembly.rs:141-148 | between two deliveries of one key in any run its record was dropped, for one of the listed reasons |
| UdpQueue.EntriesBounded | crates/linklake-core/src/udp_reassembly.rs:335-358 | in every run the queue holds at most two distinct entries for each record allowed |
| UdpQueue.QueueBounded | crates/linklake-core/src/udp_reassembly.rs:335-358 | unless a datagram is pushed twice at one instant with its session discarded in between, the queue is at most twice as long as the record may be |
| UdpQueue.QueueOutgrows | crates/linklake-core/src/udp_reassembly.rs:335-358 | after n such repetitions the queue has n entries, since compaction keeps equal ones |
| UdpExpiry.NothingOverstays | crates/linklake-core/src/udp_reassembly.rs:211-243 | in every run with a non-decreasing clock, after any expiry or valid push at t every partial and record is younger than its deadline and a tenth of a second |
| UdpExpiry.CleanupsAreSpaced | crates/linklake-core/src/udp_reassembly.rs:211-215 | two clean-ups of a run are at least a tenth of a second apart |
| UdpGenuine.DeliveryIsGenuine | crates/linklake-core/src/udp_reassembly.rs:133-209 | in any run a delivery is the in-order concatenation of fragments accepted for it since its first, all of the same count and declared length, and has that length |
| UdpGenuine.ContradictionEnds | crates/linklake-core/src/udp_reassembly.rs:159-189 | a fragment of another shape, with other contents than the one held, or beyond the declared length is refused and ends the datagram; the same one again changes nothing |
| UdpOutcome.KnownOrEmpty | crates/linklake-core/src/udp_reassembly.rs:141-148 | a fragment of a completed datagram is a duplicate and an empty datagram is complete and recorded at once |
| UdpOutcome.FirstFragment | crates/linklake-core/src/udp_reassembly.rs:150-209 | the first fragment is refused for the first limit without room, or begins a partial that holds just it, or completes a datagram of one |
| UdpOutcome.NextFragment | crates/linklake-core/src/udp_reassembly.rs:173-209 | a further fragment is pending while a slot is empty and then delivers all slots in order, or reports a length that is not the declared one |
| UdpOutcome.DiscardExact | crates/linklake-core/src/udp_reassembly.rs:246-273 | a discard drops exactly the partials and records of its session |
| UdpDelivery.Reassembly | crates/linklake-core/src/udp_reassembly.rs:133-209 | along any undisturbed interleaved run the reassembler holds exactly the pushed fragments and answers each push as expected |
| UdpDelivery.DeliveredExactlyOnce | crates/linklake-core/src/udp_reassembly.rs:133-209 | the payload is delivered once, at the push that supplies the last missing index; every other push is pending or duplicate |
| UdpDelivery.EndToEnd | crates/linklake-core/src/udp_protocol.rs:135-194 | the frames of any accepted datagram, in any order, with duplicates and between other traffic, deliver its payload exactly once |
| UdpCapacity.NewReassemblerDelivers | crates/linklake-core/src/udp_reassembly.rs:133-321 | if the datagrams named by a run fit the limits and the run its time window, a new reassembler delivers, whatever the number, order and repetition of fragments |
| UdpCapacity.LoneDatagramFits | crates/linklake-core/src/udp_reassembly.rs:283-321 | a lone datagram within the buffer fits any configuration, however many fragments it has |
| UdpReassembler.Reassembler.Create | crates/linklake-core/src/udp_reassembly.rs:114-131 | rejects zero limits, otherwise starts empty |
| UdpReassembler.Reassembler.InsertPartial | crates/linklake-core/src/udp_reassembly.rs:283-321 | reports the first exceeded limit, otherwise adds the partial and keeps all counters exact |
| UdpReassembler.Reassembler.RemovePartial | crates/linklake-core/src/udp_reassembly.rs:323-333 | removes one partial and keeps byte total and session counts exact, without underflow |
| UdpReassembler.Reassembler.RememberCompleted | crates/linklake-core/src/udp_reassembly.rs:335-344 | has the effect of the specification, eviction and compaction included |
| UdpReassembler.Reassembler.EvictOldestCompleted | crates/linklake-core/src/udp_reassembly.rs:346-353 | the popping loop has the effect of the specification |
| UdpReassembler.Reassembler.CompactCompletedOrder | crates/linklake-core/src/udp_reassembly.rs:355-358 | the retained queue is the specified one |
| UdpReassembler.Reassembler.ExpireAt | crates/linklake-core/src/udp_reassembly.rs:211-243 | new state is the specified one and the report counts what was dropped |
| UdpReassembler.Reassembler.DiscardSessionState | crates/linklake-core/src/udp_reassembly.rs:246-273 | removes exactly the session's state and reports it |
| UdpReassembler.Reassembler.PushFragment | crates/linklake-core/src/udp_reassembly.rs:133-209 | result and new state are the specified ones, with all redundant structures in agreement |
| Socks5Udp.DecodeEncode | crates/linklake-core/src/socks5_udp.rs:46-164 | an encoded datagram decodes to itself exactly when its port is not zero, and has header length plus payload bytes |
| Socks5Udp.EncodeDecode | crates/linklake-core/src/socks5_udp.rs:46-164 | a decoded datagram encodes to the same bytes exactly when they are at most 65,535 |
| Socks5Udp.DecodeExact | crates/linklake-core/src/socks5_udp.rs:58-116 | an envelope decodes to a fragment exactly if its octets are laid out as section 7 of RFC 1928 says, FRAG octet included, with a host name and a port |
| Socks5Udp.EncodeExact | crates/linklake-core/src/socks5_udp.rs:118-147 | a datagram encodes exactly to the envelope so laid out with FRAG zero, if it has at most 65,535 bytes |
| Socks5Names.NameExact | crates/linklake-core/src/socks5_udp.rs:186-203 | a name is accepted exactly if it is dotted labels of 1 to 63 letters, digits and inner hyphens, 253 octets at most |
| Socks5Invariant.StoredKeepsShape | crates/linklake-core/src/socks5_fragment.rs:391-412 | storing an admitted fragment keeps the shape of an assembly and adds its exact cost |
| Socks5Invariant.CompletesIff | crates/linklake-core/src/socks5_fragment.rs:407-434 | storing completes an assembly exactly when sequences 1 to final are held and the one after is not |
| Socks5Invariant.InvPush | crates/linklake-core/src/socks5_fragment.rs:293-443 | a push keeps the invariant of all assemblies and session limits, whatever the shared counters are at each of its reservations |
| Socks5Invariant.InvExpire | crates/linklake-core/src/socks5_fragment.rs:445-464 | expiry keeps the invariant |
| Socks5Invariant.InvDiscard | crates/linklake-core/src/socks5_fragment.rs:466-482 | discarding a session keeps the invariant |
| Socks5Invariant.PushCovered | crates/linklake-core/src/socks5_fragment.rs:293-443 | the shared counters keep covering what the assemblies hold and stay within their limits |
| Socks5Runs.InvReachable | crates/linklake-core/src/socks5_fragment.rs:293-482 | the invariant holds in every state any run can reach, with the shared counters moved by others at any time |
| Socks5Runs.StrictStorage | crates/linklake-core/src/socks5_fragment.rs:341-379 | with no reordering allowed the stored sequences are always exactly 1 to the highest received |
| Socks5Runs.DeliveryIsGenuine | crates/linklake-core/src/socks5_fragment.rs:293-443 | every fragmented delivery is the in-order concatenation of payloads pushed for its key and accepted since the assembly opened, one for each sequence number |
| Socks5Runs.AcceptedOnce | crates/linklake-core/src/socks5_fragment.rs:341-383 | while an assembly lives no sequence number is accepted twice for it |
| Socks5Runs.UnfragmentedArrives | crates/linklake-core/src/socks5_fragment.rs:299-308 | from the wire: the envelope of any datagram with a port is delivered at once and whole, and changes no assembly |
| Socks5Runs.UnfragmentedIsGenuine | crates/linklake-core/src/socks5_fragment.rs:299-308 | in any run an unfragmented delivery is exactly target, port and payload of the fragment pushed there |
| Socks5Outcome.ConfigExact | crates/linklake-core/src/socks5_fragment.rs:585-605 | a configuration is accepted exactly if its limits are positive, bounded and nested; time-out errors exactly below five seconds |
| Socks5Outcome.JudgeExact | crates/linklake-core/src/socks5_fragment.rs:341-379 | a fragment is repeated, too early or contradictory exactly by which numbers, payloads and marks are held |
| Socks5Outcome.BudgetsExact | crates/linklake-core/src/socks5_fragment.rs:497-559 | the budgets refuse exactly what does not fit, with the first limit that does not |
| Socks5Outcome.OutOfTurn | crates/linklake-core/src/socks5_fragment.rs:309-324 | a number beyond the limit, or a datagram not begun with 1, is refused and changes nothing |
| Socks5Outcome.PushIntoLive | crates/linklake-core/src/socks5_fragment.rs:341-443 | a contradiction ends the assembly, an early or unaffordable fragment leaves it, a repetition changes nothing, any other is stored |
| Socks5Outcome.PushFirst | crates/linklake-core/src/socks5_fragment.rs:321-443 | a first fragment is stored in a new assembly, or refused without a trace |
| Socks5Outcome.RemovalsExact | crates/linklake-core/src/socks5_fragment.rs:445-482 | expiry drops exactly what was idle for the time-out, a discard exactly its session |
| Socks5Delivery.WellFormedIsDelivered | crates/linklake-core/src/socks5_fragment.rs:293-443 | any arrival order that starts at 1, stays inside the window and does not repeat the final fragment delivers the datagram exactly once, if until then every new fragment finds room and nothing removes the assembly |
| Socks5Delivery.DeliveriesDisjoint | crates/linklake-core/src/socks5_fragment.rs:407-434 | two deliveries of one key are made of fragments accepted in disjoint stretches of the run |
| Socks5Capacity.NewReassemblerDelivers | crates/linklake-core/src/socks5_fragment.rs:293-443 | on conditions on the run, configuration and gauges alone (the datagram fits its limits, the run names few enough datagrams of the session, gauges have room, expiry comes in time) a new reassembler delivers exactly once |
| Socks5Capacity.RoomByCapacity | crates/linklake-core/src/socks5_fragment.rs:497-559 | if the datagrams of a session, each at its largest, fit the session and the gauges have room, no budget refuses a fragment within its datagram's own limits |
| Socks5Capacity.LoneDatagramFits | crates/linklake-core/src/socks5_fragment.rs:526-559 | every valid configuration has the session capacity for one datagram |
| Socks5Overtaken.OvertakenIsStuck | crates/linklake-core/src/socks5_fragment.rs:407-434 | an assembly that holds the sequence after its final one is never delivered and ends only by time-out, conflict or discard |
| Socks5Overtaken.LateFinalIsReached | crates/linklake-core/src/socks5_fragment.rs:341-443 | an input: with reordering and room, a new reassembler accepts fragments 1, 3 and 2 marked final, and holds all three in such an assembly |
| Socks5Budget.MoveBalanced | crates/linklake-core/src/socks5_fragment.rs:99-144 | every atomic step changes the counters by exactly the change in what its reassembler owes, within the limits |
| Socks5Budget.ReleasePlanTotal | crates/linklake-core/src/socks5_fragment.rs:561-582 | the releases of an assembly add up to what it reserved |
| Socks5Budget.BudgetIsSound | crates/linklake-core/src/socks5_fragment.rs:99-144 | in every interleaving each counter equals what live assemblies, reservations and releases in progress hold, is within its limit, and no release saturates |
| Socks5Budget.BudgetDrains | crates/linklake-core/src/socks5_fragment.rs:251-264 | once nothing is live or in progress all counters are back at zero |
| Socks5Steps.WorkerPlays | crates/linklake-core/src/socks5_fragment.rs:99-144 | in any interleaving a reassembler depends on the others only through the counters it sees |
| Socks5Steps.PushInMachine | crates/linklake-core/src/socks5_fragment.rs:293-443 | a push is a script of atomic steps; interleaved with any steps of others it ends as specified and the counters stay exact |
| Socks5Steps.RemovalInMachine | crates/linklake-core/src/socks5_fragment.rs:251-264 | removing listed assemblies one by one, all of them on drop, is a script of atomic steps; interleaved with any steps of others it leaves the rest and exact counters |
| Socks5Steps.ExpiryInMachine | crates/linklake-core/src/socks5_fragment.rs:445-464 | expiry inside the machine, in any order of removal, ends in the specified assemblies with exact counters |
| Socks5Steps.DiscardInMachine | crates/linklake-core/src/socks5_fragment.rs:466-482 | so does the discard of a session |
| Socks5Steps.OwedIsHeld | crates/linklake-core/src/socks5_fragment.rs:561-582 | what an idle reassembler owes the budget is what its assemblies hold |
| Socks5Reassembler.Budget.TryReserveDatagram | crates/linklake-core/src/socks5_fragment.rs:99-101 | reserves one datagram slot exactly if the limit allows it |
| Socks5Reassembler.Budget.TryReserveBytes | crates/linklake-core/src/socks5_fragment.rs:103-105 | reserves bytes exactly if the limit allows it |
| Socks5Reassembler.Budget.TryReserveFragment | crates/linklake-core/src/socks5_fragment.rs:107-116 | reserves slot and bytes or neither, rolling the slot back |
| Socks5Reassembler.Budget.ReleaseAssembly | crates/linklake-core/src/socks5_fragment.rs:561-582 | gives back exactly the cost of an assembly |
| Socks5Reassembler.Reassembler.Create | crates/linklake-core/src/socks5_fragment.rs:270-291 | accepts exactly the valid configurations that the shared budget supports |
| Socks5Reassembler.Reassembler.OpenAssembly | crates/linklake-core/src/socks5_fragment.rs:497-524 | opens an assembly with its reservation, or reports the first limit and changes nothing |
| Socks5Reassembler.Reassembler.ReserveFragment | crates/linklake-core/src/socks5_fragment.rs:526-559 | reserves room for a fragment in all budgets, or reports the first limit and changes nothing |
| Socks5Reassembler.Reassembler.RemoveAssembly | crates/linklake-core/src/socks5_fragment.rs:561-582 | removes an assembly and returns its share of every counter |
| Socks5Reassembler.Reassembler.ExtendRun | crates/linklake-core/src/socks5_fragment.rs:407-412 | the contiguity loop ends at the longest run |
| Socks5Reassembler.Reassembler.PushFragment | crates/linklake-core/src/socks5_fragment.rs:293-443 | result, assemblies and shared budget are the specified ones |
| Socks5Reassembler.Reassembler.ExpireAt | crates/linklake-core/src/socks5_fragment.rs:445-464 | drops exactly the idle assemblies, releases and reports what they held |
| Socks5Reassembler.Reassembler.DiscardSessionState | crates/linklake-core/src/socks5_fragment.rs:466-482 | drops exactly the session's assemblies, releases and reports what they held |
| Socks5Reassembler.Reassembler.Drop | crates/linklake-core/src/socks5_fragment.rs:251-264 | dropping a reassembler returns everything it held to the shared budget |
| Outbox.SelectIsPrefix | crates/linklake-server/src/alerting.rs:637-703 | the claimed rows are the first of the due ones in claiming order |
| Outbox.DelayMonotone | crates/linklake-server/src/alerting.rs:1119-1124 | the retry delay grows with the attempts between its bounds and reaches the upper one exactly past the attempt limit |
| Outbox.RetryIsPrompt | crates/linklake-server/src/alerting.rs:733-788 | a failure that leaves the row pending schedules it between the shortest delay and 1,280 seconds ahead |
| OutboxRuns.Reachable | crates/linklake-server/src/alerting.rs:637-834 | in every reachable state a row has a token and expiry exactly when delivering, and at most 10,000 rows are outstanding |
| OutboxRuns.IdentityIsStable | crates/linklake-server/src/alerting.rs:1066-1117 | the identity of a delivery, its idempotency key included, never changes and ids are never reused |
| OutboxRuns.AckedOnce | crates/linklake-server/src/alerting.rs:705-731 | a delivery is acknowledged at most once in any run |
| OutboxRuns.SettledInTime | crates/linklake-server/src/alerting.rs:705-788 | a token settles only strictly before the lease it was drawn for expires |
| OutboxRuns.TokenSettlesOnce | crates/linklake-server/src/alerting.rs:705-788 | with fresh tokens a token settles at most one acknowledgement or failure |
| OutboxRuns.TotalsAreExact | crates/linklake-server/src/alerting.rs:705-788 | the three totals equal the numbers of successful acknowledgements, failures and dead letters |
| OutboxAttempts.AttemptsAreLeases | crates/linklake-server/src/alerting.rs:680-690 | in every run the attempts of a row are the claims that leased it since it was queued or last retried |
| OutboxAttempts.FailureOutcome | crates/linklake-server/src/alerting.rs:733-788 | a failure of the n-th lease makes a dead letter exactly if n is at least 10, and otherwise schedules the row 5 times 2 to the n-1 seconds ahead |
| OutboxAttempts.BackoffIsHonoured | crates/linklake-server/src/alerting.rs:663-699 | a failed delivery is leased again no earlier than that |
| OutboxAttempts.ClaimTells | crates/linklake-server/src/alerting.rs:680-702 | a claim names the row, token, channel, notification and number of the attempt, for a lease of sixty seconds |
| OutboxOutcome.ClaimExact | crates/linklake-server/src/alerting.rs:637-703 | a claim frees run-out leases, forgets rows settled thirty days ago and leases the first ready rows, as many as asked for and at most 64 |
| OutboxOutcome.AckExact | crates/linklake-server/src/alerting.rs:705-731 | an acknowledgement under a running lease marks the row delivered; any other changes nothing |
| OutboxOutcome.FailExact | crates/linklake-server/src/alerting.rs:733-788 | the whole row, state and totals after a failure |
| OutboxOutcome.RetryExact | crates/linklake-server/src/alerting.rs:790-834 | a retry starts a dead letter afresh exactly if fewer than 10,000 rows are open, and otherwise says why not |
| AlertLifecycle.RuleEffect | crates/linklake-server/src/alerting.rs:524-635 | evaluating a rule leaves active exactly the subjects of its matching signals and touches no other rule |
| AlertLifecycle.ActiveAfterEvaluate | crates/linklake-server/src/alerting.rs:524-635 | after evaluation each enabled rule's active subjects are those firing; every other rule has none |
| AlertLifecycle.EvaluateKeeps | crates/linklake-server/src/alerting.rs:524-635 | evaluation keeps at most one active event per rule and subject |
| AlertLifecycle.OrderDoesNotMatter | crates/linklake-server/src/alerting_postgres.rs:377-491 | visiting rules by name or by id gives the same active subjects |
| AlertLifecycle.PerformKeeps | crates/linklake-server/src/alerting.rs:466-505 | every evaluation, rule change and delivery step keeps the lifecycle invariant: disabled and deleted rules have no active event |
| AlertLifecycle.ReachableOk | crates/linklake-server/src/alerting.rs:466-834 | in every state reachable by evaluations, rule changes, claims, acknowledgements, failures and retries, the lifecycle invariant and the queue invariant hold |
| AlertLifecycle.QueueIsOutboxRun | crates/linklake-server/src/alerting.rs:524-834 | along every such run the queue moves as in a run of the outbox alone, with the same delivery steps in the same order |
| AlertLifecycle.NeverReactivated | crates/linklake-server/src/alerting.rs:524-1014 | over any such run a resolved event stays resolved and keeps its identity |
| AlertOutcome.RuleEvents | crates/linklake-server/src/alerting.rs:524-635 | every event a rule finds comes out as a reference computed from the signals alone says: continued with the last signal, over, or untouched |
| AlertOutcome.RuleNotes | crates/linklake-server/src/alerting.rs:524-635 | a rule notifies exactly of events that are new, due again or over, with the first signal's contents and the rule's channels |
| AlertOutcome.NewEventExists | crates/linklake-server/src/alerting.rs:557-588 | a subject that some signal concerns and that was not active gets an event |
| AlertEvaluation.EventsAfterEvaluate | crates/linklake-server/src/alerting.rs:524-635 | after a whole evaluation, in any order of rules, every event is what its own rule makes of it |
| AlertEvaluation.ActiveExactly | crates/linklake-server/src/alerting.rs:524-546 | a subject is active exactly if the rule is enabled and a signal of its metric, window and target is at or beyond the threshold |
| AlertEvaluation.NotesAfterEvaluate | crates/linklake-server/src/alerting.rs:593-635 | the notifications are exactly those, one for each event |
| AlertEvaluation.UpdateExact | crates/linklake-server/src/alerting.rs:466-497 | an update replaces one rule and, if it disables it, stops exactly its active events |
| AlertEvaluation.DeleteExact | crates/linklake-server/src/alerting.rs:499-505 | a deletion removes one rule and stops exactly its active events |
| AlertRouting.EvaluationIsRouted | crates/linklake-server/src/alerting.rs:593-635 | each returned notification belongs to an enabled rule, and the rows added are one webhook row iff the rule asks for webhooks and one e-mail row iff it asks for e-mail, pending, untried and due now |
| AlertReminders.RemindersAreSpaced | crates/linklake-server/src/alerting.rs:524-635 | over any such run two evaluations that notify of one event are at least the rule's cooldown apart |
| AlertReminders.OncePerEvaluation | crates/linklake-server/src/alerting.rs:524-635 | one evaluation notifies that an event is firing at most once |
| AlertReminders.BatchFits | crates/linklake-server/src/alerting.rs:1066-1117 | a batch is queued exactly when the outstanding rows and its demand stay within 10,000 and nothing that is to be delivered is oversized; a refusal has the reason it gives |
| AlertCatalog.Catalog.EvaluateSignals | crates/linklake-server/src/alerting.rs:524-635 | the loops have the specified effect, and a failure leaves every table as it was |
| AlertCatalog.Catalog.ClaimDeliveries | crates/linklake-server/src/alerting.rs:637-703 | expires leases, leases the selected rows and returns a claim for each |
| AlertCatalog.Catalog.AcknowledgeDelivery | crates/linklake-server/src/alerting.rs:705-731 | succeeds exactly for the holder of a running lease |
| AlertCatalog.Catalog.FailDelivery | crates/linklake-server/src/alerting.rs:733-788 | returns the row to pending with its delay or to the dead letters |
| AlertCatalog.Catalog.RetryDelivery | crates/linklake-server/src/alerting.rs:790-834 | revives a dead letter if the queue has room, otherwise changes nothing |
| AlertCatalog.Catalog.Update | crates/linklake-server/src/alerting.rs:466-497 | refuses a cooldown outside 30 to 604,800 seconds; otherwise changes a known rule and resolves its events if it is disabled |
| AlertCatalog.Catalog.Delete | crates/linklake-server/src/alerting.rs:499-505 | removes a rule and resolves its events |
| NoiseRelay.RelayedPrefix | crates/linklake-client/src/p2p_noise.rs:76-188 | from any prefix of the wire exactly the whole frames are delivered, and the end is clean only at a frame boundary |
| NoiseRelay.RelayIsFaithful | crates/linklake-client/src/p2p_noise.rs:76-188 | delivered plaintext is a prefix of the input, is all of it exactly when every byte arrived, and reading ends cleanly exactly at the end of a frame |
| NoiseRelay.CleanEndIsNotComplete | crates/linklake-client/src/p2p_noise.rs:166-188 | an input: cut between two frames, the relay ends cleanly with the first chunk only |
| NoiseRelay.EpochOfMessage | crates/linklake-client/src/p2p_noise.rs:76-105 | message n is sealed in epoch n divided by the rekey interval |
| NoiseRelay.EpochSaturates | crates/linklake-client/src/p2p_noise.rs:76-105 | what happens once the message counter has saturated |
| NoiseRelay.TasksDoNotInterfere | crates/linklake-client/src/p2p_noise.rs:54-141 | however the two tasks interleave on the shared transport, each writes or delivers what it would alone |
| NoiseRelay.PeersAgree | crates/linklake-client/src/p2p_noise.rs:54-141 | frames taken from what the peer wrote are never refused, deliver a prefix of what it sent, and leave both ends at the same key and number |
| NoiseRelay.ReadFrameOrEof | crates/linklake-client/src/p2p_noise.rs:166-188 | for every way the transport splits reads the reader returns the frame the bytes hold |
| NoiseRelay.DecryptDirection | crates/linklake-client/src/p2p_noise.rs:107-141 | the receiving task delivers what the bytes of the stream determine |
| NoiseRelay.EncryptDirection | crates/linklake-client/src/p2p_noise.rs:76-105 | the sending task writes the frames of chunks that concatenate to its input |
| NoiseRelay.ParseExact | crates/linklake-client/src/p2p_noise.rs:166-188 | what the first bytes of a stream are taken for: end, half a length, a bad length, half a frame, or a frame and the rest |
| NoiseRelay.ReceiveFrame | crates/linklake-client/src/p2p_noise.rs:107-141 | any frame of 16 to 65,535 bytes that the cipher opens is delivered before what follows; shorter or refused ones end the stream |
| Base32.RoundTrip | crates/linklake-server/src/admin_auth.rs:931-968 | decoding an encoding gives back every input that is not empty, and fails on the empty one |
| Base32.BufferIn | crates/linklake-server/src/admin_auth.rs:936-938 | shifting into the overflowing 32-bit buffer loses no unread bit |
| Base32.EncodeText | crates/linklake-server/src/admin_auth.rs:931-948 | the shift-buffer loop computes the regrouped bit string of section 6 of RFC 4648, without padding |
| Base32.DecodeText | crates/linklake-server/src/admin_auth.rs:950-968 | the loop computes the reference decoding, skipping white space and rejecting other characters |
| PublicPorts.NormalizeKeeps | crates/linklake-core/src/public_ports.rs:148-161 | normalising keeps the denoted set and gives sorted, disjoint, non-adjacent ranges |
| PublicPorts.NormalFormDecides | crates/linklake-core/src/public_ports.rs:148-161 | two lists denote the same set exactly when their normal forms are equal |
| PublicPorts.NormalizeFixpoint | crates/linklake-core/src/public_ports.rs:148-161 | the canonical lists are exactly the fixpoints |
| PublicPorts.SegmentsPointwise | crates/linklake-core/src/public_ports.rs:108-135 | parsing succeeds exactly when each segment parses, with the ranges in order |
| PublicPorts.FirstErrorWins | crates/linklake-core/src/public_ports.rs:108-135 | the error is that of the first faulty segment |
| PublicPorts.ParseMeaning | crates/linklake-core/src/public_ports.rs:98-146 | a parsed expression is canonical, has no port zero and denotes the union of its segments |
| PublicPorts.ExpressionRoundTrip | crates/linklake-core/src/public_ports.rs:64-76 | parsing the printed form gives the value back; the empty value prints as blank text |
| PublicPorts.NormalizeRanges | crates/linklake-core/src/public_ports.rs:148-161 | the merging loop computes the normal form |
| PublicPorts.ParseRanges | crates/linklake-core/src/public_ports.rs:98-137 | the loop computes the specified result or error |
| PublicPorts.Contains | crates/linklake-core/src/public_ports.rs:44-58 | binary search agrees with membership |
| PublicPorts.IncludingPorts | crates/linklake-core/src/public_ports.rs:78-95 | the result is canonical and denotes the union, zero ignored |
| PortGrammar.SegmentExact | crates/linklake-core/src/public_ports.rs:108-146 | a segment is a range exactly if one port, or two ascending ones around a hyphen, are written there, with white space and plus signs |
| PortGrammar.SegmentReason | crates/linklake-core/src/public_ports.rs:108-146 | an empty segment is one of white space only; a descending range has two ports that descend |
| PortMapping.ItemsExact | crates/linklake-core/src/port_mapping.rs:54-93 | ranges are accepted exactly when their whole expansion is distinct and small enough, and give that expansion |
| PortMapping.ParseReaches | crates/linklake-core/src/port_mapping.rs:41-93 | the lists a parse can return are exactly the distinct, non-empty, bounded ones |
| PortMapping.RoundTrip | crates/linklake-core/src/port_mapping.rs:140-158 | parsing the normal text of such a list gives the same ports in the same order |
| PortMapping.RunsMaximal | crates/linklake-core/src/port_mapping.rs:143-149 | neighbouring runs of the normal text never join up |
| PortMapping.CanonicalizeTwice | crates/linklake-core/src/port_mapping.rs:124-128 | normalising an expression twice is normalising it once |
| PortMapping.FleetAcceptsNormalForms | crates/linklake-core/src/fleet_protocol.rs:545-557 | Fleet accepts exactly the normal expressions of two admissible lists of equal length |
| PortMapping.PairingIsPreserved | crates/linklake-core/src/port_mapping.rs:114-122 | accepted expressions determine the two lists and pair them by position |
| PortMapping.ParseSet | crates/linklake-core/src/port_mapping.rs:41-93 | the loops over items and ports, with their set of seen ports, compute the specified result or error |
| PortMapping.NormalizePortSet | crates/linklake-core/src/port_mapping.rs:140-158 | the nested loops print the runs |
| PortMapping.ParsePortMappings | crates/linklake-core/src/port_mapping.rs:96-129 | result or first error as specified |
| PortGrammar.ItemExact | crates/linklake-core/src/port_mapping.rs:54-77 | an item is a range exactly if it is written in digits, ascends and lies within the limits |
| PortGrammar.ItemReason | crates/linklake-core/src/port_mapping.rs:54-77 | a refused item descends, leaves the limits or the ports, or is not written as one |
| PortGrammar.ExtendReason | crates/linklake-core/src/port_mapping.rs:79-87 | a range is not added because one of its ports is there already or there would be too many |
| PortGrammar.GroupEmpty | crates/linklake-core/src/port_mapping.rs:47-49 | a group is empty exactly if nothing but white space is written |
| Cidr.MaskedDecides | crates/linklake-core/src/fleet_protocol.rs:892-909 | masking identifies exactly the addresses that share the leading bits |
| Cidr.NormalizeTwice | crates/linklake-core/src/fleet_protocol.rs:874-911 | CIDR normalisation is idempotent and keeps the network |
| Cidr.SpellingDecides | crates/linklake-core/src/fleet_protocol.rs:874-911 | two spellings have the same normal spelling exactly when they denote the same network |
| CidrMeaning.DenotesExact | crates/linklake-core/src/fleet_protocol.rs:874-911 | a text denotes a network exactly if it spells an address and a prefix, and the network agrees with the address in the prefix and is zero after it |
| FleetBundle.ControlFaultExact | crates/linklake-core/src/fleet_protocol.rs:612-657 | a traffic control is accepted exactly when its networks are distinct and disjoint and its other fields in range |
| FleetBundle.StructureExact | crates/linklake-core/src/fleet_protocol.rs:423-502 | validation in order finds no fault exactly in the bundles that are sound irrespective of order |
| FleetMeaning.FieldsExact | crates/linklake-core/src/fleet_protocol.rs:423-470 | header, names, keys and schedules are accepted exactly within the stated limits |
| FleetMeaning.FaultIsReal | crates/linklake-core/src/fleet_protocol.rs:423-502 | whatever fault is reported, the bundle has it, in the named field or with the named identity |
| FleetCanonical.CanonicalControlDecides | crates/linklake-core/src/fleet_protocol.rs:400-408 | canonical controls are equal exactly when the controls say the same up to order and spelling |
| FleetCanonical.CanonicalContentDecides | crates/linklake-core/src/fleet_protocol.rs:393-421 | two sound bundles have equal canonical content exactly when they differ only in order and CIDR spelling |
| FleetCanonical.RearrangedIsSound | crates/linklake-core/src/fleet_protocol.rs:393-502 | permuting lists or respelling CIDRs of a sound bundle leaves it sound with the same canonical content |
| FleetCanonical.CanonicalIsFixpoint | crates/linklake-core/src/fleet_protocol.rs:393-421 | canonical content is sound and its own canonical content |
| FleetIntegrity.AcceptedIsReadable | crates/linklake-core/src/fleet_protocol.rs:400-405 | after validation every CIDR normalises, so canonicalisation cannot panic |
| FleetIntegrity.ValidExactly | crates/linklake-core/src/fleet_protocol.rs:352-372 | a bundle is valid exactly when it is sound and carries the digest and revision of its canonical content |
| FleetIntegrity.ValidityIgnoresOrder | crates/linklake-core/src/fleet_protocol.rs:352-372 | a rearranged or respelled valid bundle is valid under the same digest and revision |
| FleetIntegrity.CanonicalBundleIsValid | crates/linklake-core/src/fleet_protocol.rs:375-391 | the canonical bundle is valid with the same digest and is a fixpoint |
| FleetIntegrity.CanonicalBundleDecides | crates/linklake-core/src/fleet_protocol.rs:375-391 | valid bundles have equal canonical bundles exactly when they say the same |
| FleetIntegrity.ValidateStructure | crates/linklake-core/src/fleet_protocol.rs:423-502 | the loops with their hash sets report the first fault |
| FleetIntegrity.Canonicalize | crates/linklake-core/src/fleet_protocol.rs:393-421 | the loop over controls and the sorts compute the canonical content |
| FleetIntegrity.RefreshIntegrity | crates/linklake-core/src/fleet_protocol.rs:344-350 | seals sound content and reports the fault of other content |
| FleetIntegrity.ValidateBundle | crates/linklake-core/src/fleet_protocol.rs:352-365 | reports the first fault of structure, digest or revision |
| FleetIntegrity.New | crates/linklake-core/src/fleet_protocol.rs:318-341 | succeeds exactly on sound content, with a valid bundle |
| TargetPool.PositionExact | crates/linklake-core/src/target_pool.rs:60-77 | a position is chosen exactly when its stretch of the prefix sums holds the slot |
| TargetPool.ChoiceExists | crates/linklake-core/src/target_pool.rs:60-77 | there is a choice exactly when the total weight is positive, and it has positive weight |
| TargetPool.Fairness | crates/linklake-core/src/target_pool.rs:60-77 | over any window of total-weight consecutive sequence numbers each position is chosen exactly its weight times |
| TargetPool.SelectWeightedTarget | crates/linklake-core/src/target_pool.rs:60-77 | the loop returns the address at that position |
| TargetText.ParsedPool | crates/linklake-core/src/target_pool.rs:26-58 | a parsed pool has one to sixteen valid targets of weight 1 to 10,000, so a total from 1 to 160,000 |
| TargetText.PoolRoundTrip | crates/linklake-core/src/fleet_protocol.rs:756-768 | parsing the canonical text of such a pool gives it back |
| TargetText.FleetAcceptsCanonical | crates/linklake-core/src/fleet_protocol.rs:752-774 | Fleet accepts exactly the canonical texts of such pools that have at most 4,096 bytes |
| TargetText.CanonicalUnique | crates/linklake-core/src/fleet_protocol.rs:752-774 | accepted texts are equal exactly when they parse to the same pool, and a canonical text names one pool only |
| TargetText.SpellingReads | crates/linklake-core/src/target_pool.rs:36-56 | every spelling of an admissible target, with white space around address and weight, is read as that target |
| TargetText.ReadIsSpelling | crates/linklake-core/src/target_pool.rs:36-56 | and nothing else is |
| TargetText.AddressExact | crates/linklake-core/src/target_pool.rs:79-122 | an address is valid exactly if it names a bracketed IPv6 address, an IPv4 address or a host name and a port, in its characters and length |
| TargetText.DnsExact | crates/linklake-core/src/target_pool.rs:126-138 | a host name is dotted labels of 1 to 63 letters, digits and inner hyphens, 253 bytes at most |
| TargetProbe.SelectionIsHealthy | crates/linklake-client/src/target_probe.rs:139-164 | the choice is a healthy target of the pool; if all weights are positive it exists exactly when some target is healthy |
| TargetProbe.ParsedPoolIsServed | crates/linklake-client/src/target_probe.rs:109-164 | a pool that parses always has a plain choice, and a probe-aware one exactly when some target is healthy |
| TargetProbe.NoStaleOverride | crates/linklake-client/src/target_probe.rs:260-271 | results that take effect on one target never go back to an older revision |
| TargetProbe.SupersededIsIgnored | crates/linklake-client/src/target_probe.rs:177-189 | once a newer probe has begun an older result changes nothing |
| TargetProbe.SelectedWasProbed | crates/linklake-client/src/target_probe.rs:139-164 | after any run a selected target was last reported healthy less than the time to live ago, by a probe that a valid request had begun and that no newer one had superseded |
| TargetHealth.ValidExact | crates/linklake-client/src/target_probe.rs:224-258 | a request is accepted exactly if its fields are those of the session's policy and pool |
| TargetHealth.LatestIsGreatest | crates/linklake-client/src/target_probe.rs:177-189 | the session remembers for each target the greatest revision properly requested |
| TargetHealth.StaleExact | crates/linklake-client/src/target_probe.rs:177-189 | a request is stale exactly if one for its target already had the same or a later revision |
| TargetHealth.EffectExact | crates/linklake-client/src/target_probe.rs:260-271 | a result counts exactly if its revision is the greatest requested so far |
| TargetHealth.HealthyExactly | crates/linklake-client/src/target_probe.rs:294-300 | a target is healthy exactly if its last result that counted said so less than 25 seconds ago |
| TargetProbe.TargetProbeSession.HandleProbe | crates/linklake-client/src/target_probe.rs:171-258 | checks the request, records a new revision or reports why not; the revision is taken even without a permit |
| TargetProbe.TargetProbeSession.RecordHealthIfCurrent | crates/linklake-client/src/target_probe.rs:260-271 | records a result exactly if its revision is the latest |
| TargetProbe.TargetProbeSession.SelectTarget | crates/linklake-client/src/target_probe.rs:139-164 | the filtered loop equals plain selection on the healthy sublist |
| ManagedConfig.Validate | crates/linklake-client/src/main.rs:2088-2163 | the loops accept exactly the configurations with matching revision, filled fields and distinct ports, hostnames and names |
| AgentConfig.ValidExact | crates/linklake-client/src/main.rs:2088-2163 | valid are exactly the configurations of the right revision whose entries are filled in and, two at a time, do not share a port, hostname or name |
| AgentSpecs.SpecsAreItems | crates/linklake-client/src/main.rs:1778-1864 | a valid configuration with distinctly named visitors yields exactly one agent per enabled item, with its settings |
| AgentSpecs.OneEntryEach | crates/linklake-client/src/main.rs:1778-1864 | in general there is one entry per item exactly when the keys are distinct |
| AgentSpecs.SpecsOf | crates/linklake-client/src/main.rs:1778-1864 | the insertion loops build the map of the items |
| AgentDemand.SpecsAreDemanded | crates/linklake-client/src/main.rs:1778-1864 | an agent of a key and settings is specified exactly if an enabled entry of its list, or a visitor, has them, host names in lower case |
| AgentDemand.SpecsAreCounted | crates/linklake-client/src/main.rs:1778-1864 | there are as many agents as enabled entries and visitors |
| AgentSupervisor.Supervisor.Reconcile | crates/linklake-client/src/main.rs:1614-1642 | running specs become the desired ones, unchanged agents keep their task, exactly the other tasks are aborted, started tasks are new, and repeating is a no-op |
| ManagedFile.Persist | crates/linklake-client/src/main.rs:2042-2086 | after every step, failed ones included, a valid configuration is found if one was before, the path never holds a torn file, and success leaves the specified files |
| ManagedFile.BackupValidIff | crates/linklake-client/src/main.rs:2062-2085 | after success the path is valid, and the backup is exactly unless the path was not valid beside a damaged backup |
| ManagedFile.DamagedBackupSurvives | crates/linklake-client/src/main.rs:2082-2084 | an input for which the backup stays damaged after success |

## Left out

- Sockets, TLS, QUIC, tasks and reconnect loops: input and output over libraries.
- Cryptographic primitives and JSON serialisation: the Noise cipher is a parameter that opens what it sealed at the same position, SHA-256 of serialised content a function with hexadecimal results; failures to serialise do not occur.
- Address text: reading and printing addresses is a parameter whose printed forms read back and hold neither slash nor white space.
- Settings of Fleet resources: a type parameter with its check and the clients it names; only the port expressions of port groups are modelled.
- FleetIntegrity.RefreshIntegrity: returns the sealed bundle as a value instead of setting two fields of the receiver.
- Overflow of `usize` and of the 64-bit sum of weights: lengths and totals are unbounded; sequence numbers do not wrap.
- UdpQueue.QueueBounded: one way only; a run with such a repetition may still keep the queue short, as when the repeated fragment is refused or expiry pops its entry.
- PublicPorts.Contains: requires a canonical list, which every constructor gives; values deserialised directly are not modelled.
- Comparison of alert values: an abstract comparator instead of floating point.
- AlertCatalog.Catalog.Update: of the checks on a rule only the cooldown's is modelled; no property depends on the limits of the name, the window and the target.
- Alert payload sizes: whether a notification is too large to queue is a parameter; normalisation of error codes is not modelled.
- SQL isolation and leader fencing: each transaction is one step, and so are the two statements of updating or deleting a rule in SQLite.
- Random identifiers and tokens: parameters; properties about tokens assume that they are fresh.
- ManagedFile.Persist: existence tests and reads report what is on disk, and rename and remove are atomic; writing and copying are not.
- AgentSupervisor.Supervisor.Reconcile: a task is a number; what a task does is not modelled.
- TargetProbe.TargetProbeSession.HandleProbe: the semaphore's answer and the printed policy identity are parameters.
- Nonce exhaustion of the Noise transport: the nonce is unbounded.
- Host names of Fleet routes and policy names: how they are checked is not modelled.
- Users, sessions, API tokens, the audit log and remote updates: other subsystems, which share no state with what is modelled.
- The target lookup of the UDP agent: it reads the health record twice and may see two states, so the selection results, which are about one state, do not cover it.
