# A verified model of the audio conference server

A conference server takes SIP and HTTP requests, runs one media processing unit per job, mixes the
audio of the unit's channels every 20 ms and sends each participant the sum of the others. This
project models the parts of it in which state, order or arithmetic decide what happens, and proves
what holds of every run.

* **Ports.** `PortAllocator` is the rotating-cursor allocator as one thread runs it: a loop on an
  object, proved against the cyclic order of the ports. `PortRace` is the same code run by k threads,
  with the wrap-around test, the reset, the increment and the locked insertion as separate actions.
* **Jobs and ownership.** `MpuState` gives the transitions of one unit (event queue, membership,
  stop), `McuState` those of the server (job table, closing set, reaper). `ProcessUnit` and
  `ControlUnit` are the two classes with their fields, each method proved to perform its transition.
  `PortOwnership` accounts for every allocated port over every run, shows exactly when a reaper round
  breaks the account, and gives the run in which two live channels share a port. `PortHistory` says what
  a unit's port list holds in terms of what the unit did, for port ranges on either side of 32768, and
  with it when ports are conserved, and how soon a unit must be gone after its ports were last probed.
  `UnitHistory` reads off the steps of a run which events were addressed to a unit, and shows that the unit
  handles them in that order and is the replay of what it handled. `McuRuns` holds the short runs that the
  examples are made of.
* **Audio.** `JitterBuffer` is a channel's receive buffer and its outgoing packets, `Mixer` the 16-bit
  mixer, `MixTick` the selection and mix-minus routing of one turn, `MixLoop` the loop itself on
  channel objects and a mixer object. `Interleave` is the planar-to-packed copy of the decoder.
* **Formats.** `Adts` converts between RFC 3640 packets and ADTS frames. `Text`, `Sip` and `Sdp` print
  SIP responses with their SDP answer and take them apart again.
* **Pools.** `Transcriber` is the pool of speech transcribers and the cutting of their audio,
  `EventLog` the bounded event log.

`Lists`, `ModArithmetic` and `Pcm` hold what several of these need. Each object's methods equate its
new state with a function of the old one, and say of its fields outright what becomes of them; the
theorems are about runs of those functions. A control
operation, a handled event, each half of a stop, a failure and a reaper round are one step each.
Outcomes of foreign code (codecs opening, packets decoding, the order in which a hash map is walked,
the arrangement std::sort chooses among equals) are parameters.

Where the code does not do what its comments or names promise, the model follows the code and a
theorem says exactly where the promise holds:

* a job's ports are released when it stops and again when it is reaped, so ports are conserved exactly
  in runs whose reaper rounds are clean (`ConservedIffClean`), and a shared port can result
  (`SharingHappens`);
* `getPort` narrows to 16 signed bits, so an event keeps the port list exact if and only if it removes
  no channel whose port is distorted (`EffectKeepsListIff`, `NarrowedIff`): from 32768 to 65535 every
  port is, and none is ever pruned (`HighPortsAccumulate`). For every range of 16-bit ports conservation
  holds exactly in runs whose reaper rounds find no port due for release with a unit that stays
  (`ConservedIffApart`), where due is what the unit's history makes it (`ListIsDue`); in ranges from
  32768 on, those of `res/config.ini` and of the default among them, it holds if no join is given a port
  that another unit, not yet reaped, has ever had (`HighPortConservation`), and a mere leave can break it
  (`LeaveBreaksConservation`);
* a unit found failed is certain to be removed within two reaper rounds exactly if the first one works on
  it or no stop of it is still to begin (`ReapedWithinTwoRoundsIff`, `PendingStopHappens`); but no closing
  unit is ever stranded, and every run can go on so that it is reaped (`NeverStranded`,
  `ClosingCanBeReaped`);
* an exception in a closing unit ends the job that has meanwhile taken over its name
  (`FaultEndsNamesakeIff`, `NamesakeEnded`);
* a destination hears the mix of the others only while the mixer has a stream for each of them
  (`FrameIsMixMinus`): members have one (`MembersAreKnown`), but a member that leaves or joins in the
  middle of a tick silences it for all the others (`LeaverSilencesTick`, `JoinerSilencesTick`);
* several threads can leave the configured port range, one cannot (`RangeKeptIffSingleThread`), and a thread
  that runs alone does what the sequential allocator does (`AloneIsSequential`);
* the SDP answer always says A-law, so a caller is told the codec its channel is requested with exactly if
  it offered no opus (`AnswerAgreesIff`);
* the AU header length is read with its high byte shifted by 16, so frame counts are right exactly up
  to 15 units (`CountRightIff`), and ADTS lengths up to 8184 bytes (`LengthReadBackIff`);
* `mux` works on a 1000-byte scratch buffer, so it accepts payloads exactly up to 993 bytes
  (`MuxOfFrame`).

## Model

| member | source | states |
|---|---|---|
| PortAllocator.OffsetIsCyclic | core/MediaControlUnit.h:152-155 | Stepping the cursor by two with a reset at the end of the range visits the even offsets in a cycle of half the range, rounded up. |
| PortAllocator.ApplyOnce | core/MediaControlUnit.h:148-173 | One application probes at most half the range plus one ports, all but the last of them taken; a success takes exactly the last probed port, which was free and in range; a failure changes no port and has made the full number of probes. |
| PortAllocator.ProbesFollowOrder | core/MediaControlUnit.h:151-168 | The i-th probe of an application is the i-th port of the cyclic order from the cursor. |
| PortAllocator.ApplyIsFirstFree | core/MediaControlUnit.h:148-173 | Completeness: from any cursor and any occupied set the first free port in cyclic order is returned within one turn, and the call fails if and only if every port of the cycle is taken. |
| PortAllocator.FirstFreeInTurn | core/MediaControlUnit.h:148-173 | The same in numbers, port by port: an application fails if and only if every port at an even distance from the start of the range is taken; else the port is free, every port between the cursor and it is taken, round the end of the range if need be, and the cursor then stands two behind it. |
| PortAllocator.SamePort | core/MediaControlUnit.h:152-155 | Two places of the cyclic order hold one port if and only if whole turns lie between them. |
| PortAllocator.ProbesAreCyclic | core/MediaControlUnit.h:148-186 | Over every run of applications and releases all probes, taken together, follow the cyclic order without a gap. |
| PortAllocator.ReuseDistance | core/MediaControlUnit.h:151-155 | Two probes of a run hit the same port if and only if a multiple of a full turn of probes lies between them, so two issues of one port are at least a full turn apart. |
| PortAllocator.SecondReleaseHarmless | src/mcu.cpp:69-74 | A port released twice is not disturbed by the second release as long as fewer than a full turn of probes has happened since it was issued. |
| PortAllocator.NotProbedAgain | core/MediaControlUnit.h:151-155 | Less than a full turn after its issue a port has not been probed again, whatever was released. |
| PortAllocator.StaysFree | core/MediaControlUnit.h:179-186 | A released port that is not probed stays free. |
| PortAllocator.PortTool.constructor | core/MediaControlUnit.h:144-146 | A new tool has its cursor at zero and no port taken. |
| PortAllocator.PortTool.ApplyPort | core/MediaControlUnit.h:148-173 | The port returned is the first free one of the turn that begins at the cursor, all before it being taken; it is taken now and the cursor stands two behind it. A failure leaves all ports as they were. |
| PortAllocator.PortTool.Turns | core/MediaControlUnit.h:151-168 | The loop leaves cursor, port set and result as one application from the old state, and terminates. |
| PortAllocator.PortTool.Probe | core/MediaControlUnit.h:152-162 | One turn of the loop wraps the cursor, steps it by two and takes the port if it was free. |
| PortAllocator.PortTool.FreePort | core/MediaControlUnit.h:179-186 | Ports below the range are ignored, any other port is free afterwards, all others are untouched. |
| PortAllocator.PortTool.FreeAll | core/MediaControlUnit.h:192-196 | No port is taken and the cursor is back at zero. |
| PortRace.NextKeepsBounded | core/MediaControlUnit.h:152-156 | Every atomic action of any thread keeps the cursor, plus two for each thread past the test and before its increment, within the bound. |
| PortRace.NextKeepsExclusive | core/MediaControlUnit.h:156-162 | Every atomic action keeps the ports held by different threads disjoint and the occupied set exactly the held ports. |
| PortRace.RunIsSafe | core/MediaControlUnit.h:148-186 | For every number of threads and every interleaving no port has two holders, every occupied port has one, and no offset exceeds the last even offset of the range plus 2(k - 1). |
| PortRace.AloneIsSequential | core/MediaControlUnit.h:148-173 | Refinement: from any state that any interleaving of any threads has reached, a thread that then runs alone performs exactly one application of the sequential allocator and holds the port that gives. |
| PortRace.MaxOffsetIsReached | core/MediaControlUnit.h:152-155 | The bound on offsets is exact: some interleaving of k threads obtains it. |
| PortRace.RangeKeptIffSingleThread | core/MediaControlUnit.h:152-155 | All interleavings stay inside the configured range if and only if there is at most one thread. |
| MpuState.EffectKeepsAgreement | src/mpu.cpp:124-181 | Every handled event keeps the user list free of duplicates and equal, as a set, to the channel map and the mixer's streams, the user count its length, all channels on the unit's codec; a chosen codec never changes. |
| MpuState.NarrowedIff | src/apc.cpp:175 | Among 32-bit ports getPort returns exactly those below 32768 and the topmost 32768 unchanged. |
| MpuState.NarrowedIsCongruent | src/apc.cpp:175 | Any other port becomes what is congruent to it modulo 2^16 and fits 16 signed bits. |
| MpuState.EffectKeepsListIff | src/mpu.cpp:153-180 | An event keeps the port list exactly the live ports, each once, if and only if it does not remove a channel whose port getPort distorts. |
| MpuState.MembershipIsReplay | src/mpu.cpp:545-582 | After any history of events the members are exactly those that the history added with success and did not remove later. |
| MpuState.HighPortsAccumulate | src/apc.cpp:175 | After any history with 16-bit ports, low and high ones mixed, the ports from 32768 on in the list are, in order, all of those ever added with success: removals never prune them. |
| MpuState.NothingIsPruned | src/apc.cpp:175 | If all ports added are from 32768 on, the list is, in order, every port ever added. |
| MpuState.ReportKeepsFifo | src/mpu.cpp:98-108 | Accepting an event keeps handled, batch and queue, one after the other, the accepted history; that this history is in the order of the steps is `UnitHistory.AcceptedIsAddressed`. |
| MpuState.SwapKeepsFifo | src/mpu.cpp:539-543 | Swapping the queues keeps that order. |
| MpuState.PopKeepsFifo | src/mpu.cpp:545-546 | Taking the next event off the batch keeps it. |
| MpuState.HandleKeepsUnit | src/mpu.cpp:545-582 | Handling an event keeps the queue order, the stop count and the membership agreement of the unit. |
| MpuState.FaultKeepsUnit | src/mpu.cpp:585-590 | So does an exception anywhere in an event, except that an add may be left halfway through its records: then the user list and the mixer lack that one channel and agree on all others. The event is lost, the queues and the port list stay, and the unit has failed. |
| MpuState.StagesOfAdd | src/mpu.cpp:124-154 | An exception in an add leaves, of the records of the whole add, a beginning in the order channel map with codec and rate, user list, mixer; the port list comes last. |
| MpuState.StatusKeepsUnit | src/mpu.cpp:213-234 | A failing mixing thread and both halves of stop keep queue order, stop count and what is left of the agreement. |
| MpuState.HandleReleasesWhatItDrops | src/mpu.cpp:124-181 | Handling an event releases exactly the ports the unit stops owning: none is lost, none is freed while it is still owned. |
| McuState.JobsAlwaysConserved | src/mcu.cpp:102-198 | After every run each unit is in exactly one of job table, closing set and reaper's set, and the job counter is the sum of their sizes. |
| McuState.FaultEndsNamesakeIff | src/mpu.cpp:585-590 | An exception in a unit's event thread takes another unit out of service and into the closing set if and only if that unit serves the job with the failing unit's name at that time. |
| McuState.ReapKeepsJobs | src/mcu.cpp:59-79 | A reaper round loses no unit and counts down once per unit it removes. |
| McuState.RoundDecidesUnits | src/mcu.cpp:59-79 | A round removes, of the closing units it examines, exactly those that have ended or failed, and counts them down; the others it examined are looked at again after the next round, and no unit is changed. |
| McuState.RoundDecidesPorts | src/mcu.cpp:64-79 | A port is free after a round if and only if it was free before or, not being below the range, is listed by a removed unit or held by one of its channels. |
| McuState.UnitsAlwaysSound | src/mpu.cpp:530-593 | After every run, for every unit: the handled events are a prefix of the accepted ones, the queues hold the rest in order while it runs, its membership records agree while it runs, and until it has ended they agree up to at most one channel whose add an exception cut short. |
| UnitHistory.AcceptedIsAddressed | src/mpu.cpp:98-108 | Over every run what a unit has accepted is, in the order of the steps, what the steps addressed to it while it ran: joins that were given a port and passed every check, notifications, failed channels, the end of its job, and faults of units that go by the name of its job. |
| UnitHistory.HandledInOrder | src/mpu.cpp:530-583 | First in, first out, over every run: the events a unit has handled are the first of those addressed to it, and while it runs the rest waits in batch and queue in the order of arrival. |
| UnitHistory.UnitIsReplay | src/mpu.cpp:124-181 | Over every run the members of a running unit are those whose add was handled and opened and who were not removed since; its codec and sample rate are those of the first add of a new id, even if that channel did not open. |
| UnitHistory.JoinIsQueuedIff | src/mcu.cpp:239-292 | Over every run a join that is given a port reaches the queue of its running job if and only if both rates are given, the codec is 1 or 2, and it is the codec of the first add of a new id the unit has handled, if there was one. |
| McuState.StopsAtMostOnce | src/mcu.cpp:154-187 | However jobs come, go and reuse names, every unit object is sent at most one stop event and its stop thread is assigned at most once. |
| McuState.NeverStranded | src/mcu.cpp:154-198 | After every run each closing unit has ended or failed, or its stop has begun, or it runs with its stop thread started or the stop event still queued. |
| McuState.CanSettle | src/mpu.cpp:213-234 | A unit in one of those states comes to its end by its own steps: it handles its events up to the stop, and the stop thread does the rest. |
| McuState.ClosingCanBeReaped | src/mcu.cpp:59-79 | Every run can go on, without a reaper round and then with two, so that a given closing unit is removed. |
| McuState.NothingLeavesBetweenRounds | src/mcu.cpp:154-198 | Between reaper rounds closing units stay where they are, and a unit that has ended, or has failed with no stop still to begin, stays so. |
| McuState.ReapedWithinTwoRounds | src/mcu.cpp:59-79 | Of any two consecutive reaper rounds at least one examines a given closing unit, so a unit that has ended, or has failed with no stop still to begin, is removed by one of them whatever happens in between. |
| McuState.ReapedWithinTwoRoundsIff | src/mcu.cpp:59-79 | A unit found ended or failed is removed within two rounds, whatever happens in between, if and only if the first round works on it or no stop of it is still to begin. |
| McuState.PendingStopEscapes | src/mpu.cpp:213-220 | A failed unit whose stop thread is started but has not begun escapes the second round: the stop takes it down. |
| McuRuns.PendingStopHappens | src/mpu.cpp:551-554 | Such a unit is reached: its channel has joined, its stop event is handled after a first round, and its mixing thread fails before the stop begins. |
| McuRuns.NamesakeEnded | src/mpu.cpp:585-590 | Five steps after which a job that nobody asked to end is closing: its name was used again, and the first unit of that name failed. |
| PortOwnership.ChangeOneOwner | src/mcu.cpp:224-299 | If one unit's account of its ports balances, the partition of all allocated ports into owners and leak does too. |
| PortOwnership.LocalOwnership | src/mpu.cpp:98-234 | Every step of one unit accounts for its ports: what it owned or was given is afterwards owned, released or in the named leak. |
| PortOwnership.StepConserves | src/mcu.cpp:200-312 | Every step but a reaper round keeps the ports partitioned among their owners and leaks exactly the ports of rejected joins, of joins to a unit that no longer runs and of queues abandoned with add events in them. |
| PortOwnership.ReapConservesIff | src/mcu.cpp:64-79 | A reaper round keeps the partition if and only if no port it releases belongs to a unit that stays; then it frees exactly what the finished units list or own. |
| PortOwnership.ConservedIffClean | src/mcu.cpp:48-83 | Ports are conserved at every point of a run if and only if all its reaper rounds are clean. |
| PortOwnership.NoTwoChannelsShare | src/apc.cpp:123-141 | While ports are conserved no two live channels, of whatever jobs, listen on the same port. |
| PortOwnership.NeverDueIsClean | src/mcu.cpp:69-74 | If no join is given a port that another unit still lists, every reaper round of the run is clean. |
| PortOwnership.PortConservation | src/mcu.cpp:224-299 | For ports up to 32767 and every run in which no port is issued to another unit between the stop that frees it and the reaper round that frees it again, allocated ports are the disjoint union of live channels' ports, queued ports and the leak, and each running unit lists exactly its live ports. |
| PortOwnership.LeaksHaveACause | src/mcu.cpp:239-292 | An allocated port without an owner was left by a rejected join, a join to a unit that no longer ran, or a unit that left the running state with its add event queued. |
| PortOwnership.SharingHappens | src/mcu.cpp:69-74 | A concrete run in which a port is issued between its two releases and then belongs to two live channels of two jobs. |
| PortHistory.ListIsDue | src/mpu.cpp:153-180 | For every range of 16-bit ports, while ports have been conserved a running unit lists its live ports and the ports from 32768 on that it ever had, and a stopped or failed one what it listed last. |
| PortHistory.ConservedIffApart | src/mcu.cpp:64-79 | For every range of 16-bit ports, below, above or across 32768: ports are conserved at every point of a run if and only if no reaper round finds a port that a finished unit's history makes due for release with a unit that stays. |
| PortHistory.ConservationByHistory | src/mcu.cpp:224-299 | For every such range: if no join is given a port that another unit's history makes due for release, ports are conserved at every point of the run. |
| PortHistory.HighPortConservation | src/mcu.cpp:224-299 | For ranges from 32768 on, the configured ones among them (res/config.ini:8-9, core/MediaControlUnit.h:229): if no join is given a port that another unit, not yet reaped, has ever had, ports are conserved at every point, and each unit lists every port it ever had. |
| PortHistory.LeaveBreaksConservation | res/config.ini:8 | A concrete run at port 62600 in which a channel leaves, its port goes to another job, and the reaper takes it away from there, though no port was issued between a stop and its reaper round. |
| PortHistory.ServerProbesAreCyclic | core/MediaControlUnit.h:148-173 | Whatever the server does, all its probes of ports, taken together, follow the cyclic order. |
| PortHistory.EndedRecentlyIsSafe | src/mcu.cpp:48-79 | If whenever a join is served every port that another ended unit lists was last probed less than a full turn of probes ago, no port is issued between its two releases. |
| PortHistory.ReapedInTimeConserves | src/mcu.cpp:48-79 | For every range of 16-bit ports, the configured ones included: if whenever a join is served every port that another unit is due to release, and that none of its channels holds any more, was last probed less than a full turn of probes ago, no join is given a port that another unit is due to release, and ports are conserved at every point. |
| ProcessUnit.EraseFirst | src/mpu.cpp:170-175 | The search and the single erase remove the first occurrence of the id and nothing else. |
| ProcessUnit.EraseAll | src/mpu.cpp:180 | The remove-and-erase keeps the other ports in order and drops every occurrence of this one. |
| ProcessUnit.MediaProcessUnit.constructor | src/mpu.cpp:46-51 | A new unit runs, has no members, no codec and empty queues. |
| ProcessUnit.MediaProcessUnit.ReportMediaInfo | src/mpu.cpp:98-108 | The event is put behind all queued ones if the unit runs, dropped otherwise. |
| ProcessUnit.MediaProcessUnit.SwapQueue | src/mpu.cpp:539-543 | An empty batch takes over everything queued. |
| ProcessUnit.MediaProcessUnit.AddChannel | src/mpu.cpp:124-154 | A known id, or a channel that does not open, gives its port back; the first add fixes codec and rate even if it does not open; a success updates map, users, count, mixer and port list together. |
| ProcessUnit.MediaProcessUnit.RemoveChannel | src/mpu.cpp:156-181 | The channel's port is released and its records are removed, the port list being searched for the narrowed port. |
| ProcessUnit.MediaProcessUnit.HandleEvent | src/mpu.cpp:545-582 | One turn of the loop performs one event's effect on unit and ports and nothing else. |
| ProcessUnit.MediaProcessUnit.HandleEvents | src/mpu.cpp:545-583 | The loop handles the whole batch in order, each event once. |
| ProcessUnit.MediaProcessUnit.BeginStop | src/mpu.cpp:213-220 | An ended unit is left alone; any other goes down. |
| ProcessUnit.MediaProcessUnit.ClearChannels | src/mpu.cpp:226 | Clearing the channel map releases exactly the live ports. |
| ProcessUnit.MediaProcessUnit.FinishStop | src/mpu.cpp:224-233 | The second half of stop releases every live port and ends the unit. |
| ProcessUnit.MediaProcessUnit.Destroy | src/mpu.cpp:88-96 | Destruction releases exactly the ports of the channels that are still there. |
| ControlUnit.MediaControlUnit.constructor | src/mcu.cpp:25-46 | A new server has no jobs and all ports free. |
| ControlUnit.MediaControlUnit.CreateMpu | src/mcu.cpp:102-152 | A new job gets a fresh unit and is counted; an existing job is refused and nothing changes. |
| ControlUnit.MediaControlUnit.EndMpu | src/mcu.cpp:154-198 | The unit leaves the job table, is sent a stop event and joins the closing set; an unknown job is refused. |
| ControlUnit.MediaControlUnit.AddChnl | src/mcu.cpp:200-312 | The join performs its step and succeeds exactly if a port was free, both rates are given, the codec is 1 or 2 and the unit has none or the same; then the event with that port is put behind the queued ones of the running unit. Otherwise the queue stays as it is. |
| ControlUnit.MediaControlUnit.JoinUnit | src/mcu.cpp:223-299 | The same for the unit, with the port: a rejected request keeps the port it was given; a failed application changes no port. |
| ControlUnit.MediaControlUnit.PassOn | src/mcu.cpp:314-384 | removeChnl, openMic and closeMic: the event reaches the queue of the job's unit, and the call fails only if there is no such job. |
| ControlUnit.MediaControlUnit.UpdateDestition | src/mcu.cpp:386-412 | The same for an update, which is also refused, and changes nothing, if its codec is unknown or not the one the job has chosen. |
| ControlUnit.MediaControlUnit.AutoCloseRound | src/mcu.cpp:59-79 | Swapping the sets and looping over the working set amounts to one reaper round, whatever order the set is walked in. |
| ControlUnit.MediaControlUnit.Examine | src/mcu.cpp:65-78 | A unit that has ended or failed is released, destroyed, erased and counted down; any other is untouched. |
| ControlUnit.MediaControlUnit.DestroyUnit | src/mcu.cpp:69-76 | Every listed port is released, and with the unit every port of its remaining channels. |
| JitterBuffer.SourceIsLocked | src/apc.cpp:326-333 | The source a channel is locked to is the first nonzero one that delivered a decodable packet. |
| JitterBuffer.ForeignIsIgnored | src/apc.cpp:326-333 | It listens to no other: taking every packet of another source than the one already locked out of a run changes neither its final state, nor the blocks delivered, nor the stream. |
| JitterBuffer.BufferByHistory | src/apc.cpp:383-431 | What each packet, read, idle turn and microphone change does to the buffer after any history: a packet of the locked source goes behind the buffer, behind its newer half if it is over the threshold, and alone if the microphone was also set since the last overflow; an idle turn empties it if the microphone was last set to closed. |
| JitterBuffer.ThresholdInTime | src/apc.cpp:377-431 | The threshold is 120 ms of samples for A-law and 400 ms for opus. |
| JitterBuffer.BlocksFollowStream | src/apc.cpp:152-161 | Over every run of packets, cuts, clears and reads the buffer is a suffix of the decoded stream, and the blocks read are pieces of that stream, in order and without overlap. |
| JitterBuffer.SamplesConserved | src/apc.cpp:377-393 | Every sample received was delivered, dropped or is still buffered. |
| JitterBuffer.BufferIsBounded | src/apc.cpp:383-393 | With threshold T and frames of at most F samples the buffer never exceeds max(T + F, 2F). |
| JitterBuffer.BoundIsReached | src/apc.cpp:420-431 | For every T and F some run fills the buffer to exactly that bound. |
| JitterBuffer.AudioPorcessChnl.constructor | core/AudioPorcessChnl.h:114-144 | A new channel has an empty buffer, a closed microphone, no source and no packet sent. |
| JitterBuffer.AudioPorcessChnl.GetBuffer | src/apc.cpp:152-161 | A read takes the oldest block of the asked length, or nothing at all if there is less. |
| JitterBuffer.AudioPorcessChnl.SetMicType | src/apc.cpp:163-166 | Every change of the microphone asks for the next overflow to clear the buffer. |
| JitterBuffer.AudioPorcessChnl.ClearWhileClosed | src/apc.cpp:283-287 | A turn with the microphone closed empties the buffer. |
| JitterBuffer.AudioPorcessChnl.ReceivePacket | src/apc.cpp:326-431 | A packet of a foreign source or one that does not decode changes nothing; any other is appended behind a cut buffer, and the first fixes the source. |
| JitterBuffer.AudioPorcessChnl.SendRtp | src/apc.cpp:177-203 | One packet more is sent; the i-th packet carries sequence number i modulo 2^16 and timestamp (i + 1) times a frame modulo 2^32. |
| Mixer.SumWithout | inc/remix/remix.cpp:146-152 | Leaving one stream out of the queue subtracts exactly its samples from the sum. |
| Mixer.SumPermuted | inc/remix/remix.cpp:125-152 | The order of the queue does not matter. |
| Mixer.MixOneMore | inc/remix/remix.cpp:113-164 | One stream more in the queue is added sample by sample modulo 2^16, the shorter of mix and stream counting as zero behind its end; the mix of no streams is empty. |
| Mixer.MixCongruent | inc/remix/remix.cpp:113-164 | The mix depends on the queued streams only. |
| Mixer.AudioMixer.constructor | inc/remix/remix.cpp:4 | A new mixer has no streams. |
| Mixer.AudioMixer.AddStreamId | inc/remix/remix.cpp:6-26 | A new stream starts empty; an existing one is left alone. |
| Mixer.AudioMixer.RemoveId | inc/remix/remix.cpp:80-99 | Only that stream is gone. |
| Mixer.AudioMixer.PushData | inc/remix/remix.cpp:28-49 | The samples are appended to that stream, or refused if there is none. |
| Mixer.AudioMixer.ClearData | inc/remix/remix.cpp:101-111 | Every stream is empty, none is removed. |
| Mixer.AudioMixer.GetData | inc/remix/remix.cpp:113-164 | The loops compute, for each position up to the longest queued stream, the sum of the queued streams modulo 2^16, shorter ones counting as zero; nothing at all if a queued stream is unknown. |
| MixTick.LoudestArePushed | src/mpu.cpp:382-409 | Of the channels with sound the loudest are pushed, five or all if there are fewer, each with its oldest block of the standard length, and no pushed channel is quieter than one that is not pushed. |
| MixTick.ReceiversIgnoreSound | src/mpu.cpp:336-361 | Changing microphones, volumes or buffers of any channels leaves the set of receivers, and their order, as it is. |
| MixTick.EveryCandidateIsConsumed | src/mpu.cpp:396-404 | Every channel with sound loses exactly one block, pushed or not; all others keep their buffers. |
| MixTick.FrameOfOthers | src/mpu.cpp:422-430 | A destination's frame has the standard length and is the 16-bit sum of all other destinations' blocks if the mixer has a stream for each of those, and silence if it lacks one. |
| MixTick.FrameIsMixMinus | src/mpu.cpp:422-430 | Mix-minus: that frame is, sample by sample, the full mix less the destination's own block, modulo 2^16, if every other destination has a stream in the mixer, and zero otherwise. |
| MixTick.FrameOfLoudest | src/mpu.cpp:393-430 | In terms of the channels: a frame is the sum of the oldest blocks of the first five in the ranking, less the receiver's own if it is one of them, modulo 2^16; silence if the mixer lacks the stream of another receiver. |
| MixTick.UnknownSilencesOthers | inc/remix/remix.cpp:125-140 | One destination without a stream in the mixer silences the frames of all the others. |
| MixTick.MembersAreKnown | src/mpu.cpp:124-181 | While the membership records agree every destination has a stream in the mixer. |
| MixTick.LeaverSilencesTick | src/mpu.cpp:156-181 | A member that leaves after the channels were looked at and before they are mixed silences the tick for all the others. |
| MixTick.JoinerSilencesTick | src/mpu.cpp:124-153 | A member that is in the channel map and not yet in the mixer silences the tick for all the others. |
| MixTick.OwnSamplesNotHeard | src/mpu.cpp:422-430 | Noninterference: changing a channel's own samples, volumes and lengths fixed, cannot change the frame sent back to it. |
| MixTick.OwnSamplesDoNotRank | src/mpu.cpp:382-386 | Nor can it change which rankings are possible. |
| MixTick.OrderNotHeard | src/mpu.cpp:422-430 | The order in which the channel map is walked cannot be heard: every order of the destinations gives the same frame, whether or not the mixer has their streams. |
| MixTick.EveryFifthIsSilence | src/mpu.cpp:363-371 | While nobody speaks exactly every fifth turn sends silence, wherever the count starts. |
| MixLoop.EveryDestinationOneFrame | src/mpu.cpp:412-451 | In a turn that sends, every destination has exactly one frame, of the standard length, whatever streams the mixer has; in any other turn there is none. |
| MixLoop.TurnIsMixMinus | src/mpu.cpp:393-430 | Every frame of a turn carries, sample by sample, the mix of the others, and silence if nobody has sound or the mixer lacks the stream of another receiver. |
| MixLoop.MixingLoop.constructor | src/mpu.cpp:253-255 | The loop starts with no idle turns and 20 ms of samples as its unit. |
| MixLoop.MixingLoop.Collect | src/mpu.cpp:334-361 | One pass finds exactly the channels that are ready and have not failed, whatever their microphone, those of them that have an open microphone and a block, and those to be removed because they are ready and failed. |
| MixLoop.MixingLoop.Survey | src/mpu.cpp:334-361 | The same on the channel objects' fields, the second group ranked by volume. |
| MixLoop.MixingLoop.PickSources | src/mpu.cpp:393-409 | Every ranked channel that still has a block loses it, and the first five are mixed, even if other threads cut buffers after the ranking. |
| MixLoop.MixingLoop.MixAll | src/mpu.cpp:413-443 | Every destination is given the mix of all the others, or silence, and the mixer is left empty. |
| MixLoop.MixingLoop.SendAll | src/mpu.cpp:475-505 | Every channel with a frame sends exactly one packet more, with that frame; the others send none. |
| MixLoop.MixingLoop.IdleTick | src/mpu.cpp:363-381 | A turn without sound counts up, or resets the count and has silence for everybody. |
| MixLoop.MixingLoop.Tick | src/mpu.cpp:328-506 | One round of the loop, on the channel objects: in a turn with sound, and in every fifth without, each channel that is ready and has not failed is sent exactly one packet, with the mix of the others or silence, and no other channel is sent any; each channel with sound loses one block; the failed ones are to be removed; idle count and emptied mixer. |
| MixLoop.MixingLoop.RoundOfChannels | src/mpu.cpp:363-506 | The part of it behind the pass over the channels. |
| Adts.LengthField | inc/AudioEngine23/AudioEngine23.hpp:366-369 | Whatever the data length, the header starts with the sync word and its 13-bit field holds the frame length modulo 2^13, in the places adts_header_t names. |
| Adts.LengthReadBackIff | inc/AudioEngine23/AudioEngine23.hpp:417-433 | A frame states its own length if and only if its access unit has at most 8184 bytes. |
| Adts.RateIndex | inc/AudioEngine23/AudioEngine23.hpp:315-356 | Every supported rate has its index in ISO/IEC 14496-3. |
| Adts.ConfigReadBackIff | inc/AudioEngine23/AudioEngine23.hpp:363-367 | For every unit length and every channel count profile, rate and channel count read back from the header if and only if there are at most seven channels. |
| Adts.ConfigFields | inc/AudioEngine23/AudioEngine23.hpp:363-367 | What these fields hold for every configuration: the channel count modulo 8, and profile and rate index with what 16 channels and more run over into them. |
| Adts.FixedFields | inc/AudioEngine23/AdtsHeader.h:15-40 | The other fields of the header read back as MPEG-4, layer 0, no checksum, original, home and copyright bits 0, variable-rate fullness 0x7FF and one raw data block; the private bit is 0 if and only if the channel count modulo 16 is below 8, and the copyright start bit if and only if there are at most 8184 bytes. With the length and the configuration this fixes all 56 bits. |
| Adts.DemuxOfPacket | inc/AudioEngine23/AudioEngine23.hpp:276-306 | A packet of up to 15 access units, whatever its index bits, gives one frame per unit, in order, each unit behind a header for its length. |
| Adts.CountRightIff | inc/AudioEngine23/AudioEngine23.hpp:284-285 | demux returns as many frames as the packet has units if and only if there are at most 15. |
| Adts.CountOf | inc/AudioEngine23/AudioEngine23.hpp:284-285 | For n units demux counts n/16 * 4096 + n mod 16. |
| Adts.DemuxConserves | inc/AudioEngine23/AudioEngine23.hpp:286-305 | For any input that is read inside its bounds the payloads of the frames are, one after the other, the bytes behind the AU headers. |
| Adts.FramesDelimitThemselves | inc/AudioEngine23/AudioEngine23.hpp:417-433 | Frames of units up to 8184 bytes can be run together and cut apart again at the lengths they state. |
| Adts.MuxOfFrame | inc/AudioEngine23/AudioEngine23.hpp:382-413 | Of demux's frames mux accepts exactly those with at most 993 bytes of data and makes the canonical packet of them; longer ones overrun the scratch buffer or, from 8185 on, state a length below the header's. |
| Adts.MuxAfterDemux | inc/AudioEngine23/AudioEngine23.hpp:382-413 | mux after demux is the identity on packets of one unit of up to 993 bytes, except that the index bits are cleared. |
| Adts.DemuxAfterMux | inc/AudioEngine23/AudioEngine23.hpp:276-306 | demux after mux gives back the payload of any accepted frame, whoever made its header. |
| Adts.DemuxAfterMuxOfOwn | inc/AudioEngine23/AudioEngine23.hpp:276-306 | demux after mux is the identity on the demuxer's own frames wherever mux accepts them. |
| Adts.Demuxer.constructor | inc/AudioEngine23/AudioEngine23.hpp:266-268 | A new demuxer has rate zero and one channel. |
| Adts.Demuxer.Init | inc/AudioEngine23/AudioEngine23.hpp:270-275 | Rate and channel count are set, nothing else. |
| Adts.Demuxer.WriteAdtsHeaders | inc/AudioEngine23/AudioEngine23.hpp:308-372 | The seven header bytes are written in place. |
| Adts.Demuxer.MakeFrame | inc/AudioEngine23/AudioEngine23.hpp:289-300 | The header and then the bytes of the unit are copied one by one. |
| Adts.Demuxer.Demux | inc/AudioEngine23/AudioEngine23.hpp:276-306 | The loop appends the frames of all units to the output, or would read behind the input. |
| Adts.Muxer.RemoveAdtsHeaders | inc/AudioEngine23/AudioEngine23.hpp:417-433 | The frame is copied and its length returned exactly if the sync word is right and neither input nor scratch buffer is overrun; each other case is named. |
| Adts.Muxer.Mux | inc/AudioEngine23/AudioEngine23.hpp:382-413 | The method returns the packet of the frame, or the error case. |
| Interleave.AtIsProduct | inc/AudioEngine23/AudioEngine23.hpp:80-86 | The running position is samples times channels. |
| Interleave.PlanesSurvive | inc/AudioEngine23/AudioEngine23.hpp:77-89 | Picking a channel out of the packed buffer gives back the plane that went in, or, for a missing plane, the buffer's old samples. |
| Interleave.PackedAt | inc/AudioEngine23/AudioEngine23.hpp:77-89 | Sample i of channel c stands at place i * channels + c, and what was there stays for a missing plane. |
| Interleave.Decoder.constructor | inc/AudioEngine23/AudioEngine23.hpp:64-67 | The buffer starts empty. |
| Interleave.GrowthInBytes | inc/AudioEngine23/AudioEngine23.hpp:62-67 | Counting the buffer in whole samples agrees with the byte counts of the code: both when it is too small and how much it then holds. |
| Interleave.Decoder.Reserve | inc/AudioEngine23/AudioEngine23.hpp:64-67 | A buffer that is too small grows to one and a half times the need, keeping its contents and adding zeros. |
| Interleave.Decoder.Pack | inc/AudioEngine23/AudioEngine23.hpp:77-89 | The two loops interleave the planes into the front of the buffer and leave the rest alone. |
| Interleave.Decoder.GetData | inc/AudioEngine23/AudioEngine23.hpp:54-100 | No frame or an unknown width changes nothing; otherwise the buffer starts with the packed samples and the byte count is samples times channels times width. |
| Text.NumberReadBack | src/spu.cpp:240-241 | A number that was printed and is read again is the same number, sign included, whatever follows it. |
| Text.NumberRead | src/spu.cpp:240-241 | White space and one sign in front of a number, and anything but a digit behind it, are read past. |
| Text.NoNumber | src/spu.cpp:240-241 | There is no number if no digit comes next. |
| Text.DecimalText | src/spu.cpp:368 | A number is printed in decimal digits without leading zeros, a negative one with a minus. |
| Sip.HeaderReadBack | src/spu.cpp:93-111 | In a message of one-line fields a header reads back as its value without leading blanks and trailing carriage returns. |
| Sip.HeaderLineCounts | src/spu.cpp:93-111 | In any message the first line counts that begins with the name, whatever the name goes on to, and has something other than blanks behind its first colon. |
| Sip.TrimmedParts | src/spu.cpp:99-106 | What is taken off a value is spaces, tabs and carriage returns in front and carriage returns behind; nothing is left if and only if there is nothing else. |
| Sip.ExtractedIsClean | src/spu.cpp:99-106 | Whatever is extracted, from any message, has no leading blank and no trailing carriage return. |
| Sip.ExtractedIsOneLine | src/spu.cpp:93-111 | Nor does it contain a line feed. |
| Sip.HeaderRoundTripIff | src/spu.cpp:93-111 | In a response a header, empty or not, reads back as the value it was given if and only if that value has nothing to trim and, if empty, the body has no line that is taken for it. |
| Sip.CSeqIsClean | src/spu.cpp:368 | The CSeq value of a response has nothing to trim. |
| Sip.ResponseReadBack | src/spu.cpp:346-373 | In a response without a body each of Via, From, To with tag, Call-ID and CSeq comes back if and only if it is clean. |
| Sip.ResponseText | src/spu.cpp:346-373 | A response without a body has exactly these lines, in this order, the last one blank. |
| Sip.SdpResponseReadBack | src/spu.cpp:375-406 | In a response with a body each of them comes back if and only if it is clean and, if empty, the body supplies nothing in its place. |
| Sip.SdpResponseText | src/spu.cpp:375-406 | A response with a body has exactly these lines and then the body. |
| Sip.RequestEchoed | src/spu.cpp:469-482 | End to end: for any request whatever, the response built from its extracted headers gives the caller the same Via, From and Call-ID, its To with the tag added, and the number put into CSeq. |
| Sip.ContentLengthReadBack | src/spu.cpp:400-403 | The body that is extracted is the body that was given, and the printed Content-Length reads back as its length. |
| Sip.BodyReadBack | src/spu.cpp:113-119 | The body comes back whatever it contains: the first blank line is the one that ends the headers. |
| Sip.TagReadBackIff | src/spu.cpp:121-130 | The To tag is added, as a parameter behind all else, if and only if there is one and the header has none; it then reads back if and only if it has no semicolon; adding it twice adds it once. |
| Sdp.FindAddress | src/spu.cpp:198-234 | The search loop terminates and returns the address of the first connection line at a line start that has one. |
| Sdp.ScanCodec | src/spu.cpp:245-261 | The loop over the lines folds every opus line into the result, or fails where a number cannot be read. |
| Sdp.ParseSdp | src/spu.cpp:188-262 | The parser returns address, port and codec of the description behind the headers, or the failure of one of them. |
| Sdp.NoBlankLine | src/spu.cpp:188-193 | A message without a blank line is parsed as if its first three characters were one, and fails if it is shorter. |
| Sdp.AddressReadBack | src/spu.cpp:198-228 | A connection line with an address, the first line with a c, gives that address. |
| Sdp.AddressIsFirst | src/spu.cpp:198-234 | In any description the address comes from the first c= at the start of a line with at least three words, up to a slash; every other c= is ignored, and without one the address stays what it was. |
| Sdp.AudioPortReadBack | src/spu.cpp:237-243 | The number behind the first m=audio reads back as the port. |
| Sdp.AudioPortIs | src/spu.cpp:237-243 | Whatever stands there, the port is the number it begins with, or 0; without m=audio it stays what it was, and a description that ends with m=audio cannot be read. |
| Sdp.OpusMapReadBack | src/spu.cpp:247-258 | An rtpmap line for opus gives exactly its payload type and sample rate, and fails if and only if one of them does not fit an int. |
| Sdp.OpusWithoutParameters | src/spu.cpp:247-258 | Without a slash behind the rate only the payload type is taken. |
| Sdp.OfferReadBack | src/spu.cpp:245-261 | Of an offer that can be read the last opus line decides, whatever lines come before it. |
| Sdp.AnswerReadBack | src/spu.cpp:602-622 | Round trip: for every numeric address and every port the parser, given any response that carries the server's own answer, returns that address, that port and no opus. |
| Sdp.AnswerText | src/spu.cpp:602-622 | The answer has exactly these twenty lines. |
| Sdp.AnswerCodecReadBack | src/spu.cpp:610-613 | A caller that reads the answer line by line finds the audio with format 8 and its encoding PCMA/8000. |
| Sdp.AnswerAgreesIff | src/spu.cpp:577-622 | A caller is told the payload type and encoding its channel is requested with if and only if it offered no opus. |
| Sdp.AnswerSuppliesNothing | src/spu.cpp:602-622 | No line of the server's answer is taken for a header. |
| Sdp.InviteReadBack | src/spu.cpp:375-406 | So in the response to an INVITE each header, empty or not, comes back if and only if it is clean. |
| Sdp.InviteEchoed | src/spu.cpp:524-530 | The same for any INVITE and the response that carries the server's answer. |
| Transcriber.TranscriberManager.constructor | inc/aesir.hpp:356-358 | The pool starts empty. |
| Transcriber.TranscriberManager.Startup | inc/aesir.hpp:362-376 | The loop adds the missing units 0 to preInit - 1 as idle and wakes stopped ones. |
| Transcriber.TranscriberManager.GetTranserId | inc/aesir.hpp:383-405 | The first idle unit in map order is leased; without one a new unit is, named by the number of units. |
| Transcriber.TranscriberManager.ReleaseTranser | inc/aesir.hpp:406-414 | A known unit is idle again; an unknown one is refused. |
| Transcriber.PoolIsSound | inc/aesir.hpp:383-414 | Over every run in which only holders release, the keys are exactly the decimal numbers below the pool's size, a unit is busy exactly while leased, and the size is the larger of preInit and the most leases held at once. |
| Transcriber.LeasesAreExclusive | inc/aesir.hpp:383-405 | In such a run the next id handed out is never one that is still leased. |
| Transcriber.ForeignReleaseIff | inc/aesir.hpp:406-414 | A release by someone without a lease keeps the pool sound if and only if nobody holds that id. |
| Transcriber.ForeignReleaseShares | inc/aesir.hpp:406-414 | A release by someone else can lease one id to two holders. |
| Transcriber.ChunksTile | inc/aesir.hpp:262-288 | The chunks of a pass are the buffer cut without gap or overlap: as many as whole chunks fit, the last one taking the rest along. |
| Transcriber.ProcessFull | inc/aesir.hpp:255-295 | Whatever the recogniser answers, each call gives it the first chunk it has not accepted yet, a refused one again; once all are accepted the buffer slides by 50000 samples, until then, and if it is short, it is left alone. |
| Transcriber.DoneIffAccepted | inc/aesir.hpp:262-288 | A pass is done if and only if the recogniser accepts once for every whole chunk size in the buffer, and what it accepted then is the whole buffer. |
| EventLog.LogIsSuffix | core/MediaControlUnit.h:120-130 | The log is always the latest events in order, at most its capacity (or two). |
| EventLog.LogSize | core/MediaControlUnit.h:120-130 | Its exact size after any number of events since the last drain. |
| EventLog.EventManager.constructor | core/MediaControlUnit.h:115-118 | A new log is empty. |
| EventLog.EventManager.Add | core/MediaControlUnit.h:120-130 | A full log drops its older half, rounded down, before the event is appended. |
| EventLog.EventManager.Get | core/MediaControlUnit.h:132-135 | The log and the caller's list are exchanged. |

## Left out

- Threads below the level of a step: each control operation, handled event, half of a stop and reaper round is atomic, so iterators used after a read lock is released (src/mcu.cpp:202-207, 299) are not modelled. The port allocator alone is modelled action by action.
- PortAllocator.PortTool.constructor: ranges are taken to be not negative and such that no port wraps around 32 bits; a negative portRange is not modelled.
- PortHistory.ConservedIffApart: port numbers are 16-bit numbers, as UDP has them; a configured range that runs past 65535 is not covered.
- PortRace.RunIsSafe: threads release only ports they hold; releasing everything at once (core/MediaControlUnit.h:192-196) is not an action of the race.
- Sockets, RTP reception and transmission, codecs, resamplers, timers, logging, configuration, JSON, HTTP and process start-up: their results are parameters of the model.
- JitterBuffer.AudioPorcessChnl.ReceivePacket: an exception in the receive loop, a failed packet allocation and the copy for subtitles are not modelled; the decoder's result is a parameter.
- JitterBuffer.AudioPorcessChnl.SendRtp: the encoder is not modelled, a packet holds the samples it was given.
- Mixer.AudioMixer.GetData: the log line for an unknown stream reads through an end iterator (inc/remix/remix.cpp:137); the model returns the empty mix that the code intends.
- MixLoop.MixingLoop.Tick: membership is fixed during a tick; `Round` takes any destinations, channels and mixer, and `MixTick.LeaverSilencesTick` says what a leave in between does to the frames. The conversion to float samples for codec 2 is part of the encoder and not modelled. The volume is any ordered value, so its computation from samples is not modelled; nor are the highlighted speaker (src/mpu.cpp:388-391), the loop's own timestamp, which only reaches the encoder, the sleeps, and the wait for a first channel.
- Adts.Demuxer.Demux: reads behind the input are undefined in C++ and an error in the model; for an unsupported sample rate the index is an arbitrary byte, as the uninitialised variable.
- Adts.Muxer.Mux: overruns of input or scratch buffer and frames shorter than their header are undefined in C++ and errors in the model.
- Interleave.Decoder.GetData: buffers are counted in samples of one width, which is fixed for a decoder.
- Interleave.Decoder.Reserve: the bytes of a sample that a resize ends inside are not modelled; no read or write of the decoder reaches them.
- Sip.HeaderRoundTripIff: values with a line feed are excluded, because they change the line structure; the status line is taken to start with S, as all of the server's do.
- Sdp.ParseSdp: atoi beyond the range of int is undefined in C++ and unbounded in the model.
- SIP requests, registration, tags and call ids drawn at random, and the extraction of job and channel ids from request lines.
- Transcriber.ProcessFull: the recogniser is the sequence of its answers, and a pass whose answers run out stands for one still retrying; the recognised text is not modelled.
- Counters that do not follow the state (channels, open microphones, error totals), memory and CPU monitoring, and the thread-safe queue.
