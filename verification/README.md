# vmqant: a verified model of its stateful cores

vmqant is a Go framework for game and messaging servers. This project models the parts of it that hold
hard state or arithmetic, and proves what they promise over every input and every run:

- **Service cache.** The consul watcher turns snapshots of a service into create, update and delete
  events; the selector cache replays them, and lookups refill it from the registry at any moment.
  `Registry`, `Watcher`, `SelectorCache`, `Convergence`, `Following`, `Serving`, `CacheSync`,
  `MockRegistry`, and `RegistryTags` for the tags a service is registered with.
- **Timing wheel.** Slots, circle counters and a key index, refining a list of pending tasks that carry
  the number of the tick that launches them. `Countdown`, `TimingWheel`.
- **MQTT codec.** Reader and writer of packs, their round trips, streams cut anywhere, and the packets of
  the MQTT 3.1.1 standard, byte by byte, with the answers they get. `Mqtt`, `MqttRoundTrip`, `MqttStandard`,
  `MqttPackets`, `MqttRefusals`, `MqttIO`, `MqttClient`, `MqttExchange`.
- **Write queue.** Any number of writers, one flusher, a lock and a token channel as a protocol of single
  steps. `PackQueue`, `PackProgress`, `PackOutcomes`.
- **Ring-buffer queue.** A resizing ring with bit masks that refines a sequence at amortised constant
  cost. `RingQueue`, with `Bits` for the bit operations.
- **Remote calls.** Callers with deadlines and one reply loop over an unreliable network, step by step.
  `RpcCorrelation`.
- **Numbers.** Base 62 in int64 arithmetic and the 128-bit counter behind generated ids. `Base62`,
  `IdCounter`.
- **Gate.** Connection counter, session map and worker tokens over interleaved agent lifecycles.
  `GateCounting`.

`Values` holds what several of them share. `dafny verify dfyconfig.toml` checks everything.

## How the source is modelled

Objects whose methods update their fields are classes with those fields; each method is proved against a
function on values, and the laws are proved about those functions. Code whose point is interleaving
(write queue, remote calls, gate, cache against registry) is a state machine: a step is enabled or not, takes
one state to the next, and a run is any sequence of enabled steps. Bytes are integers below 256, a shift
is a product or quotient by a power of two, a mask with 2^k - 1 a remainder; `Bits` defines `&` and `|`
bit by bit.

Where the code does something else than its comments or a reader would expect, the model follows the code:

- `get` in the selector cache does not return an expired entry "as last resort": the variable has been
  overwritten, and the result is an empty list without an error (`CacheSelector.Get`).
- An entry is served for less than twice the time to live, because the deadline is stored as now plus ttl
  and compared again with ttl (`CacheSelector.Get`).
- `serviceHandler` without entries does not know the service's name; it sends nothing and files the empty
  snapshot under the empty name (`ConsulWatcher.ServiceHandler`).
- A node cached before the watcher's first snapshot and missing from it is never deleted by events
  (`StaleNodeStays`); `DiffConvergesIff` gives the exact condition. So it is when a content is looked up
  and replaced before the watcher sees it (`SkippedContentStays`), and when a watcher is replaced after a
  node left (`RestartStays`); `InLineIff` gives the exact condition on every run.
- `removeTask` unlinks only the first task with the key, because the unlinked list element has no
  successor (`TimeWheel.RemoveTask`), so a removed key can still fire (`RemovedKeyFires`);
  `RemoveCompleteIff` says exactly when it cannot.
- `ReadPack` takes at most three length bytes, so a longer Remaining Length is read modulo 128^3
  (`LengthRead`, `LengthRoundTrip`). The retain bit is never written, and no id at QoS 0 (`Lossless`).
- SUBSCRIBE and UNSUBSCRIBE are written with one length byte that misses the id (`RequestsMiswritten`), and
  a PINGREQ or DISCONNECT that announces content leaves it in the stream (`OtherTypes`).
- A pack that cannot be encoded makes `WritePack` panic between lock and unlock, and the lock is never
  released (`CanJam`, `JammedForGood`); `NeverStuck` says exactly when the lock is lost.
- A deadline between the reply loop's lookup and its send makes the loop panic and end, for all calls
  (`CanStop`, `StoppedForGood`); `SendPanicsIff` says exactly when.
- A tag that is just the letter "e" or "t" makes the decoder of registry tags panic (`ReadPanicsIff`).

Assumptions: services and events are values, while the source shares pointers between watcher and cache
(registry/consul_watcher.go:164-166, selector/cache/cache.go:183, 201); the convergence results ask only
that cached ids lie within the old and the new snapshot, not that the cached entry equals the old one.
Correlation ids are unique. Workers of an agent do not panic in the storage handler's heartbeat.
The timing wheel's interval is at least one millisecond, as its division needs. The block cipher is
injective.

## Model

| member | source | states |
|---|---|---|
| `Following.CacheFollowsRegistry` | registry/consul_watcher.go:117-185 | on every run of registry changes, snapshots, catalog updates, lookups, deliveries and watcher restarts in any order, contents passing unseen included, once the watcher is up to date and its events are delivered the name is uncached or cached exactly as registered; asked for is that the registry keeps a content cached ahead of the watcher until the watcher has handled it, and covers the cached ids when a watcher is replaced |
| `Following.InLineIff` | registry/consul_watcher.go:117-241 | on every run without that condition: a name still cached after a snapshot or a departure and the delivery of all events agrees with the registry if and only if the events on their way before would have left only ids of the last snapshot handled or of the new content |
| `Following.DiffConvergesIff` | registry/consul_watcher.go:117-180 | a name that stays cached through the replay of a diff agrees with the new snapshot if and only if every cached node was in the old snapshot or is in the new one |
| `Following.StaleNodeStays` | registry/consul_watcher.go:124-130 | a concrete cached node unknown to the watcher's first snapshot survives its events |
| `Serving.OnlyRegisteredServed` | selector/cache/cache.go:147-257 | at every point of every run, skipped contents and restarts included, each cached node was registered under that version at some time |
| `Serving.OldOrNewServed` | selector/cache/cache.go:147-257 | from a point where the cache was in line on, whatever steps follow, each cached node was registered then or since; over one change that is old or new |
| `Serving.SkippedContentStays` | selector/cache/cache.go:83-140 | a run in which a content was looked up and replaced before the watcher saw it, and one of its nodes is served for good |
| `Serving.RestartStays` | selector/cache/cache.go:263-318 | a run in which the watcher saw every content but is replaced just after a node left, and the node is served for good |
| `Serving.UnlistedLeaveStays` | registry/consul_watcher.go:233-241 | a run in which a service leaves before the watcher listed it, so that nothing is announced and what was looked up is served for good |
| `Following.ListIsSnapshot` | registry/consul_registry.go:319-323 | the list built from a snapshot in any order stands for that snapshot, one entry per version |
| `Convergence.AfterDiff` | registry/consul_watcher.go:117-180 | replaying a diff on any content within old and new leaves exactly the new version, in any version order |
| `Convergence.ServedBetween` | registry/consul_watcher.go:117-180 | at every point of a replay the nodes of a version come from its start or from the new snapshot |
| `Convergence.StableReplay` | selector/cache/cache.go:147-257 | any part of a diff's events leaves content that is new already as it is |
| `CacheSync.Sync` | selector/cache/cache.go:296-318 | one snapshot through the watcher's and the cache's own methods leaves the name uncached or agreeing with the entries |
| `CacheSync.ReplayAll` | selector/cache/cache.go:296-318 | the cache's updates over a list of events are the replay on version maps, and touch no other name |
| `CacheSync.SnapshotsAgree` | registry/consul_registry.go:265-324 | watcher and lookup group the same entries into the same snapshot, filed under their own versions |
| `Watcher.ConsulWatcher.ServiceHandler` | registry/consul_watcher.go:51-185 | sends exactly the diff to the last snapshot, versions in some order, and remembers the new one; without entries it sends nothing |
| `Watcher.ConsulWatcher.Handle` | registry/consul_watcher.go:187-241 | snapshots and watchers of names that left the catalog are dropped; first comes one nodeless create under each new name, then one nodeless delete under each name that left, and nothing else |
| `Watcher.GroupIs` | registry/consul_watcher.go:60-108 | services carry the entries' name under their own version, and a version is there exactly when an entry has it |
| `Watcher.GroupNodes` | registry/consul_watcher.go:69-108 | the nodes of a version are, one by one and in order, those of its entries without a critical check: id, port, metadata, and the entry's address or else its host's |
| `Watcher.GroupEndpoints` | registry/consul_watcher.go:69-90 | its endpoints are those of its first entry |
| `Watcher.GoneNodesExactly` | registry/consul_watcher.go:124-160 | a delete for a version that is still there is an old entry of it with exactly its nodes that no new node has the id of |
| `Watcher.GetService` | registry/consul_registry.go:265-324 | the lookup groups the entries of the asked name only |
| `SelectorCache.CacheSelector.Update` | selector/cache/cache.go:147-257 | replays one event on its name and touches no other; the nodes reported and those left of the version are, with multiplicity, those it had, and exactly the reported ones carry ids of the event; nothing else is reported; the deadline is one ttl from now exactly when the list was stored again |
| `SelectorCache.CacheSelector.AddNodes` | selector/cache/cache.go:179-202 | adds the version, or the old nodes it had to the new ones, and renews the deadline |
| `SelectorCache.CacheSelector.DeleteNodes` | selector/cache/cache.go:203-257 | keeps the other nodes, drops a version without nodes, and the name with its last version |
| `SelectorCache.CacheSelector.Get` | selector/cache/cache.go:83-140 | serves from the cache exactly while less than 2 ttl have passed since it was stored, and else the registry's answer; a failing registry yields an empty list for an expired entry |
| `SelectorCache.CacheSelector.Set` | selector/cache/cache.go:142-145 | stores the list, which then expires one ttl from now, and keeps the other names |
| `SelectorCache.CacheSelector.Del` | selector/cache/cache.go:78-81 | forgets the name in both maps, and nothing else |
| `SelectorCache.ApplyIsApplyMap` | selector/cache/cache.go:160-257 | on lists with distinct versions an update is the map operation of its one version, keeps versions distinct, and drops the name in the same cases |
| `Registry.KeepOrDrop` | selector/cache/cache.go:209-227 | a delete partitions the old nodes into those kept and those reported, counting repetitions |
| `Registry.OrderKept` | selector/cache/cache.go:209-227 | both parts keep the order the nodes had |
| `MockRegistry.ReplayIsReference` | selector/cache/cache.go:147-257 | over every list of events with nodes the cached name is, version by version and id by id, what the mock registry's helpers make of it, versions and ids stay distinct, and it is dropped exactly if the helpers run it empty on the way |
| `MockRegistry.CacheIsReference` | registry/mock/helper.go:23-75 | one event with nodes acts on version-to-node maps as addServices or delServices does |
| `MockRegistry.NodelessIsReferenceIff` | selector/cache/cache.go:160-172 | an event without nodes agrees with the helpers exactly on an update of a version that is there, or a delete of the only version once it has no nodes |
| `MockRegistry.ApplyKeepsSound` | selector/cache/cache.go:174-257 | an event with distinct ids keeps every version's ids distinct, and versions filed under themselves |
| `MockRegistry.AddNodes` | registry/mock/helper.go:6-21 | new nodes overwrite old ones of the same id and ids stay distinct |
| `MockRegistry.AddServices` | registry/mock/helper.go:23-39 | each added service merges its nodes over those of its version, one after the other; versions and ids stay distinct |
| `MockRegistry.DelNodes` | registry/mock/helper.go:41-56 | the nodes whose id is not deleted, in order |
| `MockRegistry.DelServices` | registry/mock/helper.go:58-75 | each deleted service takes its ids from its version, and the version once nothing is left; versions and ids stay distinct |
| `Countdown.LaunchedOnTime` | module/modules/timer/timingwheel.go:132-200 | on every run a job added with a delay of at least k and less than k + 1 intervals of c.interval * 1000000 nanoseconds, and not removed, is launched by exactly the (k+1)-th later tick, once |
| `Countdown.LaunchedWhenDue` | module/modules/timer/timingwheel.go:143-174 | a pending task whose key is not removed is launched by the tick it is due at and by no other operation, once |
| `Countdown.LaunchOrder` | module/modules/timer/timingwheel.go:143-156 | each tick launches tasks at most once and in insertion order; every indexed key names a slot that holds such a task, even with reused keys |
| `Countdown.RemovedNeverLaunched` | module/modules/timer/timingwheel.go:203-220 | while pending keys are distinct, removing a key takes out exactly its task, which no later operation launches |
| `Countdown.DistinctByOperations` | module/modules/timer/timingwheel.go:178-191 | pending keys stay distinct if callers never give the same key twice, give no numbers, and leave it out fewer than 2^63 times |
| `Countdown.NumbersHandedOut` | module/modules/timer/timingwheel.go:178-184 | the n-th add without a key gets 1 + (n - 1) mod (2^63 - 1) |
| `Countdown.RemoveCompleteIff` | module/modules/timer/timingwheel.go:203-220 | on every run, removing a key leaves no task with it if and only if at most one was pending, and the index knew the key if one was |
| `Countdown.LeftoverIsLaunched` | module/modules/timer/timingwheel.go:203-220 | after a removal that was not complete a task with the removed key is launched at its tick unless the key is removed again |
| `Countdown.RemovedKeyFires` | module/modules/timer/timingwheel.go:203-220 | with two tasks under one key, whatever key, the second is launched although the key was removed twice |
| `Countdown.RunKeepsIndexExact` | module/modules/timer/timingwheel.go:143-220 | while pending keys are distinct the index holds exactly the pending keys with their slots |
| `Countdown.GoneForGood` | module/modules/timer/timingwheel.go:143-220 | a task that is not pending any more never becomes pending again |
| `TimingWheel.Drive` | module/modules/timer/timingwheel.go:82-101 | over every list of operations the wheel launches, operation by operation, the tasks the countdown list launches |
| `TimingWheel.TimeWheel.TickHandler` | module/modules/timer/timingwheel.go:132-140 | refines one tick of the countdown list |
| `TimingWheel.TimeWheel.ScanAndRunTask` | module/modules/timer/timingwheel.go:143-174 | the in-place walk launches the tasks without turns left and takes one turn off the others, and unindexes the launched keys |
| `TimingWheel.TimeWheel.AddTimer` | module/modules/timer/timingwheel.go:109-191 | refines an add; a delay of nothing is ignored |
| `TimingWheel.TimeWheel.AddTaskKey` | module/modules/timer/timingwheel.go:178-184 | a task without a key gets the next number, which starts over after the largest int64 |
| `TimingWheel.TimeWheel.GetPositionAndCircle` | module/modules/timer/timingwheel.go:194-200 | for a delay of at least k and less than k + 1 intervals in nanoseconds: the slot the hand stands at k ticks from now, and the whole turns it makes until then |
| `TimingWheel.TimeWheel.RemoveTask` | module/modules/timer/timingwheel.go:203-220 | refines a removal: the first task with the key in the slot the index names |
| `TimingWheel.TimeWheel.constructor` | module/modules/timer/timingwheel.go:53-79 | an empty wheel |
| `TimingWheel.TickSlots` | module/modules/timer/timingwheel.go:132-156 | a tick changes the current slot only, fires exactly the due tasks, and moves the hand by one |
| `MqttRoundTrip.LengthIsMinimal` | gate/base/mqtt/mqtt.go:807-823 | the length bytes are the minimal encoding of section 2.2.3 of MQTT 3.1.1, one to four bytes below 128^4 |
| `MqttRoundTrip.LengthRead` | gate/base/mqtt/mqtt.go:325-344 | below 128^4 the reader yields the length modulo 128^3 and leaves a fourth byte unread |
| `MqttRoundTrip.LengthRoundTrip` | gate/base/mqtt/mqtt.go:325-344 | a length survives if and only if it is at most 2097151 |
| `MqttRoundTrip.PackRoundTrip` | gate/base/mqtt/mqtt.go:650-805 | a sendable pack is read back, with exactly the losses named by `Received`, and nothing after it is touched |
| `MqttRoundTrip.PublishRoundTripIff` | gate/base/mqtt/mqtt.go:436-466 | a PUBLISH comes back as it was if and only if it has a topic, no retain bit, an id only with QoS above 0, and a length within both bounds |
| `MqttRoundTrip.StreamRoundTrip` | gate/base/mqtt/mqtt.go:304-613 | any list of sendable packs is read back pack by pack from the concatenation, and the rest is left |
| `MqttRoundTrip.CutStream` | gate/base/mqtt/mqtt.go:304-613 | from a stream cut anywhere the reader gets a proper prefix of exactly the packs sent, and all of them once everything has arrived |
| `MqttStandard.ConnectParses` | gate/base/mqtt/mqtt.go:352-435 | every CONNECT of section 3.1 of MQTT 3.1.1 is read in full, and nothing after it, if and only if its client id has 1 to 64 bytes; else it is rejected for its identifier |
| `MqttStandard.FlagsRoundTrip` | gate/base/mqtt/mqtt.go:280-301 | the flags byte is taken apart into exactly the flags it was made of |
| `MqttStandard.SubscribeParses` | gate/base/mqtt/mqtt.go:511-543 | every SUBSCRIBE of section 3.8 is read topic by topic, although the id bytes are not subtracted |
| `MqttStandard.UnsubscribeParses` | gate/base/mqtt/mqtt.go:559-585 | every UNSUBSCRIBE of section 3.10 is read topic by topic |
| `MqttStandard.TopicsRead` | gate/base/mqtt/mqtt.go:522-543 | the topic loop reads exactly the topics and stops |
| `MqttPackets.LayoutParses` | gate/base/mqtt/mqtt.go:304-613 | every control packet of sections 3.1 to 3.14 of MQTT 3.1.1, laid out byte by byte with its first byte spelled out, is read field by field, and nothing after it |
| `MqttPackets.LayoutWritten` | gate/base/mqtt/mqtt.go:650-805 | every packet a server sends is written exactly as laid out there |
| `MqttPackets.RetainLost` | gate/base/mqtt/mqtt.go:650-660 | the retain bit of a PUBLISH is never written |
| `MqttPackets.RequestsMiswritten` | gate/base/mqtt/mqtt.go:731-791 | a SUBSCRIBE or UNSUBSCRIBE written is never the packet of the standard, because its length misses the id |
| `MqttPackets.RequestsWritten` | gate/base/mqtt/mqtt.go:731-791 | what is written instead, byte by byte |
| `MqttRefusals.TooLongRefused` | gate/base/mqtt/mqtt.go:345-350 | a length above the bound is refused before anything else is read |
| `MqttRefusals.AckReadIff` | gate/base/mqtt/mqtt.go:467-596 | an acknowledgement is read if and only if it announces two bytes, a SUBACK three |
| `MqttRefusals.PublishRefused` | gate/base/mqtt/mqtt.go:436-466 | a PUBLISH without a topic, or above QoS 0 without room for an id, is refused |
| `MqttRefusals.PublishAtZero` | gate/base/mqtt/mqtt.go:436-466 | what a PUBLISH at QoS 0 takes as its message, for every announced length |
| `MqttRefusals.ConnectOutOfRange` | gate/base/mqtt/mqtt.go:352-362 | a protocol name that leaves less than four bytes is out of range |
| `MqttRefusals.ConnectMiscounted` | gate/base/mqtt/mqtt.go:397-435 | for every announced length, right or wrong: which fields of a CONNECT are read, which stay in the stream, and when it is refused |
| `MqttRefusals.OtherTypes` | gate/base/mqtt/mqtt.go:597-610 | types without a reader lose their content; PINGREQ and DISCONNECT leave it in the stream |
| `MqttRefusals.TopicsCut` | gate/base/mqtt/mqtt.go:522-585 | a name cut by the end of the stream is padded with zeros, or lost where a QoS was to follow |
| `MqttRefusals.PanicsIff` | gate/base/mqtt/mqtt.go:650-823 | a pack cannot be encoded if and only if its variable part is not of its type's kind or its length needs a fifth byte |
| `MqttRefusals.BareTypes` | gate/base/mqtt/mqtt.go:650-805 | types the server has no body for are written as their first byte alone |
| `MqttIO.Reader.ReadPack` | gate/base/mqtt/mqtt.go:304-613 | the consuming reader yields the value, the error and the rest that `ParsePack` has |
| `MqttIO.Reader.Length` | gate/base/mqtt/mqtt.go:325-344 | the length loop |
| `MqttIO.Reader.ConnectBody` | gate/base/mqtt/mqtt.go:352-396 | CONNECT up to the client id |
| `MqttIO.Reader.ConnectTail` | gate/base/mqtt/mqtt.go:397-435 | will, user name and password as flags and count allow |
| `MqttIO.Reader.PublishBody` | gate/base/mqtt/mqtt.go:436-466 | topic, id and message |
| `MqttIO.Reader.Topics` | gate/base/mqtt/mqtt.go:520-543 | the topic loops, which a read error only ends, with a short name padded by zeros |
| `MqttIO.Reader.Body` | gate/base/mqtt/mqtt.go:351-610 | the part after the length, by type |
| `MqttIO.Reader.String` | gate/base/mqtt/mqtt.go:615-632 | a two-byte length and that many bytes |
| `MqttIO.Reader.Int` | gate/base/mqtt/mqtt.go:634-641 | two bytes, high byte first |
| `MqttIO.Writer.DelayWritePack` | gate/base/mqtt/mqtt.go:650-805 | appends exactly the encoding, or reports where the source panics, which leaves exactly the first byte behind |
| `MqttIO.Writer.TopicsBody` | gate/base/mqtt/mqtt.go:731-756 | one length byte whatever the length needs, id, topics |
| `MqttIO.Writer.PublishBody` | gate/base/mqtt/mqtt.go:671-694 | length, topic, id at QoS above 0, message |
| `MqttIO.GetRemainingLength` | gate/base/mqtt/mqtt.go:807-823 | the in-place digit loop yields the length bytes, and overruns from 128^4 on |
| `MqttClient.AnswersArrive` | gate/base/mqtt/mqtt_client_server.go:92-182 | over any byte stream the packs written are in order the answers to the packs received, and the peer reads exactly those |
| `MqttExchange.Converse` | gate/base/mqtt/mqtt_client_server.go:92-182 | for every list of packets of the standard the server writes exactly these bytes, in order: 20 02 00 00 for CONNECT; 40 02 id, 50 02 id or nothing for PUBLISH by QoS; 62 02 id for PUBREC; 70 02 id for PUBREL; 90 03 id 00 for each QoS 2 topic of SUBSCRIBE; B0 02 id for UNSUBSCRIBE; D0 00 for PINGREQ; and it hands on exactly PUBLISH, SUBSCRIBE, UNSUBSCRIBE and PINGREQ |
| `MqttExchange.AnswerBytes` | gate/base/mqtt/mqtt_client_server.go:107-182 | the same for one packet |
| `MqttExchange.PingEcho` | gate/base/mqtt/mqtt_client_server.go:171-175 | a PINGREQ with the dup flag gets a PINGRESP with it |
| `MqttExchange.MessageBytes` | gate/base/mqtt/mqtt_client_server.go:184-190 | a message of the server goes out as the QoS 0 PUBLISH of the standard, without its id |
| `MqttClient.AnswersSendable` | gate/base/mqtt/mqtt_client_server.go:92-182 | every answer to a pack the reader can yield is itself readable |
| `MqttClient.HandshakeCompletes` | gate/base/mqtt/mqtt_client_server.go:115-151 | a QoS 2 message sent over the wire is followed by PUBREC, PUBREL and PUBCOMP with its id, and then nothing |
| `MqttClient.IdsDistinct` | gate/base/mqtt/mqtt_client_server.go:83-91 | message ids are never 0 and pairwise distinct in any 65535 consecutive messages |
| `MqttClient.Client.GetOnlineMsgId` | gate/base/mqtt/mqtt_client_server.go:83-91 | the next id, 1 after 65535 |
| `MqttClient.Client.WaitPack` | gate/base/mqtt/mqtt_client_server.go:92-182 | writes the answers in order and hands on the packs that are due upstairs |
| `MqttClient.Client.WriteMsg` | gate/base/mqtt/mqtt_client_server.go:184-190 | on an open connection, writes one message under the next id |
| `MqttClient.Client.ReadPackInLoop` | gate/base/mqtt/pack_queue.go:168-198 | answers every pack of the stream up to the first that cannot be read, and hands on in order those that go upstairs |
| `PackProgress.NoLostFlush` | gate/base/mqtt/pack_queue.go:101-155 | in every reachable healthy state buffered bytes have a token queued, a writer about to send one, or a flusher that has one, unless a call panicked inside the lock |
| `PackProgress.NeverStuck` | gate/base/mqtt/pack_queue.go:101-155 | in every reachable state with an unbroken writer the lock's holder can move on if and only if it is not past the checks with a pack that has no encoding, and queued tokens keep the flusher going even while writers block on a full channel |
| `PackProgress.NeverJams` | gate/base/mqtt/pack_queue.go:123-155 | a run that begins only encodable packs never loses the lock |
| `PackProgress.CallCanJam` | gate/base/mqtt/pack_queue.go:123-146 | on any free, unbroken queue with room, one call with a pack that has no encoding loses the lock in four steps |
| `PackProgress.CanJam` | gate/base/mqtt/pack_queue.go:123-146 | so from the start there is a run that loses it, with a PUBLISH of 256 MiB |
| `PackProgress.DoomedForGood` | gate/base/mqtt/pack_queue.go:123-146 | a lost lock stays lost: no later call is accepted and nothing more is sent |
| `PackProgress.FlushWithinReach` | gate/base/mqtt/pack_queue.go:101-155 | from every reachable healthy state whose lock is not lost a path of at most nine steps puts everything accepted on the wire |
| `PackProgress.NoFlushOnceLost` | gate/base/mqtt/pack_queue.go:101-155 | and from one whose lock is lost no path ever sends another byte |
| `PackProgress.JammedForGood` | gate/base/mqtt/pack_queue.go:124-146 | after the panic inside the lock not even the buffer changes any more |
| `PackQueue.WireRefinement` | gate/base/mqtt/pack_queue.go:123-155 | wire and buffer together are the accepted packs' encodings in lock order, plus at most a proper beginning of the one that failed; after a panic the buffer ends in one byte more, the header of the pack that has no encoding |
| `PackQueue.LateIsRefused` | gate/base/mqtt/pack_queue.go:133-137 | a call that takes the lock after CLOSED never writes |
| `PackOutcomes.AcceptedIff` | gate/base/mqtt/pack_queue.go:123-155 | a caller is told that its pack was accepted if and only if it was written and then its token sent, and then the pack is on the wire or in the buffer |
| `PackOutcomes.AcceptedAreWrites` | gate/base/mqtt/pack_queue.go:146-155 | the accepted packs are those of the writes, in their order |
| `PackOutcomes.WritesOnce` | gate/base/mqtt/pack_queue.go:123-155 | no call writes twice |
| `PackOutcomes.ResultsHaveReasons` | gate/base/mqtt/pack_queue.go:133-155 | "disconnect", the write error and the full buffer are what the check saw, in that order; any other failure went through Close |
| `PackOutcomes.ClosesInOrder` | gate/base/mqtt/pack_queue.go:199-219 | closing is for good and in one order, error, channel, status; and at most 256 tokens are queued |
| `PackOutcomes.SendsWithRoom` | gate/base/mqtt/pack_queue.go:79-147 | a token is sent exactly while the open channel has room among its 256 places |
| `PackOutcomes.FlusherWaits` | gate/base/mqtt/pack_queue.go:101-121 | the flusher waits exactly while the channel is open and empty, or with a token while the lock is taken; on a closed, empty channel it ends |
| `PackOutcomes.ExitedForGood` | gate/base/mqtt/pack_queue.go:101-121 | a flush that fails ends the flusher for good, so no run has two |
| `PackOutcomes.FlusherLeavesWire` | gate/base/mqtt/pack_queue.go:101-121 | after CLOSED the flusher writes nothing and ends |
| `PackOutcomes.TokensConserved` | gate/base/mqtt/pack_queue.go:101-147 | tokens queued plus tokens taken are tokens sent |
| `PackOutcomes.BufferBounded` | gate/base/mqtt/pack_queue.go:141-146 | the buffer never exceeds its size, and a call past the checks finds room in it |
| `PackQueue.PeerReadsAccepted` | gate/base/mqtt/pack_queue.go:123-219 | at every point of every run a peer reading the wire gets a prefix of exactly the accepted packs, and all of them once the buffer is flushed |
| `RingQueue.Serve` | utils/queue.go:32-100 | every run of requests is answered as by a plain sequence, through wraparound and both resizes, and the elements copied are those the size rules say, at most two per Add and one per Remove |
| `RingQueue.AmortisedCost` | utils/queue.go:32-57 | over every run of Add and Remove the copies stay below 2 adds + removes, and the capacity is 16 or less than 4 times the count |
| `RingQueue.Queue.Resize` | utils/queue.go:32-45 | moves the contents to a buffer of twice their number |
| `RingQueue.Queue.Add` | utils/queue.go:48-57 | appends the element; cells outside the contents stay nil |
| `RingQueue.Queue.Peek` | utils/queue.go:61-66 | the oldest element, or a panic |
| `RingQueue.Queue.Get` | utils/queue.go:72-82 | element i from the front, or from the back for negative i, or a panic |
| `RingQueue.Queue.Remove` | utils/queue.go:86-100 | takes the oldest element and clears its cell |
| `RingQueue.Queue.Length` | utils/queue.go:26-28 | the number of elements |
| `RingQueue.Queue.constructor` | utils/queue.go:19-23 | an empty queue of capacity 16 |
| `RingQueue.Wrap` | utils/queue.go:55-55 | on a power of two the bit mask is the remainder |
| `RpcCorrelation.AtMostOneReply` | rpc/base/nats_client.go:186-203 | with duplicated, reordered, late, lost or forged replies each callback channel gets at most one value: a reply the network delivered, whole, with the call's own id; a result returned is that reply; no caller sees its channel closed without one |
| `RpcCorrelation.TakesItsReply` | rpc/base/rpc_client.go:97-110 | a call that takes a value returns exactly the reply that was delivered for it |
| `RpcCorrelation.ReplyIsReturned` | rpc/base/nats_client.go:186-203 | from every reachable state with an idle loop, any reply to a waiting call is returned by it in five steps, whatever it says |
| `RpcCorrelation.OutcomesHaveReasons` | rpc/base/rpc_client.go:84-110 | every outcome a call returns has its step: a value taken, a deadline cleaned up after, a publication that failed; and a failed publication returns just that |
| `RpcCorrelation.LoopNeverWaits` | rpc/base/nats_client.go:145-203 | the loop takes the next reply exactly when it is idle, and else has a step of its own until it stops |
| `RpcCorrelation.ClosedAfterSend` | rpc/base/nats_client.go:194-198 | once the loop has gone on from a call it answered, that call's channel is closed |
| `RpcCorrelation.SendNeverBlocks` | rpc/base/nats_client.go:194-198 | the loop's send never blocks |
| `RpcCorrelation.NoEntryLeft` | rpc/base/rpc_client.go:97-110 | a call that returned a result or "deadline exceeded" has no table entry and never regains one |
| `RpcCorrelation.SendPanicsIff` | rpc/base/rpc_client.go:107-110 | with a reply to send, the loop panics if and only if the caller it answers has given up, and else the send goes through |
| `RpcCorrelation.StoppedForGood` | rpc/base/nats_client.go:128-145 | the loop stops only by such a panic; then it stays stopped, and no call without a value by then, so none registered later, gets one or returns a result |
| `RpcCorrelation.CanStop` | rpc/base/nats_client.go:128-145 | there is a run in which a deadline between lookup and send stops the loop |
| `Base62.EncodeDecode` | utils/base62.go:33-55 | every non-negative int64 is encoded in at most 11 characters and decoded to itself without overflow |
| `Base62.DecodeEncode` | utils/base62.go:33-55 | every canonical digit string is the encoding of its value |
| `Base62.IntToBase62` | utils/base62.go:33-45 | the digits, lowest first; "0" for 0 and nothing for a negative number |
| `Base62.Base62ToInt` | utils/base62.go:48-55 | for every string the sum of digits times factors in int64 arithmetic; with zeros only from the twelfth character on that is the value of the trimmed string on every machine |
| `Base62.PowersExact` | utils/base62.go:52-52 | the powers up to 62^10 are exact in a 53-bit mantissa |
| `Base62.TableIs` | utils/base62.go:22-28 | digit characters run from "0", then from "a", then from "A" |
| `Base62.OtherCharacters` | utils/base62.go:28-28 | a character that is not in the table counts as 0 |
| `Base62.TrimIs` | utils/base62.go:49-49 | what is trimmed is blank, and what is left has no blank at either end |
| `Base62.FactorIs` | utils/base62.go:52-52 | a position's factor is the power of 62 exactly as long as an int64 holds it |
| `Base62.WrapIs` | utils/base62.go:51-53 | int64 arithmetic keeps the one int64 that differs by a multiple of 2^64 |
| `IdCounter.GeneratePairs` | utils/id.go:58-74 | in a run of ids of any length two pairs from one block each are the same if and only if a multiple of 256^16 blocks lies between |
| `IdCounter.BlocksRepeatIff` | utils/id.go:58-74 | the same of the blocks any generator has produced |
| `IdCounter.IncrementAddsOne` | utils/id.go:62-67 | the carry adds one modulo 256^16 |
| `IdCounter.Increment` | utils/id.go:62-67 | the in-place carry loop |
| `IdCounter.Generator.GenerateID` | utils/id.go:58-74 | half a block per id, a new block of the counter's cipher for every second one |
| `GateCounting.CounterIsExact` | gate/base/gate_handler.go:47-97 | over every interleaving of agents coming and going, agentNum is the number of agents counted and not yet uncounted, and sessions names only agents connected under that id |
| `GateCounting.SessionsAreExact` | gate/base/gate_handler.go:47-103 | with distinct session ids every connected agent is found under its id, except those OnDestroy took out |
| `GateCounting.GoneUntilStored` | gate/base/gate_handler.go:72-103 | a session taken out, by OnDestroy or a disconnect, is not found again until an agent is stored under it |
| `GateCounting.GoneDisconnected` | network/tcp_server.go:96-106 | an agent is gone only after its disconnect deleted its session and then saw to the counter, whether or not its handshake came through |
| `GateCounting.NothingLeft` | gate/base/gate_handler.go:72-97 | once every agent is gone the counter is 0 and no session is left |
| `GateCounting.TokensAreWorkers` | gate/base/mqtt_agent.go:91-108 | tokens in ch are the running workers and one being started, at most ConcurrentTasks; a pack is refused exactly while that many run, and a worker that ends finds a token |
| `RegistryTags.RegisterAndRead` | registry/consul_registry.go:190-193 | metadata, endpoints in order and version come back from the tags Register writes |
| `RegistryTags.ReadBack` | registry/encoding.go:44-168 | and from any list whose tags of the three kinds are those, whatever stands between them and in whatever order the metadata was written |
| `RegistryTags.ReadsOwnKind` | registry/encoding.go:54-140 | tags of other kinds make no difference to a reading loop, wherever they stand |
| `RegistryTags.FirstFormatDecides` | registry/encoding.go:54-88 | of tags in both formats exactly those in the format of the first are read |
| `RegistryTags.PlainRead` | registry/encoding.go:70-125 | tags in the old, plain format are read as they are, and one that cannot be read is left out |
| `RegistryTags.ReadPanicsIff` | registry/encoding.go:54-140 | a reading loop panics if and only if a tag is just its letter |
| `RegistryTags.DecodeEndpoints` | registry/encoding.go:54-88 | the endpoint loop |
| `RegistryTags.DecodeMetadata` | registry/encoding.go:104-142 | the metadata loop, later pairs over earlier ones |
| `RegistryTags.DecodeVersion` | registry/encoding.go:148-168 | the first tag that begins with "v=" or "v-" decides: its rest as it is, or unpacked |
| `RegistryTags.EncodeMetadata` | registry/encoding.go:90-102 | one packed tag per pair, in some order of the keys |
| `RegistryTags.EncodeEndpoints` | registry/encoding.go:44-52 | one packed tag per endpoint, in order |

## Left out

- Base62.Base62ToInt: what the conversion of a power of 62 above 2^63 to int64 yields is a parameter, because the language leaves it to the machine.
- RpcCorrelation.AtMostOneReply: a client that stays open; the teardown in `Done`, which closes channels and drops the call table, is not modelled.
- Pointer sharing between watcher and cache: services and events are values.
- zlib, hex and JSON behind the registry tags: parameters that give back what they were given.
- The etcd, kubernetes and file registries, sockets, TLS, NATS and consul clients: foreign input and output.
- Reflection-driven dispatch of the RPC server, logging, option builders, protobuf code and the HTTP gateway.
- Wall-clock time: clocks are parameters or ticks.
- What remains unread after a pack that could not be read; the connection is closed then.
