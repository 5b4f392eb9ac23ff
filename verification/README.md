# Verified model of a clustered AMQP message broker

This project models the parts of a Rust message broker whose correctness is hardest to see
from the code, and proves what they promise. It is written in Dafny 4.11; all files are checked
together (`dafny verify dfyconfig.toml`).

The model keeps the source's shape. A struct whose methods update it is a class with the same
fields (`SegmentCoordinator`, `PriorityQueue`, `ClusterCoordinator`, `StreamStore`,
`ContentReceiver`, ...); a loop that fills accumulators or arrays is a method with invariants
(`ReadEntries`, `TopicMatches`, `RemoveById`, `ReadFieldTable`, ...). Each such method is proved
equal to a function of its inputs and the old state, and the theorems are lemmas about those
functions: independent reference definitions, inverses, invariants and whole runs. Where a
function decides what a broker or its peers see, a lemma also says so in fields, positions and
numbers, without naming the function's own expression.

## What is modelled

* **Write-ahead log, recovery, compaction** (`WalFormat`, `WalRecords`, `Segments`,
  `SegmentPacking`, `Wal`, `Recovery`, `RecordReading`, `Compaction`). Framed entries with
  length, checksum and type; size-bounded segments; the scan that stops at the first bad entry;
  replay into queues, exchanges, bindings and schemas; and the rewrite of the log without
  acknowledged messages. A segment file is a byte sequence, a crash a prefix of one. The checksum is an arbitrary function of the bytes;
  UTF-8 validity and schema compilation are arbitrary predicates. The checksum never has to be
  good: what the theorems need follows from the lengths.
* **Cluster consensus** (`Cluster`, `Election`, `ElectionProgress`, `Replication`,
  `ReplicationProgress`, `ReplicatedLog`, `RaftGroup`, `Metadata`). Handlers of one node as
  methods; elections, replication rounds and a queue's Raft group as state machines over atomic
  handler steps and frames in flight.
* **Stream store** (`Streams`, `StreamPacking`), **priority queue** (`PriorityQueues`), **delay
  queue** (`DelayQueues`), **token bucket** (`TokenBuckets`), **delivery and disconnect**
  (`Delivery`, `Brokers`, `Passes`, `Disconnects`).
* **AMQP 0-9-1 encoding and routing** (`FieldTables`, `Properties`, `Framing`, `Multiplexing`,
  `Exchanges`, `Routing`). `WireLayout` says octet by octet what all encoders, those of the log
  included, put on disk and on the wire.

`Bytes`, `Readers`, `Ordered`, `Tallies` and `Messages` hold the shared vocabulary: big-endian
integers and length-prefixed fields, the byte cursor, ordered sets of keys, counted votes, and messages.

The clock, the choice of which sink accepts a frame, and the reading of a stored payload are
parameters. Sequences of `seq<Field>`, `seq<StreamSegment>` and `seq<Delayed>` stand for the
source's `BTreeMap`s in key order; inserting under a key is written out, replacement included.

## Where a claim fails, and exactly when it holds

* A torn tail is not cut off when a segment file is reopened. `LaterAppendsReadableIffNoTornTail`:
  entries appended later are read back exactly when the file had no torn tail.
  `CutFrameHidesLaterAppend` is the case: a cut anywhere inside a frame, behind any entries, hides
  some later append.
* An entry whose length does not fit 32 bits is lost by its own length field
  (`EntrySurvivesIffSized`), and takes with it what follows in its segment
  (`OversizedMessageLosesRest`, with a message of that size). The same holds for a field table's
  data (`TableRoundTripIff`), the properties (`PropertiesRoundTripIff`) and a frame
  (`FrameRoundTripIff`). `HugeTableIsLost`, `HugeHeadersAreLost` and `HugeFrameIsRefused` are the
  cases: strings and payloads of 2^32 bytes.
* The writer counts a segment's size by frame lengths cut to 32 bits. Under the limit a broker
  runs with, a locator points at its own frame exactly when the earlier frames in its segment fit
  32 bits or the count and the frame pass the limit (`PointsAtFrameIff`), and segments stay within
  the limit exactly when each entry that joins others does so by their real lengths too
  (`LimitKeptAtIff`). Under every limit both hold exactly when the frame of every entry but the
  last fits 32 bits (`LimitKeptIff`, `LocatorsPointIff`). `HugeMessageMisleads` is the case: after
  a message whose frame is 2^32 bytes long, the locator of the next one yields the first.
* Compaction forgets which ids were acknowledged. `CompactionInvisibleIff`: a compacted log is
  told apart from the original exactly when a later suffix enqueues such an id again, to a queue
  that exists, without acknowledging it. `CompactionRevives` is the case: declare a queue,
  acknowledge an id, compact, enqueue the id again.
* The comment on `tally_pre_vote` says that pre-vote terms do not overlap with real ones. They
  do: both tallies use the same term number, and neither remembers who voted.
  `ElectionUniqueness` holds when no pre-vote reply for a term is counted after its node has run
  for that term. Without that, no term is won twice exactly in clusters of one node
  (`LateRepliesSafeIff`); `LateRepliesElectTwo` is the case, for any two nodes of any cluster:
  repeated pre-votes leave enough replies on their way to elect both. Heartbeats raise the term
  without clearing the vote; uniqueness holds all the same, because a stale vote only withholds
  the vote from others.
* An accepted AppendEntries keeps the committed prefix exactly when its entries agree with the
  log up to the commit index (`CommittedPrefixKeptIff`); nothing in the handler checks that.
  `AppliedCanBeReplaced` is a run that applies a command which an accepted frame then replaces.
* An accepted AppendEntries moves the commit index to what the leader told or to the end of the
  log, whichever comes first, and not at all when it was told nothing higher (`FrameOutcome`).
  So the index falls exactly when the log then ends below what was committed while the leader
  told of more (`CommitFallsIff`); `CommitCanFall` is such a frame.
* Removing a connection cleans listeners and consumer tags, but not the list of consumers that
  deliveries go to. A surviving queue's list is free of the connection exactly when it was before
  (`ListIsFreeIff`). A consumer left behind counts as having room and ends every pass that turns
  to it (`ClosedConsumerLooksReady`, `ClosedConsumerStopsPass`); `DisconnectBlocksOthers` is a
  broker where that costs another connection its delivery.
* A connection keeps one content under way for all its channels, and a publish method replaces
  it, although AMQP 0-9-1 lets channels interleave. `NoneLostIffSerial`: of complete messages
  sent over any channels, each is published exactly when no publish method or content frame of
  another channel comes between a message's publish method and its last frame. `TurnsMixTwoMessages` is the case: two
  channels that take turns.
* The round robin of a pass is fair over the messages of a readable queue (`PassIsFair`). An
  unreadable message uses up a turn: `UnreadableSkewsTurns` is a queue from which one of two
  consumers gets nothing.
* Under a drain at the very instant a message is due, only an id of 2^64 - 1 would stay
  (`DrainReleasesEverythingDue`).
* A queued reference whose payload cannot be read is dropped by the delivery pass, not kept
  (`PassConserves`, `PassTakesFront`).
* `read_range` with limit 0 still returns one message (`StreamStore.ReadRange`).

## Model

| member | source | states |
|---|---|---|
| WalFormat.ReadEntries | src/storage/wal.rs:636-698 | The scanning loop returns exactly `Scan`, the entries of the longest well-formed front of the file; `pos` strictly grows. |
| WalFormat.ScanOfFrames | src/storage/wal.rs:184-209 | Printer and parser: scanning the frames of any entries whose lengths fit gives those entries back. |
| WalFormat.ScanFindsFrames | src/storage/wal.rs:636-698 | Whatever bytes follow a complete prefix of frames, the scan starts with all the prefix's entries. |
| WalFormat.ScanIsFramed | src/storage/wal.rs:645-695 | Whatever the file holds, what the scan returns is framed at the front of it: nothing is invented. |
| WalFormat.TornTail | src/storage/wal.rs:636-698 | For any entries cut at any byte, the scan returns exactly those that lie wholly before the cut. |
| WalFormat.EntrySurvivesIffSized | src/storage/wal.rs:184-209 | An entry is read back after writing if and only if its length fits the 32-bit length field. |
| WalFormat.LaterAppendsReadableIffNoTornTail | src/storage/wal.rs:225-251 | After reopening a file, every later append is read back if and only if the scan consumed the file to its last byte. |
| WalFormat.CutFrameHidesLaterAppend | src/storage/wal.rs:225-251 | A cut anywhere inside a frame, behind any entries: those are read back, but some entry appended after reopening is not. |
| Segments.Segment.Append | src/storage/wal.rs:184-209 | The frame is added at the end of the file; the offset returned is the counter, which then grows by the frame's length cut to 32 bits. |
| Segments.SegmentCoordinator.constructor | src/storage/wal.rs:225-251 | Opening keeps every file, starts segment 1 when there is none, and counts the active file as long as it is. |
| Segments.SegmentCoordinator.Append | src/storage/wal.rs:254-282 | The disk, counter and locator after an append, with rotation when the counter and the frame would pass the limit. |
| Segments.SegmentCoordinator.ReadMessagePayload | src/storage/wal.rs:284-373 | The result of reading through a locator, including every error case. |
| Segments.SegmentCoordinator.ReadAllEntries | src/storage/wal.rs:375-384 | The loop over the segments returns their scans in segment order. |
| Segments.SegmentCoordinator.Truncate | src/storage/wal.rs:388-418 | Leaves a single empty segment 1. |
| Segments.ReadHeadersAndBody | src/storage/wal.rs:330-372 | The cursor skips queue, id, exchange and routing key and returns headers and body, or the first field that is cut short. |
| Segments.SegmentationIsTransparent | src/storage/wal.rs:254-384 | From an empty log, for any appends and any size limit, reading all segments returns exactly the appended entries in order. |
| Segments.PointsAtFrameIff | src/storage/wal.rs:184-209 | Under a given limit, the locator of the k-th append points at its own frame if and only if the earlier frames in its segment fit 32 bits or the append starts a segment. |
| Segments.LimitKeptAtIff | src/storage/wal.rs:254-282 | Under a given limit, a segment is over it only with a single entry, if and only if no entry joins others whose real lengths, with its own, pass the limit. |
| Segments.LimitKeptIff | src/storage/wal.rs:254-282 | For every size limit a segment is over it only with a single entry, if and only if the frame of every entry but the last fits 32 bits. |
| Segments.LocatorsPointIff | src/storage/wal.rs:184-209 | For every size limit each locator returned points at its own frame, if and only if the frame of every entry but the last fits 32 bits. |
| Segments.LocatorKeepsYielding | src/storage/wal.rs:284-373 | On a log whose counter is right, or with an append that rotates, the locator of an enqueued message yields its headers and body after all later appends and rotations. |
| Segments.LocatorsKeepYielding | src/storage/wal.rs:284-373 | So does a locator of a run from the empty log, when the earlier frames in its segment fit 32 bits or its append rotates. |
| Segments.HugeMessageMisleads | src/storage/wal.rs:205-207 | After a message whose frame is 2^32 bytes long the limit is broken, and the next message's locator yields that first message. |
| Segments.OversizedMessageLosesRest | src/storage/wal.rs:184-209 | A message whose length field wraps to 0 is not read back, nor is anything after it in its segment. |
| Segments.CrashLeavesPrefix | src/storage/wal.rs:375-384 | Over any segments, cutting the active file at any byte leaves all entries of the closed segments and, of the others, exactly those wholly before the cut. |
| SegmentPacking.AppendOutcome | src/storage/wal.rs:254-282 | When an append opens a new segment, what the two files then hold, how the counter moves, and the three numbers of the locator; every other file stays. |
| SegmentPacking.SegmentsAreFull | src/storage/wal.rs:254-282 | Over any appends whose frames fit 32 bits, a segment is followed by another one only when the first frame of that one would have taken it over the limit. |
| SegmentPacking.YieldsIff | src/storage/wal.rs:284-373 | A read through a locator yields headers and body exactly when a whole, checked enqueue entry with readable fields lies there, and then they are its own. |
| SegmentPacking.ReferenceResolves | src/queue/message.rs:154-174 | A queued reference made with the locator of a logged message resolves, after any later appends, to a message with the headers and body logged and everything else from the reference. |
| WireLayout.LogFrameLayout | src/storage/wal.rs:132-209 | Octet by octet: big-endian length of type and data, big-endian checksum of them, the type octet (1 to 6, 16, 17), the data. |
| WireLayout.EnqueueLayout | src/storage/wal.rs:531-565 | Where queue, id, exchange, routing key, headers and body lie in the payload, each behind its length. |
| WireLayout.DeclarationLayouts | src/storage/wal.rs:497-583 | Where name, flag and kind of declarations and the id of an acknowledgement lie. |
| WireLayout.BindLayout | src/storage/wal.rs:586-593 | Where exchange, queue and routing key of a binding lie. |
| WireLayout.SchemaLayout | src/storage/wal.rs:505-529 | Where id, queue, source, descriptors and message name of a schema lie. |
| Wal.Wal.Log | src/storage/wal.rs:497-600 | Logging a record appends exactly its encoding, field by field, under its entry type. |
| Wal.Wal.Append | src/storage/wal.rs:462-466 | Appends one entry to the segments and counts it. |
| Wal.WriteEnqueue | src/storage/wal.rs:531-565 | The enqueue writer lays the six fields out in the order the parsers expect. |
| Recovery.ReadsWhatWasLogged | src/storage/mod.rs:185-322 | For every kind of record whose fields fit and are text, replaying its entry has the effect of the record itself; an acknowledged enqueue has none. |
| Recovery.RecoveryRebuildsMeaning | src/storage/mod.rs:47-83 | A restart after any logged operations, over any segment size: recovery rebuilds what the operations mean, with acknowledged messages left out. |
| Recovery.CrashRecoversPrefix | src/storage/mod.rs:47-83 | A crash in the middle of a write, over any segments: recovery rebuilds what a prefix of the records means, with all of the closed segments and exactly the records written wholly before the cut. |
| Recovery.RecoveredQueues | src/storage/mod.rs:185-277 | Recovery into an empty broker restores exactly the durable queues, each with exactly its unacknowledged messages, oldest first. |
| Recovery.RecoveredExchanges | src/storage/mod.rs:279-322 | On the records alone: an exchange is restored exactly when a durable declaration names one of the four kinds, with the kind of the first such one; a binding is in it exactly when a bind record for it follows that declaration, or, for the default exchange, a durable declaration of the queue. |
| Recovery.KeptExchange | src/storage/mod.rs:279-322 | An exchange that was there keeps its kind, and gains exactly the bindings that the records bind to it. |
| Recovery.RecoveredSchema | src/storage/mod.rs:205-235 | A restored queue has a schema exactly when one that compiles was set after its declaration, and then the last such one. |
| Recovery.ReplayAppend | src/storage/mod.rs:60-80 | Replay of two logs in a row is replay of the second on what the first rebuilt, with the acknowledgements of both. |
| Recovery.AckedIdsSpec | src/storage/mod.rs:50-59 | An id counts as acknowledged exactly when some acknowledgement entry names it. |
| RecordReading.AckedIff | src/storage/mod.rs:50-59 | An id counts as acknowledged exactly when the data of an acknowledgement starts with its eight big-endian octets. |
| RecordReading.ReadEnqueueIff | src/storage/mod.rs:237-277 | The reader returns a message exactly for its six fields in order, strings in UTF-8, whatever follows, unless its id is acknowledged. |
| RecordReading.ReadDeclareQueueIff | src/storage/mod.rs:185-203 | The reader accepts exactly a name and one more octet, and only the octet 1 means durable. |
| RecordReading.ReadDeclareExchangeIff | src/storage/mod.rs:279-304 | The same for an exchange, with the octet of its kind between. |
| RecordReading.ReadBindIff | src/storage/mod.rs:306-322 | The reader accepts exactly three strings in UTF-8. |
| RecordReading.ReadSchemaIff | src/storage/mod.rs:205-213 | The reader accepts exactly an id, a queue, two blobs and a message name. |
| Readers.ByteReader.ReadStringU16 | src/storage/mod.rs:176-183 | Reads a length-prefixed string, or reports a short payload or invalid UTF-8; the cursor moves past it. |
| Readers.ByteReader.ReadU64 | src/storage/mod.rs:149-165 | Reads eight big-endian bytes exactly when they are there. |
| Recovery.RecoveringBroker.ReplayEnqueue | src/storage/mod.rs:237-277 | Applies a well-formed enqueue of a message not acknowledged; on a malformed payload or an acknowledged id changes nothing. |
| Recovery.RecoveringBroker.ReplayDeclareQueue | src/storage/mod.rs:185-203 | Restores a durable queue and its default binding; a queue that exists keeps its messages. |
| Recovery.RecoveringBroker.ReplayBind | src/storage/mod.rs:306-322 | Adds the binding to an exchange that exists; fails without effect on a malformed payload. |
| Recovery.RecoveringBroker.ReplayEntries | src/storage/mod.rs:47-83 | The whole replay loop computes the fold the theorems are about, whatever entries fail. |
| Compaction.Compact | src/server/tasks.rs:153-198 | Below the threshold or without acknowledgements the log stays; otherwise the disk is that of logging the kept entries from the start, reading it back gives them, and the counts add up. |
| Compaction.ReplayEntries | src/server/tasks.rs:202-222 | After truncation the log holds the kept entries, in order, over fresh segments. |
| Compaction.CompactedHoldsNoAcks | src/server/tasks.rs:225-254 | A compacted log has no acknowledgements left, and compacting it again changes nothing. |
| RecordReading.CompactedKeepsIff | src/server/tasks.rs:225-254 | An entry is dropped exactly when it is an acknowledgement whose eight octets, or an enqueue whose octets behind the queue name, are an acknowledged id. |
| Compaction.DroppedHasNoEffect | src/server/tasks.rs:225-254 | An entry that compaction drops has no effect on replay, malformed payloads included. |
| Compaction.CompactionInvisibleIff | src/server/tasks.rs:176-254 | For every log, suffix and starting image: replay of the compacted log and the suffix equals replay of the original and the suffix if and only if the suffix revives no acknowledged message. |
| Compaction.CompactionInvisible | src/server/tasks.rs:176-254 | In particular whenever the suffix does not enqueue an id acknowledged in the log. |
| Compaction.CompactionRevives | src/server/tasks.rs:225-254 | Declare, acknowledge, compact, enqueue the id again: after a restart the original log has no message and the compacted one has it. |
| Compaction.QueuesAfterReplay | src/storage/mod.rs:185-203 | What replay rebuilds has exactly the queues there were and those that a readable entry declares durable. |
| Compaction.AppendsAfterCompaction | src/server/tasks.rs:202-222 | What is logged after a compaction is read back behind what it kept. |
| Compaction.CompactedDiskRecoversIff | src/server/tasks.rs:153-222 | On disks: a restart after compaction and later appends recovers what a restart without compaction would, if and only if nothing acknowledged is brought back. |
| RaftGroup.RaftQueueState.constructor | src/cluster/raft.rs:151-171 | A member starts as a follower at term 0 with only the sentinel entry. |
| RaftGroup.RaftQueueState.AppendLocalCommand | src/cluster/raft.rs:186-201 | Only a leader appends, at the next index and its own term. |
| RaftGroup.RaftQueueState.HandleAppend | src/cluster/raft.rs:207-260 | The handler computes the specified state and answer, and never indexes the log out of range. |
| ReplicatedLog.StoreAllMerges | src/cluster/raft.rs:235-252 | The truncate-and-push loop keeps the entries that agree by term and replaces the rest from the first conflict on. |
| ReplicatedLog.MergeKeepsPrefixIff | src/cluster/raft.rs:235-252 | The merge leaves a prefix of the log as it is if and only if the entries agree with it. |
| RaftGroup.LogMatching | src/cluster/raft.rs:186-260 | In every run, with frames late, reordered or repeated: two logs that share index and term at an entry are identical up to it, and every entry sits at its own index. |
| RaftGroup.MutuallyUpToDateIsEqual | src/cluster/raft.rs:268-276 | In every run the up-to-date test orders any two logs, and both pass it exactly when the logs are equal. |
| RaftGroup.FrameOutcome | src/cluster/raft.rs:207-260 | Field by field: exactly when a frame is accepted, whose follower the member then is, that its log holds every entry sent behind the one before, and how its commit index moved. |
| RaftGroup.CommitsAreSent | src/cluster/raft.rs:255-257 | In every run a commit index is 0 or at most one that some frame told. |
| RaftGroup.UpToDateIff | src/cluster/raft.rs:268-276 | In every run a log is up to date with another exactly when its last term is later or it extends the other. |
| RaftGroup.OnlyLeadersAppend | src/cluster/raft.rs:186-201 | A leader adds the command at the next index in its own term; anyone else refuses and stays the same. |
| Metadata.MetadataRaftState.HandleAppend | src/cluster/metadata.rs:89-135 | The metadata handler computes the specified state and answer. |
| Metadata.MetadataRaftState.DrainUnapplied | src/cluster/metadata.rs:139-148 | The draining loop returns the commands between the applied and the committed index and moves the former up. |
| Metadata.CommittedPrefixKeptIff | src/cluster/metadata.rs:89-135 | An accepted frame of contiguous entries keeps the committed prefix if and only if the entries agree with the log up to the commit index. |
| Metadata.AppliedCanBeReplaced | src/cluster/metadata.rs:89-135 | A run that commits and applies a command, after which an accepted frame puts another in its place. |
| Metadata.AppliedOnceInOrder | src/cluster/metadata.rs:73-148 | At every point of every run, applied <= committed <= last index, and all drained batches together are the commands of the log up to the applied index. |
| Metadata.CommittedNeverChanges | src/cluster/metadata.rs:73-148 | Between any two points of a run the commit index only grows and committed entries stay. |
| Metadata.FrameOutcome | src/cluster/metadata.rs:89-135 | Field by field: exactly when a frame is accepted, whom the node then follows, that its log holds every entry sent behind the one before, and how its commit index moved. |
| ReplicatedLog.CommitFallsIff | src/cluster/metadata.rs:129-131 | A commit index so moved falls if and only if the log ends below what was committed and below what was told; otherwise it advances to what was told or to the end of the log. |
| Metadata.CommitCanFall | src/cluster/metadata.rs:129-131 | A frame of a later term that takes the commit index below the applied index. |
| Metadata.AppliedIsPromised | src/cluster/metadata.rs:73-148 | Over any run, nothing is applied or committed beyond the largest commit that a frame or a commit call named. |
| Metadata.DrainCatchesUp | src/cluster/metadata.rs:139-148 | A drain applies exactly up to the commit index and leaves the log. |
| Metadata.OnlyLeadersAppend | src/cluster/metadata.rs:73-86 | A leader adds the command at the next index in its own term; anyone else refuses and stays the same. |
| Cluster.ClusterCoordinator.constructor | src/cluster/manager.rs:105-141 | Every node starts as its own leader at term 1 without a vote. |
| Cluster.MajoritiesOverlap | src/cluster/manager.rs:149-156 | Any two sets of nodes as large as the quorum share a node. |
| Cluster.QuorumIffMajority | src/cluster/manager.rs:149-156 | A number of nodes reaches the quorum exactly when it is more than half. |
| Cluster.ClusterCoordinator.StartPreVote | src/cluster/manager.rs:170-191 | Opens a tally for the next term without moving the term; a lone node passes at once. |
| Cluster.ClusterCoordinator.PollPreVoteTally | src/cluster/manager.rs:197-226 | A pre-vote passes exactly at a quorum of the tally and the tally is dropped with the answer. |
| Cluster.ClusterCoordinator.StartElection | src/cluster/manager.rs:242-250 | Raises the term, votes for itself and opens a tally of one. |
| Cluster.ClusterCoordinator.PollElectionTally | src/cluster/manager.rs:264-316 | Abandons the election when the term moved on, and becomes leader only at a quorum of the tally. |
| Cluster.ClusterCoordinator.HandlePreVote | src/cluster/network.rs:421-455 | Answers whether it would grant the vote and changes nothing. |
| Cluster.ClusterCoordinator.HandleRequestVote | src/cluster/network.rs:462-502 | Grants at most one candidate per term and answers with its own term. |
| Cluster.ClusterCoordinator.HandleVoteResponse | src/cluster/network.rs:220-235 | Counts a grant, and steps down on a refusal from a later term. |
| Cluster.ClusterCoordinator.HandleLeaderHeartbeat | src/cluster/network.rs:504-515 | Follows a leader of its term or later; the vote stays. |
| Cluster.ClusterCoordinator.HandleReplicateResponse | src/cluster/manager.rs:350-359 | Counts a success of the current term; the vote that reaches the quorum resolves the round, once. |
| Election.StepKeepsInv | src/cluster/manager.rs:236-328 | Every handler step keeps the invariant that ties requests, grants, tallies and wins together. |
| Election.VotesAreFinal | src/cluster/network.rs:462-515 | In every run terms never decrease, and a node never grants a term to a second candidate. |
| Election.ElectionUniqueness | src/cluster/manager.rs:236-328 | In every run no two nodes win the same term. |
| Election.LateRepliesElectTwo | src/cluster/manager.rs:330-336 | For any two nodes of any cluster, a reachable state in which both have won term 2, once late pre-vote replies are counted. |
| Election.LateRepliesSafeIff | src/cluster/manager.rs:177-234 | With late pre-vote replies counted, no run of a cluster elects two winners of a term if and only if the cluster has one node: the condition of uniqueness is needed. |
| ElectionProgress.TalliesAreExact | src/cluster/manager.rs:324-328 | In every run, the tally of an election that is kept is one plus the distinct voters counted: no granted vote is lost. |
| ElectionProgress.PollWinsIff | src/cluster/manager.rs:264-316 | A look at the tally wins exactly when the candidate is still in the term and it and the voters counted are a quorum; then it is its own leader. |
| ElectionProgress.PollEnds | src/cluster/manager.rs:264-316 | A candidacy goes on exactly while it is in its term without a quorum, and its tally is dropped when it ends. |
| ElectionProgress.QuorumElects | src/cluster/manager.rs:236-328 | In any cluster, any node and any voters that make it a quorum: a run without late replies in which exactly these are counted and the node wins. |
| ElectionProgress.PreVoteCounts | src/cluster/manager.rs:170-191 | A pre-vote counts the node itself and each granted reply, for the next term. |
| ElectionProgress.PreVotePassesIff | src/cluster/manager.rs:197-226 | After any number of granted replies a pre-vote passes exactly when they and the node are more than half of the cluster, fails exactly when time is up first, and leaves the node otherwise as it was. |
| ElectionProgress.GrantsIff | src/cluster/network.rs:462-502 | A vote is granted exactly in a later term, or in the own term when there was none or the same one; it raises the term and is remembered. |
| ElectionProgress.PreVoteForetellsVote | src/cluster/network.rs:421-455 | A pre-vote is granted exactly when the vote would be. |
| ElectionProgress.LaterRefusalStepsDown | src/cluster/network.rs:220-235 | A refusal from a later term moves the candidate to that term, where its vote is free. |
| ElectionProgress.HeartbeatIsFollowed | src/cluster/network.rs:504-515 | After a heartbeat the term is the later of the two, the sender is followed unless its term was older, and the vote is as it was. |
| Replication.HandleReplicatePublish | src/cluster/network.rs:699-743 | A follower refuses older terms; otherwise it logs and pushes the message into a queue it has, and answers success exactly then. |
| Replication.StepKeepsInv | src/cluster/manager.rs:350-399 | Every step keeps the invariant: a request, its response and its counted vote are one token. |
| Replication.PushesWereMade | src/cluster/network.rs:699-735 | Every push in the history of a run was made at some step of it: the message went into that follower's queue, at the back of its level, and nothing else changed. |
| Replication.ConfirmedIsHeldByMajority | src/cluster/manager.rs:365-399 | A publish is confirmed at most once, and only after quorum - 1 distinct followers pushed that message into that queue. |
| Replication.EveryMajorityHasAHolder | src/cluster/manager.rs:149-156 | Every majority of the nodes contains one that has the confirmed message. |
| ReplicationProgress.ConfirmedIffQuorumCounted | src/cluster/manager.rs:350-399 | In every run, while a round is open its tally is one plus the distinct followers counted, and it is confirmed, and no longer pending, if and only if these are a quorum. |
| ReplicationProgress.QuorumthSuccessConfirms | src/cluster/manager.rs:350-359 | A success in the term of the origin counts one more follower, and the one that completes the quorum confirms at that step. |
| ReplicationProgress.QuorumConfirms | src/cluster/manager.rs:350-399 | In any cluster of more than one node, any followers that make the origin a quorum: a run in which exactly these are counted and the publish is confirmed. |
| ReplicationProgress.FollowerAnswers | src/cluster/network.rs:699-743 | Field by field: when a follower accepts, where the message goes and what it carries, when term and leader are adopted, and the answer. |
| ReplicationProgress.PublishAsksAll | src/cluster/manager.rs:365-399 | A publish sends one request to every other node and opens the round with a tally of one. |
| ReplicationProgress.LateAnswersAreIgnored | src/cluster/manager.rs:350-359 | A failure, an answer of another term or one for a round that is over changes nothing. |
| Streams.StreamStore.Append | src/storage/stream.rs:134-154 | Returns the count of earlier appends; the store after rolling and appending is the specified one. |
| Streams.AppendExtends | src/storage/stream.rs:134-154 | An append adds one message behind what is held and moves no other, whatever rolled. |
| Streams.StreamStore.Read | src/storage/stream.rs:157-165 | The scan from the newest segment finds the message held at an offset, or nothing. |
| Streams.StreamStore.ReadRange | src/storage/stream.rs:168-188 | The nested loops return the consecutive run from the offset, or from the first one held, up to the limit (at least one). |
| Streams.StreamStore.Retain | src/storage/stream.rs:205-232 | The two eviction loops compute the specified segments. |
| Streams.RetentionKeepsNewest | src/storage/stream.rs:205-232 | Retention keeps a contiguous suffix of at least one segment, within the age and byte limits unless it is one segment, and drops a segment only when a limit asks for it. |
| Streams.StoreIsHistoryWithLowWaterMark | src/storage/stream.rs:120-232 | Over any run of appends and retention passes, a read finds the o-th message ever appended exactly when o lies between the first and the next offset. |
| StreamPacking.AppendRollsIff | src/storage/stream.rs:134-154 | An append opens a segment exactly when the last one has reached the limit, replacing it when it is empty; no earlier segment changes. |
| StreamPacking.SegmentsFill | src/storage/stream.rs:134-154 | Over any run, only segments that reached the limit are closed, and each was below it before its last message. |
| StreamPacking.RangeIsRun | src/storage/stream.rs:168-188 | A range is consecutive held messages from the offset or the oldest held, as many as wanted (at least one) or as there are. |
| Streams.StreamStore.TotalBytesHeld | src/storage/stream.rs:235-237 | The sum of the segment sizes is the bytes of the messages held. |
| PriorityQueues.PriorityQueue.PushBack | src/queue/priority.rs:49-55 | Puts the message behind every message of its own or a higher priority. |
| PriorityQueues.PriorityQueue.PushFront | src/queue/priority.rs:58-64 | Puts the message in front of every message of its own or a lower priority. |
| PriorityQueues.PriorityQueue.PopFront | src/queue/priority.rs:67-78 | Takes the first message of the sequence the buckets stand for; no empty bucket stays. |
| PriorityQueues.PriorityQueue.PopOldest | src/queue/priority.rs:81-94 | Takes the first message of the lowest priority present. |
| PriorityQueues.PushIsStable | src/queue/priority.rs:49-64 | Pushing at either end keeps the priority order and touches only the message's own level, at that end. |
| PriorityQueues.LevelsDetermine | src/queue/priority.rs:27-31 | A sequence in priority order is determined by what each level holds. |
| PriorityQueues.PushBackAllSortsStably | src/queue/priority.rs:49-55 | Pushing anything gives its stable sort by descending priority. |
| PriorityQueues.RebuildIsIdentity | src/cluster/network.rs:767-779 | Draining a queue and pushing everything back rebuilds it. |
| PriorityQueues.RemoveById | src/cluster/network.rs:767-779 | The drain and rebuild loops remove exactly the messages with the id, keep the order of the rest, and report whether there were any. |
| DelayQueues.DelayQueue.Schedule | src/queue/delay.rs:63-74 | Holds the message under its due time and a fresh id. |
| DelayQueues.DelayQueue.DrainReady | src/queue/delay.rs:76-88 | Splits the held messages at the current instant. |
| DelayQueues.NothingLostNothingEarly | src/queue/delay.rs:63-88 | In every run, whatever the clock does: released and held together are what was scheduled, each once, and nothing is released before it is due. |
| DelayQueues.DrainReleasesEverythingDue | src/queue/delay.rs:76-88 | A drain releases exactly what is due; the one exception is named. |
| DelayQueues.ReleasedInOrder | src/queue/delay.rs:63-88 | Under a clock that never goes back, all drains together release in strictly increasing order of due time and id. |
| TokenBuckets.TokenBucket.TryConsume | src/queue/state.rs:55-63 | Refills and takes a token if there is one; tokens stay between 0 and the rate. |
| TokenBuckets.WindowBound | src/queue/state.rs:48-63 | In any run, the calls in a window of length T are granted at most rate + rate * T times. |
| TokenBuckets.FullBucketGrantsBurst | src/queue/state.rs:40-63 | The bound is met: a full bucket grants exactly `rate` calls at one instant and refuses the next. |
| TokenBuckets.PauseEarnsGrant | src/queue/state.rs:48-63 | After a pause worth one token, the next call is granted. |
| TokenBuckets.ConsumesOneIff | src/queue/state.rs:48-63 | A call is granted exactly when what was left and what time brought, up to a full bucket, is a whole token, and takes one. |
| Delivery.NextReadyConsumer | src/protocol/amqp/delivery.rs:146-161 | The scanning loop computes the specified choice and pointer. |
| Delivery.SelectIsCompleteAndFirst | src/protocol/amqp/delivery.rs:146-161 | The scan finds no one exactly when no consumer has capacity; whom it finds is the nearest in cyclic order. |
| Delivery.TurnComesNearer | src/protocol/amqp/delivery.rs:146-161 | A selection that passes over a consumer with capacity strictly shortens its cyclic distance. |
| Delivery.RoundRobinIsFair | src/protocol/amqp/delivery.rs:146-161 | A consumer that always has capacity is chosen within any n consecutive selections, whatever happens to the channels in between. |
| Delivery.PassIsFair | src/protocol/amqp/delivery.rs:71-161 | Of any n consecutive messages that one pass over a readable queue sends to n consumers, a consumer with room at each of those turns receives one. |
| Delivery.UnreadableSkewsTurns | src/protocol/amqp/delivery.rs:94-100 | When unreadable messages fall on the turns of one of two consumers, a pass sends everything to the other, although both have room throughout. |
| Delivery.StopsOnlyWhen | src/protocol/amqp/delivery.rs:79-141 | A pass ends only on an empty queue, with every consumer's channel known and stopped or at its nonzero limit, on a refusing sink, or at its hundredth delivery. |
| Delivery.PassConserves | src/protocol/amqp/delivery.rs:71-142 | Each id that was ready or inflight is afterwards in exactly one of ready, inflight, sent without acknowledgement, or dropped as unreadable. |
| Delivery.PassTakesFront | src/protocol/amqp/delivery.rs:71-142 | Messages leave from the front, in order, with their payloads; nothing behind the last one taken changes, and the records change by exactly what was sent. |
| Delivery.PrefetchIsSafe | src/protocol/amqp/session.rs:49-54 | A known channel's unacknowledged count grows by exactly what was sent there for acknowledgement and never passes a prefetch limit it respected; a stopped channel gets nothing. |
| Delivery.PassKeepsRecorded | src/protocol/amqp/delivery.rs:106-125 | Every inflight message of the queue leads back to it in the delivery index and is on some connection's records. |
| Passes.PassOutcome | src/protocol/amqp/delivery.rs:71-142 | Field by field: a pass leaves other queues and everything about connections alone, counts as many deliveries as it sent, and puts what awaits acknowledgement inflight, into the index and, in the order of sending, on the records of its connection. |
| Passes.SentWereTaken | src/protocol/amqp/delivery.rs:102-137 | Everything sent went to an open connection whose sink took it, and a refusal means that a consumer with room had no open connection or a sink that did not. |
| Passes.NextTurnIsBehind | src/protocol/amqp/delivery.rs:146-161 | The next scan starts right behind the consumer served. |
| Brokers.BrokerState.DeliverQueue | src/protocol/amqp/delivery.rs:71-142 | The delivery loop over the broker's maps computes the specified pass and changes nothing else. |
| Brokers.BrokerState.RemoveConnection | src/state/broker.rs:262-322 | The loops over queues and records compute the specified removal. |
| Brokers.RemovalReturnsUnacknowledged | src/state/broker.rs:262-322 | Exactly the queues survive that the connection neither declared exclusive nor owns and that are not auto-delete queues without other listeners; in each, its unacknowledged messages are ready again, ready plus inflight is unchanged, its listeners and consumer tags are gone, and every other field stays. |
| Disconnects.RemovalRequeuesInFront | src/state/broker.rs:273-284 | What comes back is in front of the ready messages of its level, the last delivered first. |
| Disconnects.RemovalKeepsChannels | src/state/broker.rs:263-264 | The connection and its channels are gone, and every channel of another connection is as it was. |
| Disconnects.RemovalKeepsRecords | src/state/broker.rs:266-273 | What the others declared exclusive and have to acknowledge stays. |
| Disconnects.RemovalKeepsIndex | src/state/broker.rs:273-284 | A delivery tag leaves the index exactly when the connection has a record of it. |
| Disconnects.RemovalKeepsConsumers | src/state/broker.rs:286-307 | A consumer tag leaves the index exactly when a queue that the connection did not declare exclusive lists it as the connection's. |
| Disconnects.OthersKeepTheirRoom | src/protocol/amqp/delivery.rs:164-169 | A disconnect changes no other connection's room. |
| Disconnects.RunRespectsPrefetch | src/protocol/amqp/session.rs:49-54 | Over any run of passes on any queues and disconnects of other connections, a channel stays open, its counter follows exactly what was sent on it for acknowledgement, and it is not taken over its limit or used while stopped. |
| Brokers.ListIsFreeIff | src/state/broker.rs:286-307 | A surviving queue's list of consumers to deliver to is free of the removed connection if and only if it was before. |
| Brokers.ClosedConsumerLooksReady | src/protocol/amqp/delivery.rs:164-169 | After the removal such a consumer counts as having room, and its connection is closed. |
| Brokers.ClosedConsumerStopsPass | src/protocol/amqp/delivery.rs:102-108 | A pass that turns to it with a readable head ends there: nothing more is sent and the head goes back. |
| Brokers.DisconnectBlocksOthers | src/protocol/amqp/delivery.rs:71-142 | A broker where, after one connection is removed, a pass sends nothing although the other connection's consumer has room. |
| Brokers.RemovalKeepsAnswerable | src/state/broker.rs:273-284 | What stays inflight after a removal is on the records of another connection. |
| Brokers.PassKeepsBrokerOk | src/protocol/amqp/delivery.rs:71-142 | Passes keep every queue in priority order, inflight messages under their own ids and on someone's records. |
| Brokers.DisconnectUndoesDelivery | src/protocol/amqp/delivery.rs:106-125 | What a pass sent to a connection for acknowledgement is on its records, and is ready again once the connection is removed. |
| Brokers.RunConserves | src/state/broker.rs:262-322 | Over any run of passes on any queues and disconnects, a queue that still exists holds, together with what left it for good, exactly the ids it began with. |
| Brokers.RemovalKeepsBrokerOk | src/state/broker.rs:262-322 | So do removals. |
| FieldTables.TableRoundTripIff | src/protocol/amqp/types.rs:108-146 | An encoded table, nested to any depth and followed by any bytes, decodes to itself and leaves those bytes if and only if its data fits the 32-bit length. |
| FieldTables.HugeTableIsLost | src/protocol/amqp/types.rs:197-204 | A table with one string of 2^32 bytes is written and read back with an empty string, its bytes left behind the table. |
| FieldTables.ValueRoundTrip | src/protocol/amqp/types.rs:122-146 | Every kind of value, signed integers included, decodes to itself in front of any bytes. |
| FieldTables.EncodeFieldsFailsIff | src/protocol/amqp/types.rs:174-206 | Encoding fails exactly on a name or short string over 255 bytes, however deep it lies. |
| FieldTables.InsertLast | src/protocol/amqp/types.rs:111-116 | Decoding fields in name order appends them: insertion never reorders or overwrites. |
| FieldTables.InsertReplaces | src/protocol/amqp/types.rs:111-116 | Whatever the order of the fields, and with names repeated: the last field of a name is the one kept, others stay, and names stay in order. |
| FieldTables.ReadFieldTable | src/protocol/amqp/types.rs:108-118 | The cursor loop, calling itself for nested tables, computes the specified table or error and ends because nested data is shorter. |
| FieldTables.ReadFieldValue | src/protocol/amqp/types.rs:122-146 | Dispatches on the tag; an unknown tag is an error. |
| FieldTables.WriteFieldTable | src/protocol/amqp/types.rs:197-204 | The writer loop appends exactly the encoding, or nothing when a short string is too long. |
| FieldTables.WriteFieldValue | src/protocol/amqp/types.rs:208-272 | Appends tag and payload; a refused value leaves only its tag behind. |
| WireLayout.ValueStartsWithType | src/protocol/amqp/types.rs:208-272 | Each of the sixteen kinds of value starts with its own octet. |
| WireLayout.LongIntLayout | src/protocol/amqp/types.rs:208-272 | A signed integer follows its type octet in big-endian two's complement. |
| WireLayout.LongLayouts | src/protocol/amqp/types.rs:197-204 | Long strings and tables carry their length in four big-endian octets. |
| WireLayout.FieldsLayout | src/protocol/amqp/types.rs:197-204 | A field is the length of its name, the name and the value, and fields follow one another. |
| WireLayout.BooleanRead | src/protocol/amqp/types.rs:122-146 | Any octet but 0 is read as true. |
| WireLayout.UnknownType | src/protocol/amqp/types.rs:122-146 | An octet that announces none of the sixteen types is an error that names it. |
| WireLayout.NotUtf8 | src/protocol/amqp/types.rs:122-146 | A short string that is not UTF-8 is an error. |
| Properties.FlagSetIffPresent | src/protocol/amqp/properties.rs:48-93 | Bit 15 - k of the bitmap is set exactly when the k-th property is present; the two lowest bits never are. |
| Properties.FlagsInWireOrder | src/protocol/amqp/properties.rs:48-93 | The fourteen properties occupy bits 15 down to 2 in the order of the AMQP standard. |
| WireLayout.BitmapLayout | src/protocol/amqp/properties.rs:48-93 | The first two octets are the sum of the fourteen standard bits, 0x8000 down to 4, of the properties present. |
| WireLayout.ValuesLayout | src/protocol/amqp/properties.rs:95-141 | Behind the bitmap come the values of the properties present, in the standard's order, each in its encoding. |
| WireLayout.PropertiesReadAsAnnounced | src/protocol/amqp/properties.rs:143-190 | Whatever the bitmap, the properties read are exactly those that its upper fourteen bits announce. |
| Properties.FlagWord | src/protocol/amqp/properties.rs:48-93 | The fourteen bit-setting steps compute that bitmap. |
| Properties.PropertiesRoundTripIff | src/protocol/amqp/properties.rs:95-190 | For every subset of the fourteen properties, encoding and decoding in front of any bytes is the identity if and only if the header table fits its length. |
| Properties.HugeHeadersAreLost | src/protocol/amqp/properties.rs:95-190 | Headers with a string of 2^32 bytes are written and not read back. |
| Properties.EncodeSlotsFailsIff | src/protocol/amqp/properties.rs:95-141 | Encoding fails exactly on a text over 255 bytes, or a header table that fails. |
| Properties.EncodeTo | src/protocol/amqp/properties.rs:95-141 | The field-by-field writer appends exactly the encoding. |
| Properties.DecodeFrom | src/protocol/amqp/properties.rs:143-190 | The flag-by-flag reader computes the specified properties or error. |
| Framing.FrameRoundTripIff | src/protocol/amqp/codec.rs:145-181 | A frame followed by any bytes is read back, with the bytes consumed, if and only if its payload fits 32 bits. |
| WireLayout.FrameLayout | src/protocol/amqp/codec.rs:20-39 | Type, big-endian channel, big-endian size, payload, and the octet 0xCE. |
| WireLayout.FrameOrError | src/protocol/amqp/codec.rs:145-181 | Exactly when bytes hold a frame and which one, and otherwise which of the three errors. |
| Framing.HugeFrameIsRefused | src/protocol/amqp/codec.rs:145-181 | A frame with a payload of 2^32 zero bytes is refused: its size field is 0. |
| Framing.DecodeAllOfWire | src/protocol/amqp/codec.rs:145-181 | A stream of frames decodes to those frames. |
| Framing.HeaderRoundTrip | src/protocol/amqp/codec.rs:201-228 | A content header decodes to its class, body size and properties. |
| WireLayout.ContentHeaderLayout | src/protocol/amqp/codec.rs:96-117 | Class, two zero octets, the body size in eight octets, the properties. |
| WireLayout.ContentFrameTypes | src/protocol/amqp/codec.rs:33-37 | A publish is one frame of type 2 and then frames of type 3, all on its channel. |
| Framing.EncodeContentHeader | src/protocol/amqp/codec.rs:96-117 | The backpatched buffer is the frame of the header payload. |
| Framing.ChunksJoin | src/protocol/amqp/codec.rs:230-244 | The body's pieces are nonempty, join to the body, and all but the last are exactly as long as the limit. |
| Framing.BodyFramesFit | src/protocol/amqp/codec.rs:230-244 | Every body frame, end octet included, fits the negotiated frame limit, and all but the last fill it. |
| Framing.ContentReceiver.HandleContentHeaderFrame | src/protocol/amqp/connection_loop.rs:302-335 | Takes over size and properties; a bad header abandons the publish, an empty body publishes at once. |
| Framing.ContentReceiver.HandleContentBodyFrame | src/protocol/amqp/connection_loop.rs:339-354 | Adds to the body and publishes when it is complete. |
| Framing.ContentArrivesOnce | src/protocol/amqp/connection_loop.rs:302-376 | For any body and any frame limit above eight, or any body that one frame can hold: what the sender writes, decoded and received, publishes exactly once, at the last frame, with the same body and properties. |
| Framing.PublishedWhenFull | src/protocol/amqp/connection_loop.rs:339-354 | Whatever pieces arrive, the first one that reaches the declared size publishes everything received, even what exceeds it; before that it is held. |
| Framing.BadHeaderAbandons | src/protocol/amqp/connection_loop.rs:302-335 | After a header that cannot be read, no further content completes that publish. |
| Multiplexing.AtMostOneEach | src/protocol/amqp/connection_loop.rs:273-376 | Whatever frames arrive on whatever channels, there are at most as many publishes as publish methods. |
| Multiplexing.NoneLostIffSerial | src/protocol/amqp/connection_loop.rs:273-376 | Complete messages over several channels, interleaved by any schedule: there are as many publishes as messages if and only if no publish method or content frame of another channel comes between a message's publish method and its last frame; then each arrives whole, in order. Frames of other kinds can come anywhere. |
| Multiplexing.TurnsMixTwoMessages | src/protocol/amqp/connection_loop.rs:114-114 | Two channels taking turns: of two messages without a body one is published, to the exchange of the second with the properties of the first. |
| Exchanges.SplitIsWords | src/routing/exchange.rs:219-220 | Splitting at dots yields words without dots that join to the string. |
| Exchanges.MatchesInParts | src/routing/exchange.rs:208-261 | A pattern in two parts matches exactly the keys that can be cut to match part by part. |
| Exchanges.WordsMatchThemselves | src/routing/exchange.rs:209-211 | The equal-strings fast path agrees with the wildcard relation. |
| Exchanges.TopicMatches | src/routing/exchange.rs:208-261 | The two-row table and its fast paths compute the recursive wildcard relation for all patterns and keys. |
| Routing.MatchesIffCut | src/routing/exchange.rs:208-261 | The relation holds exactly when the key's words can be cut into one part per word of the pattern: any words for `#`, one for `*`, the word itself for any other. |
| Routing.DotSeparates | src/routing/exchange.rs:219-220 | Splitting is cutting at every dot. |
| Exchanges.RemoveBindingKeepsOthers | src/routing/exchange.rs:123-127 | Removing takes away exactly the bindings of that queue and key and keeps the others distinct. |
| Exchanges.RemoveUndoesAdd | src/routing/exchange.rs:112-127 | Adding keeps bindings distinct, and removing a binding that was new undoes adding it. |
| Exchanges.RoutedIffSelected | src/routing/exchange.rs:131-196 | A message is routed to a queue exactly when some binding of that queue selects it. |
| Routing.DirectAndFanout | src/routing/exchange.rs:144-163 | A direct exchange takes the bindings with the message's key, a fanout exchange all. |
| Routing.TopicRoutes | src/routing/exchange.rs:166-175 | A topic exchange takes the bindings whose patterns the key can be cut into. |
| Routing.HeadersRoutes | src/routing/exchange.rs:178-197 | A headers exchange takes a binding when all, or any, of its required headers are there with equal values, and none without header arguments. |
| Routing.RoutedJoin | src/routing/exchange.rs:131-196 | Queues are visited in the order of binding, once for each binding that takes the message. |
| Routing.AddsIffNew | src/routing/exchange.rs:112-121 | A binding is added at the end exactly when none of the same queue and key is there. |
| Exchanges.Exchange.RouteEach | src/routing/exchange.rs:131-196 | The visiting loop visits the selected bindings in order, for each kind of exchange. |

## Left out

- Election.ElectionUniqueness: assumes fixed membership, nonzero node ids, atomic handlers, each frame delivered at most once, and no pre-vote reply counted after its node has run for that term. It speaks of elections won, not of `is_leader()`, because every node starts as its own leader and `leader_id` outlives a term.
- Replication.ConfirmedIsHeldByMajority: assumes fixed peers, message ids not reused by their origin, and no replicated acknowledgement round under the same id, which would share the tally.
- RaftGroup.LogMatching: "at most one leader per term" is a guard of the steps, since a queue group's role is set from outside; leader completeness and state-machine safety are not claimed, because followers commit by the leader's word and failover promotes without votes.
- Metadata.AppliedOnceInOrder: assumes that frames are contiguous and agree with the log up to the commit index; the handler does not check it.
- Framing.ContentReceiver.HandleContentHeaderFrame: the source reserves memory for the body size that the header declares, and a huge declared size panics or aborts there; the contract says only that the content stays under way.
- Framing.ContentArrivesOnce: the header's payload, and with a frame limit of eight or less the whole body, has to fit the 32-bit frame size; FrameRoundTripIff says what happens to a frame that does not.
- Multiplexing.NoneLostIffSerial: about complete messages, whose header decodes and whose body pieces are not empty and join to the announced size; AtMostOneEach holds of any frames.
- Recovery.RecoveryRebuildsMeaning: records whose fields pass their length prefixes or are not UTF-8 are excluded here; CompactionInvisibleIff covers arbitrary, also malformed, entries.
- Compaction.Compact: one compaction is one atomic step; entries appended between its read and its truncation, and references into the old segments, are not covered.
- Delivery.PassConserves: channel counters follow the release build's wrap-around at 2^16; the frames' bytes are those of Framing, and only whether a sink takes them is modelled here.
- Brokers.BrokerState.DeliverQueue: queue states are values in a map and their messages the sequence that PriorityQueues refines; statistics other than deliveries, activity times and consumer groups are left out.
- Streams.StreamStore.Append: segments are values in key order, not references into a tree; offset overflow at 2^64 is not modelled. Named offsets ("first", "last", "next") only compute.
- DelayQueues.DelayQueue.Schedule: the id counter's wrap-around at 2^64 is not modelled.
- TokenBuckets.TokenBucket.Refill: arithmetic is over reals, without floating-point rounding.
- FieldTables.ReadFieldValue: floating-point numbers are bit patterns; the recursion depth a real stack allows is not modelled.
- Terms, indexes, offsets and counters of 64 bits are unbounded, except where a width decides a branch.
- Locks, atomics, tasks, sockets, TLS and timers: each handler is one atomic step.
- File operations, flushing and operating-system errors; the checksum's arithmetic; UTF-8; schema compilation.
- Raft entries and votes in the write-ahead log: they are written, but nothing reads them back.
- Dispatch of one AppendEntries frame to every queue group, leader commit by peer count, next and match indexes: placeholders in the source.
- Deliver rounds over all queues, `next_target`, time-to-live and deduplication tasks: loops over what is proved per queue, or easy members.
- Handlers of the AMQP basic, queue, exchange and tx classes; management interface, configuration, authentication, virtual hosts, discovery and metrics.
