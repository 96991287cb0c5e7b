# mqtr in Dafny

A model of the parts of mqtr, an MQTT 5.0 broker library, whose correctness does not show from reading
one function, and proofs about them. Six parts are covered.

- **Topic trie.** The tree of subscriptions is an index: after every run of subscribing and
  unsubscribing it stores exactly a table from filter to subscriptions, in a shape that depends on that
  table alone, and a match returns exactly what a scan of the whole table would.
  (`Topic`, `Order`, `Trie`, `TrieMatch`, `Subscriptions`, `SubscribedTrie`.)
- **Spinlock.** One step for each atomic operation, any number of threads. The account of readers in
  the 32-bit word stays exact, a writer is alone, the four panics are out of reach, the whole refines
  a door with readers and writers, and a caller left to itself comes through it exactly when it may.
  (`Spinlock`.)
- **Packet codec.** Encoding and decoding of SUBSCRIBE, UNSUBSCRIBE, SUBACK, the PUBACK family and
  DISCONNECT down to the bytes. `Grammar` says, without reading or writing anything, which byte strings
  spell which packet; decoding accepts exactly those. Beside that: what decoding makes of every encoded
  packet, what encoding makes of every decoded one, when a packet takes up what its header says, and on
  which bytes decoding panics. (`Varint`, `Fields`, `Codecs`, `Properties`, `PropertySets`, `Wires`,
  `PropertyBlocks`, `Frames`, `Packets`, `WireFormat`, `Grammar`, `Parsing`, `Spellings`.)
- **Routing between shards.** All shards, back-logs and queues as one transition system with a step for
  every send and every receive: nothing is lost, duplicated or reordered, sequence numbers increase,
  acknowledgements carry the largest number received, and a shard panics on one exactly when stated. Beside it
  the code of one shard, with its loops, which are shown to be steps of that system, whatever the other
  threads do meanwhile. (`Messages`, `Routing`, `AckRun`, `Queues`, `Fanout`, `Shards`, `ShardSteps`.)
- **Timer and retained messages.** The differential list with its nodes and links, and the three
  structures that share a `deleted` flag: over any run of requests what is retained is the latest message
  of its topic, no message outlives an expiry after its deadline, and one goes before it exactly when stated.
  (`TimerSpec`, `DiffTimer`, `RetainedTrie`, `RetainStore`, `Retention`.)
- **Resumable writer.** What is on the wire after any pattern of partial writes. (`Writer`.)

Code that changes things in place is modelled by classes and loops, each proved against a function on
values; the laws are then proved of those functions. Codecs are values (`Codec`, and the record `Wire` of
all of them), and the lemmas about blocks, frames and packets hold for any codecs that read back what they
write; `WireFormat` shows that the codecs of MQTT 5.0 are such, and states what follows for its packets.

`dafny verify dfyconfig.toml` covers the whole project.

## What the proofs show about the code

Where a property one would expect does not hold, a lemma shows it and gives the exact condition.

- `#` stands for one or more levels, so it leaves out the parent level that section 4.7.1.2 of MQTT 5.0
  includes, and `match_topic_name` passes over every filter that begins with a wildcard, for all topics
  (`BrokerAgainstStandard`, `MatchExamples`).
- `Subscription` is equal by all its options but ordered by client and filter: subscribing again with
  other options changes nothing (`AddedIsInsertion`, `ResubscriptionSticks`). A client that subscribes again
  with another `no_local` can then not leave with what it holds, if it is the only one (`LingeringRun`): a sole
  subscription goes exactly if all seven fields but the shard agree, and one of several if client and filter
  do (`RemovedIff`, `UnsubRemoves`).
- Unsubscribing from, or resetting, a path that only leads to longer ones panics, and nothing else does
  (`UnsubRefines`, `RemoveRefines`; `UnsubExample`, `RemoveExample`).
- The reader count holds 0x3FFFFFFF; the next reader sets the latch bit (`StepInv`, `OneReaderTooMany`).
- `encode` accepts packets that `decode` refuses or changes: a SUBSCRIBE with the subscription identifier
  zero, UNSUBSCRIBE and SUBACK with nothing listed, and acknowledgements with a reason code foreign to
  their type are refused; an acknowledgement filed under another type than its field names comes back
  under that one; nothing else (`MqttRoundTrip`, `EmptyUnSubscribe`).
- `decode` panics, on a slice out of range, exactly if the header of a SUBSCRIBE, UNSUBSCRIBE or SUBACK
  gives less than its identifier and properties take (`MqttPanicsIff`, `PanicExample`). That needs bytes
  behind the packet: a string that its header spans does not panic (`MqttFramedIsCalm`).
- `decode` does not hold an acknowledgement or a DISCONNECT to the length in its header. What it takes in is
  what the header says exactly if the header spans the fields, which can be read off the header and the length
  of the properties (`SpansIff`); a PUBACK that gives its length as five and takes four shows it
  (`ShortReadExample`), and a good packet behind such a one is misread (`MisreadStream`). What was taken in
  encodes again exactly if its body is at most 268435455 bytes long (`MqttReencodes`).
- `FixedHeader::validate` accepts the first bytes that section 2.1.3 of MQTT 5.0 prescribes and three
  more, those of PUBREL, SUBSCRIBE and UNSUBSCRIBE with their flags zero (`ValidByteIff`), and decoding
  takes these for the same packets (`MqttFlags`).
- A PUBACK or PUBREC may have the code 146, which sections 3.4.2.1 and 3.5.2.1 of MQTT 5.0 do not list; the
  codes of PUBREL and PUBCOMP are those of the standard (`AckAllowsIff`, `CodeAcks`).
- After 2^64 - 1 packets the sequence numbers of a shard repeat (`SeqnosSaturate`).
- `Message::LocalAck` is documented to carry the shard that sends it; the code puts the shard it is for
  (`ReceivedAckNamesReceiver`). So no acknowledgement is ever booked with the shard it came from
  (`RunUnacked`), and a shard panics on one exactly if it has not yet routed an at-least-once packet to itself
  (`RunEntries`, `HandlePanicsIff`, `AcksBookOwnEntry`); one packet to another shard and its acknowledgement
  are enough (`AckPanics`).
- A routed packet names the client that published, not the one it is for. The shard that receives it files it
  under the client named, so under the one it is for exactly if the two are the same (`FiledUnderPublisher`).
- A value can be handed out before its deadline, for three reasons. `Timer::expired` compares each distance
  with the whole time passed and does not subtract it, so an entry is popped exactly if no single distance up
  to it exceeds that time (`PoppedIff`; `EarlyExample`, `EarlyRun`). It then moves the instant on by that time
  but drops the distances popped, so every entry that stays is brought forward by their sum (`LeftIsEarlier`;
  in `DriftRun` each entry is popped at its offset, and the second is five seconds early). And `add_timeout`
  subtracts the time since the instant, from which offsets count, so an entry is ahead from the start exactly
  if the clock has moved since (`WaitIsEarly`). Over every run an entry's offset falls short of its deadline by
  exactly the sum of what it was brought forward, and it is handed out early exactly if it is popped while the
  clock is short of the two together (`HandedEarlyIff`).
- `stats.missing` of the tries is counted down from zero, so that of retained messages stays zero
  (`Retained.RemoveMessage`).
- `Timer::gc` panics exactly when some entry is live (`Timer.Gc`), that is, when a retained message has an
  expiry interval. So the cluster thread, as written, panics at the first expiry after such a message was
  retained, and never forgets one (`RetainExpires`, `Handle`; `GcExample`). The expiry behind `gc` is proved on
  its own (`Expire`, `Serve`).

## Model

| member | source | states |
|---|---|---|
| `Topic.JoinSplit` | src/types.rs:198-204 | splitting a topic at its slashes loses nothing |
| `Topic.SplitInjective` | src/types.rs:198-204 | different strings have different level lists |
| `Topic.SplitCounts` | src/types.rs:198-204 | there is a level more than there are bytes 0x2F, and none in any level |
| `Topic.ValidNameLevels` | src/types.rs:206-220 | a validated topic name has no wildcard level |
| `Topic.WalksClosedForm` | src/ttrie.rs:511-572 | the level-by-level walk selects exactly: same length and agreeing levels, or for a trailing `#` one or more levels beyond the agreeing ones |
| `Topic.BrokerAgainstStandard` | src/ttrie.rs:511-572 | where the broker's matching and section 4.7 of MQTT 5.0 part, as an if-and-only-if, for both values of the dollar flag |
| `Topic.MatchExamples` | src/ttrie.rs:511-572 | the filter `a/#` does not select the topic `a`, nor `+`, and the standard has both select it |
| `Topic.ValidatedMatch` | src/types.rs:313-337 | the same for every validated filter and topic name |
| `Order.LessIff` | src/ttrie.rs:368-400 | strings are ordered by the first octet in which they differ, a prefix before what goes on |
| `Trie.FoundIff` | src/ttrie.rs:368-400 | in sorted children the binary search finds a level exactly if some child bears it |
| `Trie.HasNodeIff` | src/ttrie.rs:280-287 | a path leads to a node exactly if it or a longer one is stored |
| `Trie.PutWellFormed` | src/ttrie.rs:368-437 | updating one path keeps children strictly sorted and leaves no empty node below the root |
| `Trie.PutLookup` | src/ttrie.rs:368-437 | updating one path changes what is stored there and nowhere else |
| `Trie.Canonical` | src/ttrie.rs:280-287 | two well-formed trees that store the same are the same tree |
| `Trie.PutBack` | src/ttrie.rs:403-437 | putting back what was stored restores the tree itself, pruned nodes included |
| `Trie.StoredPathsIff` | src/ttrie.rs:239-287 | the set of stored paths is the set of paths that lead to values |
| `TrieMatch.ForestEntriesSorted` | src/ttrie.rs:239-248 | the table read off a tree lists filters in strict order, so each once |
| `TrieMatch.ForestEntriesIff` | src/ttrie.rs:239-248 | that table lists what is stored, all of it and nothing else |
| `TrieMatch.MatchBelowIsScan` | src/ttrie.rs:511-560 | gathering along the tree is a flat scan of the table, values and order |
| `TrieMatch.MatchChild` | src/ttrie.rs:511-560 | one turn of the loop contributes what gathering from that child does |
| `TrieMatch.MatchTopic` | src/ttrie.rs:511-572 | `match_topic`, with its loop, returns exactly the flat scan of all stored filters, for both flag values |
| `TrieMatch.ScanCounts` | src/ttrie.rs:511-560 | the scan returns a value once for each selected filter that holds it |
| `TrieMatch.HitFiltersStored` | src/ttrie.rs:511-560 | those filters, in terms of what is stored |
| `Subscriptions.SubIsPut` | src/ttrie.rs:368-400 | `sub` is one update of the path, with its first and repeat flags |
| `Subscriptions.UnsubIsPut` | src/ttrie.rs:403-437 | `unsub` is one update of the path, or leaves the tree, or panics, each exactly when |
| `Subscriptions.InsertValueAdds` | src/ttrie.rs:291-309 | `insert_value` keeps values sorted, adds to the set, and its flags say what was there |
| `Subscriptions.RemoveValueDrops` | src/ttrie.rs:329-353 | `remove_value` keeps values sorted, drops from the set what has the client and filter given, a sole value only if all else but the shard agrees, and its flags say what happened |
| `Subscriptions.RemovedIff` | src/ttrie.rs:329-353 | a value leaves exactly if it is of the client and for the filter given and, as the sole value, agrees in identifier and all four options as well, whatever the shard |
| `Subscriptions.KeyOrder` | src/v5/mod.rs:171-184 | subscriptions are ordered by client, then filter, and equal to that order exactly if both are the same |
| `Subscriptions.AddedIsInsertion` | src/v5/mod.rs:156-184 | subscribing is set insertion exactly if no other options are held under the key |
| `Subscriptions.DroppedIsRemoval` | src/v5/mod.rs:156-184 | unsubscribing is set removal exactly if a value of the same client and filter, and as sole one with the same options, is the value given, shard included |
| `Subscriptions.ResubscriptionSticks` | src/v5/mod.rs:156-184 | subscribing again with other options changes nothing, and the sole subscriber cannot then leave with them |
| `SubscribedTrie.SubRefines` | src/ttrie.rs:77-98 | `sub` refines adding to the table, flags included |
| `SubscribedTrie.UnsubRefines` | src/ttrie.rs:100-124 | `unsub` refines removing from the table, flags included, and panics exactly at interior paths; what leaves the table is read off the fields |
| `SubscribedTrie.UnsubRemoves` | src/ttrie.rs:403-437 | over the whole tree: a stored subscription leaves exactly if it is stored at the path given and the fields agree so |
| `SubscribedTrie.UnsubExample` | src/ttrie.rs:403-437 | with a subscription to `a/b`, unsubscribing from `a` panics |
| `SubscribedTrie.LingeringRun` | src/v5/mod.rs:156-167 | subscribing, subscribing again with another `no_local` and unsubscribing leaves the first subscription |
| `SubscribedTrie.RunRefines` | src/ttrie.rs:77-124 | every run keeps the tree a sorted, pruned image of the table, and panics exactly when the table run does |
| `SubscribedTrie.CountIsExact` | src/ttrie.rs:77-124 | `stats.count` is the number of distinct stored filters after every run |
| `SubscribedTrie.RunsAreCanonical` | src/ttrie.rs:368-437 | two runs that end with the same table end with the same tree |
| `SubscribedTrie.UnsubUndoesSub` | src/ttrie.rs:368-437 | subscribing under a new key and unsubscribing restores the tree |
| `SubscribedTrie.MatchIsTableScan` | src/ttrie.rs:48-73 | after every run a match returns each subscription once for each filter of the table that selects the topic and holds it |
| `SubscribedTrie.Subscribed.constructor` | src/ttrie.rs:17-25 | an empty index for an empty table |
| `SubscribedTrie.Subscribed.Subscribe` | src/ttrie.rs:77-98 | the object's table gains the subscription and the count stays exact |
| `SubscribedTrie.Subscribed.Unsubscribe` | src/ttrie.rs:100-124 | the object's table loses what the table's removal drops, the count stays exact, and a panic comes exactly at interior paths |
| `SubscribedTrie.Subscribed.MatchTopicName` | src/ttrie.rs:48-73 | the multiset of matches is what the table says |
| `Spinlock.StepInv` | src/spinlock.rs:94-226 | a step of any thread keeps the account exact exactly if the readers still fit in 30 bits |
| `Spinlock.RunInv` | src/spinlock.rs:94-226 | so does every run in which they fit |
| `Spinlock.Safety` | src/spinlock.rs:94-226 | in every state of every run a write guard excludes all others, the low bits count the read guards, lock implies latch, and no thread has panicked |
| `Spinlock.ReadIsStable` | src/spinlock.rs:177-208 | the value does not change while a read guard lives |
| `Spinlock.LatchStopsReaders` | src/spinlock.rs:94-133 | while a thread holds the latch no step lets a reader in |
| `Spinlock.ReadersDrain` | src/spinlock.rs:113-157 | from latching on, readers only leave |
| `Spinlock.WriterEnters` | src/spinlock.rs:136-157 | once they are gone, the writer's next lock attempt succeeds |
| `Spinlock.OneReaderTooMany` | src/spinlock.rs:94-111 | with 0x3FFFFFFF readers the next one sets the latch bit |
| `Spinlock.Refines` | src/spinlock.rs:94-226 | safety: every atomic operation is a step of a door with readers and writers, or none; which it is, and when, is `ReadReturns` and those after it |
| `Spinlock.ReadReturns` | src/spinlock.rs:94-111 | from anywhere in `read`, three operations of its own give a caller a read guard exactly if nobody holds the latch, however many read, and take nothing from the others |
| `Spinlock.LatchReturns` | src/spinlock.rs:113-133 | from anywhere in the first loop of `write`, three operations give the latch exactly if it is free |
| `Spinlock.LockReturns` | src/spinlock.rs:136-157 | a latched caller is in the room after two operations exactly if no reader is left |
| `Spinlock.WriteReturns` | src/spinlock.rs:113-157 | `write` from its beginning: four operations give the write guard exactly if latch and room are free, and two give the latch if that is |
| `Spinlock.StoreWrites` | src/spinlock.rs:204-208 | what a writer stores is the value from then on, and nothing else changes |
| `Spinlock.DropReturns` | src/spinlock.rs:185-226 | dropping a guard takes one operation of a reader and two of a writer, and gives up that guard and the latch, and no other |
| `Spinlock.CallsReturn` | src/spinlock.rs:94-157 | what a whole call of `read` and of `write` comes to if no other caller takes a step meanwhile |
| `Spinlock.WritersAlone` | src/spinlock.rs:113-157 | behind that door a writer is alone |
| `Writer.Stream.Accept` | src/packet.rs:255-302 | a stream takes a prefix of what it is offered, or nothing |
| `Writer.WriteTo` | src/packet.rs:255-302 | one `write` on a stream: the connection is lost exactly on an error or a write of nothing, `would_block` is said exactly if the stream said so, a part taken moves `start` on by as much, and what was taken is what is on the wire |
| `Writer.WriteAnswers` | src/packet.rs:255-302 | for every answer of the stream: lost, blocked, finished, or `start` moved on by what was taken, each exactly when |
| `Writer.PiecesFinish` | src/packet.rs:255-302 | in whatever non-empty pieces the stream takes what is left, the packet is finished by the last |
| `Writer.LoadKept` | src/packet.rs:304-313 | loading the next packet keeps the account of the wire |
| `Writer.CallKept` | src/packet.rs:255-302 | so does every answer of the stream; which state follows is `WriteAnswers` |
| `Writer.WireIsExact` | src/packet.rs:246-313 | after every run the wire holds the earlier packets whole and once, then `data[..start]`; at `Fin` the packet is there whole, or not at all because it is too large |
| `Writer.LostIff` | src/packet.rs:246-313 | in every run the next call loses the connection exactly on an error or a write of nothing, for a packet that is not finished and not too large |
| `Writer.FinishedWhenAllTaken` | src/packet.rs:255-302 | a packet that fits is finished exactly by the answer that takes its last byte |
| `TimerSpec.InsertSchedules` | src/timer.rs:84-110 | insertion adds one entry at its offset, behind those due at the same time, and moves no other |
| `TimerSpec.ScheduleAt` | src/timer.rs:84-110 | offsets never decrease along the list |
| `TimerSpec.DueIsPopped` | src/timer.rs:47-82 | an entry whose offset has passed is popped |
| `TimerSpec.PoppedIff` | src/timer.rs:56-78 | an entry is popped exactly if every distance up to and including its own is at most the time passed |
| `TimerSpec.EarlyExample` | src/timer.rs:56-78 | of two entries five seconds apart both are popped after five seconds |
| `TimerSpec.EarlyRun` | src/timer.rs:47-110 | the same in a run: a value booked for ten seconds is handed out after five |
| `TimerSpec.DriftRun` | src/timer.rs:47-110 | two values booked at the instant, for 5 and 105 seconds, and expiries at 5 and 100: the second, popped at its offset, is handed out five seconds early |
| `TimerSpec.WaitIsEarly` | src/timer.rs:84-92 | offset and lead come together to the deadline, and the lead is none exactly if the clock stands at the timer's instant |
| `TimerSpec.WaitIs` | src/timer.rs:84-92 | the time to wait and the whole seconds since the instant add up to `secs`, or it is zero if they exceed that |
| `TimerSpec.BookedAhead` | src/timer.rs:84-110 | over every run, a booking is pending at an offset that falls short of its deadline by exactly the time since the instant and the whole seconds taken off |
| `TimerSpec.LeftIsEarlier` | src/timer.rs:47-82 | counted from the new instant, an entry that stays is due earlier than before by exactly the sum of the distances popped, so at the same time exactly if that is zero |
| `TimerSpec.ExpireHands` | src/timer.rs:47-82 | what is handed out is what was popped and not deleted, each once |
| `TimerSpec.ExpireKeeps` | src/timer.rs:47-82 | popped and kept entries are together all entries, and disjoint |
| `TimerSpec.RunInv` | src/timer.rs:47-110 | over every run of insertions, deletions, expiries and collections with a clock that does not go back, every value is pending, handed out or deleted, none twice, and each pending one is due before its deadline by exactly the sum of its lead and of the distances dropped before it |
| `TimerSpec.HandedOnce` | src/timer.rs:47-110 | over every run nothing is handed out twice |
| `TimerSpec.HandedInTime` | src/timer.rs:47-110 | by the first expiry at or after its deadline an undeleted value has been handed out |
| `TimerSpec.HandedEarlyIff` | src/timer.rs:47-110 | over every run, a pending value that is not deleted is handed out before its deadline exactly if no distance up to its own exceeds the time passed, and the clock is short of its offset and all that it was brought forward together |
| `TimerSpec.DeletedStaysIn` | src/timer.rs:47-110 | a value deleted before it is handed out never is |
| `DiffTimer.Timer.constructor` | src/timer.rs:37-44 | an empty list with an empty record |
| `DiffTimer.Timer.LinkNode` | src/timer.rs:171-177 | a node linked in behind another comes right after it, and the chain stays one from the head to null without a node twice |
| `DiffTimer.Timer.SpliceAfter` | src/timer.rs:141-178 | linking in an entry inserts into the list of values, and its successor gives up the difference |
| `DiffTimer.Timer.FindPlace` | src/timer.rs:92-104 | the walk ends at the node behind which the entry belongs, with the distance that is left |
| `DiffTimer.Timer.LinkIn` | src/timer.rs:92-110 | the walk over the nodes inserts at the offset given |
| `DiffTimer.Timer.AddTimeout` | src/timer.rs:84-110 | in whole seconds of clock readings: the entry goes to `secs` less the seconds since the instant, or to zero, behind those due then, and no other moves; the list stays what the record of all operations says |
| `DiffTimer.Timer.PopFirst` | src/timer.rs:163-169 | unlinking the first node drops the first value |
| `DiffTimer.Timer.PopCovered` | src/timer.rs:56-78 | the loop pops the leading entries whose own distance is covered and hands out the undeleted |
| `DiffTimer.Timer.ShiftFirst` | src/timer.rs:62-67 | the first remaining entry's distance shrinks |
| `DiffTimer.Timer.Expired` | src/timer.rs:47-82 | the instant, the list left and the values handed out, as functions of the list before; in every run that can be, nothing is handed out twice, all that is undeleted and whose deadline has come is, and of the rest exactly what is early |
| `DiffTimer.PopsDueMeans` | src/timer.rs:47-82 | in clock readings: the instant moves on to within a second of the clock, and an entry is handed out exactly if it is not deleted and no distance up to its own exceeds the time since the instant |
| `DiffTimer.Timer.Gc` | src/timer.rs:112-137 | it panics exactly if some entry is live, and otherwise leaves the timer empty |
| `RetainedTrie.SetIsPut` | src/ttrie.rs:440-472 | `set` is one update of the path |
| `RetainedTrie.RemoveIsPut` | src/ttrie.rs:475-509 | where a path leads to a node, `remove` is one update of the path if it holds a value and panics if not |
| `RetainedTrie.RemoveAbsent` | src/ttrie.rs:475-509 | elsewhere it leaves the tree and says that the value is missing |
| `RetainedTrie.SetRefines` | src/ttrie.rs:194-211 | `set` refines updating a table from topic to message |
| `RetainedTrie.RemoveRefines` | src/ttrie.rs:214-236 | `remove` refines deleting from it, and panics exactly at interior topics |
| `RetainedTrie.RemoveExample` | src/ttrie.rs:475-509 | with a message for `a/b`, removing that of `a` panics |
| `RetainedTrie.Retained.SetMessage` | src/ttrie.rs:194-211 | the object's table gains the message, and the count stays the number of messages |
| `RetainedTrie.Retained.RemoveMessage` | src/ttrie.rs:214-236 | the object's table loses the topic, the count stays exact, `missing` stays zero, and a panic comes exactly at interior topics |
| `Retention.Cluster.constructor` | src/cluster.rs:829-832 | nothing retained, with a timer and a trie of its own |
| `Retention.Cluster.SetRetainTopic` | src/cluster.rs:535-570 | trie, index and timer stay coherent; the old entry is deleted, a new one indexed, and booked for its deadline if the message expires; what is new in them is freshly made |
| `Retention.Cluster.ResetRetainTopic` | src/cluster.rs:572-591 | they stay coherent, the entry is deleted and gone, its deadline with it; a panic comes exactly at interior topics |
| `Retention.Cluster.ForgetOne` | src/cluster.rs:499-511 | for an entry handed out, neither the assert nor the `unreachable!` is hit |
| `Retention.Cluster.Forget` | src/cluster.rs:499-511 | nor for all of them in turn, and exactly their messages go |
| `Retention.Cluster.HandOut` | src/timer.rs:47-82 | the timer, the index and the deadlines stay coherent, and the deadlines of what is handed out are gone |
| `RetainStore.HandedExpirable` | src/timer.rs:47-82 | each entry the timer hands out is the object indexed under its topic, and comes once |
| `RetainStore.ExpiryOnTime` | src/cluster.rs:497-512 | where all that is due is handed out, no topic is left with a deadline that has come |
| `RetainStore.ExpiryEarlyIff` | src/cluster.rs:497-512 | a topic is handed out before its deadline exactly if its entry was brought forward enough |
| `RetainStore.LiveIffDue` | src/cluster.rs:487-497 | some entry is live exactly if some topic has a deadline |
| `Retention.Cluster.Expire` | src/cluster.rs:497-512 | an expiry panics nowhere, keeps the three structures coherent and drops exactly the messages whose entries are popped and not deleted; in a run that can be, none is left whose deadline has come, and of the others exactly those are gone whose entry was brought forward enough |
| `Retention.Cluster.RetainExpires` | src/cluster.rs:487-512 | as written, with `gc` in front, it panics exactly if some retained message has an expiry interval, and forgets none |
| `Retention.Serve` | src/cluster.rs:497-591 | with `gc` left out, from the start and over any sets, resets and expiries, up to a reset at an interior topic: the three structures stay coherent, what is retained is the latest message of its topic, what has no expiry interval is retained, and after an expiry no message is left whose deadline has come, if the clock does not go back |
| `Retention.Handle` | src/cluster.rs:487-591 | as written: over any sets, resets and expiries the thread panics exactly at the first reset at an interior topic, or expiry while the latest message of some topic has an expiry interval; up to there what is retained is the latest message of every topic that was not reset |
| `Retention.GcExample` | src/cluster.rs:487-512 | a message with an expiry interval and one expiry make it panic |
| `Varint.EncodeVarTable` | src/types.rs:385-414 | the four written-out lengths are the base-128 digits, and larger numbers are refused |
| `Varint.DecodeVarLoop` | src/types.rs:367-383 | the accumulating loop reads the digits, and its sum stays within 32 bits |
| `Varint.VarRoundTrip` | src/types.rs:366-415 | decoding inverts encoding up to 268435455, whatever follows |
| `Varint.VarMinimal` | src/types.rs:366-415 | no shorter string, and no other of the same length, has the same value |
| `Varint.VarFailsIff` | src/types.rs:367-383 | decoding fails exactly if none of the first four bytes ends the number |
| `Varint.EncodeVarSize` | src/types.rs:385-414 | one to four bytes, and no fewer for a larger number |
| `Fields.U16RoundTrip` | src/types.rs:494-513 | decoding inverts encoding of 16-bit integers |
| `Fields.U32RoundTrip` | src/types.rs:515-534 | and of 32-bit ones |
| `Fields.PrefixedRoundTrip` | src/types.rs:586-611 | and of binary data |
| `Fields.TextRoundTrip` | src/types.rs:536-584 | and of strings, which are well-formed UTF-8 without control characters |
| `Fields.TextReencodes` | src/types.rs:536-584 | a string that decodes encodes again, in as many bytes |
| `Fields.PairRoundTrip` | src/types.rs:444-471 | decoding inverts encoding of user properties |
| `Fields.PairReencodes` | src/types.rs:444-471 | a user property that decodes encodes again, in as many bytes |
| `Codecs.ListRoundTrip` | src/v5/sub.rs:157-188 | a list of items written one after the other is read back to its end, whatever follows |
| `Codecs.ListReencodes` | src/v5/sub.rs:157-188 | a list that decodes encodes again, in no more bytes |
| `Codecs.DecodeListLoop` | src/v5/sub.rs:157-164 | the payload loop, pushing items until the payload is used up, reads that list |
| `Codecs.EncodeListLoop` | src/v5/sub.rs:186-188 | the loop that appends each item's bytes writes it |
| `Codecs.FoldFromList` | src/v5/sub.rs:268-291 | decoding and taking in items by turns comes to the same as decoding them all first |
| `Codecs.InsertFront` | src/v5/mod.rs:1110-1138 | making room, moving up in place and writing the front puts the header before the data |
| `Properties.PropertyRoundTrip` | src/v5/mod.rs:904-1018 | decoding inverts encoding of a property, for all 27 types |
| `Properties.PropertyReencodes` | src/v5/mod.rs:904-968 | a property that decodes encodes again, in no more bytes |
| `PropertySets.AbsorbListed` | src/v5/disconnect.rs:229-282 | taking in the properties as written rebuilds the set, exactly if the packet allows them all and the subscription identifier is not zero |
| `PropertySets.AbsorbGrows` | src/v5/disconnect.rs:229-282 | taking in properties grows the written list by exactly them, however size is measured |
| `PropertySets.AbsorbFits` | src/v5/disconnect.rs:241-261 | only allowed properties are taken in |
| `PropertyBlocks.BlockRoundTrip` | src/v5/mod.rs:44-86 | a block reads back as itself, an empty one as absent, whatever follows, exactly if it has no zero subscription identifier and no property foreign to the packet |
| `PropertyBlocks.BlockReencodes` | src/v5/mod.rs:44-86 | a block that decodes is allowed, is not empty, and encodes again in no more bytes |
| `PropertyBlocks.TakeInto` | src/v5/sub.rs:275-291 | one turn of the loop with the table of types met: a repeated type is refused |
| `PropertyBlocks.PropsLoop` | src/v5/sub.rs:265-294 | the loop with its table does what folding over the properties does |
| `PropertyBlocks.DecodePropsLoop` | src/v5/sub.rs:260-294 | so the property structs decode as specified, errors included |
| `PropertyBlocks.EncodePropsLoop` | src/v5/sub.rs:296-310 | and encode as specified |
| `Frames.FrameRoundTrip` | src/v5/mod.rs:494-520 | behind a header that was inserted, the body is read as it is, whatever follows |
| `Frames.FrameReencodes` | src/v5/mod.rs:494-520 | a header that decodes is at least as long as the one a body of no more bytes, or of four, gets |
| `Frames.BodyRoundTrip` | src/v5/unsub.rs:39-92 | what decoding makes of identifier, properties and list as encoded, in every case |
| `Frames.BodyReencodes` | src/v5/suback.rs:89-138 | such a body that decodes is fit to be encoded, in no more bytes |
| `Frames.BodyPanicsIff` | src/v5/sub.rs:149-156 | the slice for the payload is out of range exactly if the header gives less than identifier and properties take |
| `Frames.FramedByKind` | src/v5/mod.rs:494-506 | of the first byte, decoding depends on the packet kind only |
| `Frames.DecodeBlockLoop` | src/v5/mod.rs:71-86 | the `dec_props!` macro decodes a block as specified |
| `Frames.DecodePayloadLoop` | src/v5/sub.rs:149-164 | the payload is bounded by the remaining length, with the refusals and the slice that can fail |
| `Frames.DecodeBodyLoop` | src/v5/sub.rs:141-167 | `decode` with its two loops does what the specification does |
| `Frames.EncodeFramedLoop` | src/v5/sub.rs:177-194 | so does `encode`, with the header inserted at the end |
| `Packets.AckFieldsRoundTrip` | src/v5/pubaclc.rs:104-174 | identifier, code and properties of an acknowledgement read back, exactly if the properties are allowed |
| `Packets.DisconnectRoundTrip` | src/v5/disconnect.rs:131-181 | so do code and properties of a DISCONNECT |
| `Packets.ReadRoundTrip` | src/v5/mod.rs:276-364 | behind the header, a packet reads back under the type its field names, or is refused, each exactly when |
| `Packets.PacketRoundTrip` | src/v5/mod.rs:276-364 | the same with the header, for any codecs that read back what they write |
| `Packets.FaithfulIff` | src/v5/mod.rs:276-364 | so a packet comes back as it was exactly if it is faithful |
| `Packets.StreamRoundTrip` | src/v5/mod.rs:276-364 | the same for a stream of packets decoded one at a time |
| `Packets.ReadReencodes` | src/v5/mod.rs:276-343 | what was read, whichever packet it is (`ReadIff`), is faithful and in normal form, and has a body of no more bytes, but for the short forms, which take up to two more |
| `Packets.SpansIff` | src/v5/mod.rs:276-343 | a packet that decodes takes in what its header says exactly if the header spans it, as read off the header and the length of the properties |
| `Packets.EncodesIff` | src/v5/mod.rs:276-364 | a packet that decodes encodes again exactly if the length of its body can be written, and then decodes from its encoding |
| `Packets.PacketReencodes` | src/v5/mod.rs:276-364 | where the header spans it, its encoding takes at most two bytes more; a listing is always spanned, and takes no more |
| `Packets.PacketPanicsIff` | src/v5/suback.rs:98-105 | decoding panics exactly on a listing whose header gives less than identifier and properties take |
| `Packets.FramedIsCalm` | src/v5/unsub.rs:48-54 | a string that its header spans does not panic |
| `WireFormat.ValidByteIff` | src/v5/mod.rs:632-663 | `validate` accepts exactly the first bytes of section 2.1.3 of MQTT 5.0 and 0x60, 0x80 and 0xA0 |
| `WireFormat.KindInverts` | src/v5/mod.rs:522-663 | the first byte that a header is given announces the kind of packet it was given for |
| `WireFormat.ItemRoundTrip` | src/v5/sub.rs:339-360 | a subscribe filter reads back |
| `WireFormat.WireSound` | src/types.rs:366-611 | the codecs of MQTT 5.0 are as the lemmas above ask |
| `WireFormat.MqttRoundTrip` | src/v5/mod.rs:276-364 | what `Packet::decode` makes of every packet that `Packet::encode` accepts, whatever follows: it comes back, with an acknowledgement under the type its field names and exactly its bytes taken in, or is refused, exactly when; and it comes back as it was exactly if it is faithful |
| `WireFormat.MqttStream` | src/v5/mod.rs:276-364 | a concatenation of encoded packets, decoded one at a time, gives back the list and is taken in to its end |
| `WireFormat.MqttReencodes` | src/v5/mod.rs:276-364 | whatever bytes decode to (`PacketIff` says which bytes to what) takes in what its header says exactly if the header spans it, encodes again exactly if its body is at most 268435455 bytes long, and decodes from its encoding; where the header spans it that is at most two bytes more, and for SUBSCRIBE, UNSUBSCRIBE and SUBACK, which are always spanned, no more |
| `WireFormat.ShortReadExample` | src/v5/pubaclc.rs:104-144 | a PUBACK whose header says five bytes, and of which four are taken in |
| `WireFormat.MisreadStream` | src/v5/pubaclc.rs:104-144 | a stream that goes on with a good packet fails to decode behind it |
| `WireFormat.MqttPanicsIff` | src/v5/sub.rs:149-156 | `Packet::decode` panics exactly on a SUBSCRIBE, UNSUBSCRIBE or SUBACK whose header gives less than its identifier and properties take |
| `WireFormat.MqttFramedIsCalm` | src/v5/sub.rs:149-156 | it does not panic on a string that its header spans |
| `WireFormat.PanicExample` | src/v5/sub.rs:149-156 | five bytes on which it does |
| `WireFormat.MqttFlags` | src/v5/mod.rs:632-663 | 0x60, 0x80 and 0xA0 decode as with the flag set, and no other first byte against the standard is accepted |
| `WireFormat.EmptyUnSubscribe` | src/v5/unsub.rs:71-92 | an UNSUBSCRIBE without topics is encoded, and its encoding is refused |
| `Parsing.NumberIff` | src/types.rs:367-383 | a variable-length number is read exactly off one to four base-128 digits, all but the last with the top bit set |
| `Parsing.TextIff` | src/util.rs:4-8 | the text that is let through is exactly the UTF-8 of RFC 3629 without control characters |
| `Parsing.StringIff` | src/types.rs:536-584 | a string is read exactly off its length and such text |
| `Parsing.NameIff` | src/types.rs:206-220 | a topic name is valid exactly if it is not empty and has no byte 0, 0x23 or 0x2B |
| `Parsing.FilterIff` | src/types.rs:313-337 | a filter is valid exactly if it has levels in which a wildcard stands alone and `#` only in the last |
| `Parsing.ItemIff` | src/v5/sub.rs:339-360 | a subscribe filter is read exactly off a filter and a byte of options |
| `Parsing.PropertyIff` | src/v5/mod.rs:904-968 | a property is read exactly off its type and a value such as that type has, for all 27 types |
| `Parsing.ListIff` | src/v5/sub.rs:157-164 | a list is read exactly off its items laid end to end |
| `Parsing.AbsorbIff` | src/v5/disconnect.rs:229-282 | properties are taken in exactly if the packet may have them, none but user properties comes twice and no subscription identifier is zero, and they make the block that they describe |
| `Parsing.BlockIff` | src/v5/mod.rs:71-86 | a block is read exactly off the length of its properties and such properties |
| `Parsing.LeadIff` | src/v5/sub.rs:141-148 | packet identifier and block are read exactly off the two behind each other |
| `Parsing.PayloadIff` | src/v5/sub.rs:149-164 | a payload is read exactly off a non-empty list that fills what the header leaves |
| `Parsing.BodyIff` | src/v5/sub.rs:141-167 | a listing is read exactly off identifier, block and non-empty list that together have the length in the header |
| `Parsing.KindIff` | src/v5/mod.rs:522-663 | which first byte is accepted for which packet, as literal bytes |
| `Parsing.AckAllowsIff` | src/v5/pubaclc.rs:186-216 | which codes an acknowledgement of each type may have, as literal numbers |
| `Parsing.ReadIff` | src/v5/mod.rs:276-343 | behind a header, a packet is read exactly off its body, the short forms of acknowledgements and DISCONNECT included |
| `Parsing.WireGrammatical` | src/types.rs:366-611 | the codecs of MQTT 5.0 read exactly the strings of the grammar |
| `Parsing.PacketIff` | src/v5/mod.rs:276-343 | for all bytes and packets: `Packet::decode` returns the packet and takes in so many bytes exactly if those bytes spell it in the grammar |
| `Spellings.Unambiguous` | src/v5/mod.rs:276-343 | no string spells two packets, and none that spells one begins another |
| `Spellings.EncodedSpells` | src/v5/mod.rs:345-364 | what `Packet::encode` writes for a faithful packet spells it, normalised, in the grammar |
| `Spellings.ShortAcks` | src/v5/pubaclc.rs:104-144 | on literal bytes: an acknowledgement of length two stands for success, for all four types |
| `Spellings.CodeAcks` | src/v5/pubaclc.rs:104-144 | one of length three has its own code, and is refused exactly if its type does not permit it |
| `Spellings.ShortDisconnects` | src/v5/disconnect.rs:50-160 | a DISCONNECT of length zero is a normal one, and of length one has its own code, refused exactly if it is none |
| `Spellings.SubAckCodes` | src/v5/suback.rs:33-116 | which codes a SUBACK may have, on literal bytes |
| `Spellings.EmptyLists` | src/v5/unsub.rs:39-92 | an empty list is refused as malformed in SUBSCRIBE and SUBACK, and as a protocol error in UNSUBSCRIBE |
| `Spellings.HeaderRefused` | src/v5/mod.rs:494-506 | the error without a first byte, with one that is not accepted, and with a length that does not end |
| `Spellings.EncodedAck` | src/v5/pubaclc.rs:147-174 | the bytes of an acknowledgement without properties, always in full; without a type it is refused |
| `Spellings.EncodedDisconnect` | src/v5/disconnect.rs:162-181 | those of a DISCONNECT without properties |
| `Spellings.EncodedLeaving` | src/v5/disconnect.rs:265-282 | the properties of a DISCONNECT and the order they are written in |
| `Spellings.EncodedRequest` | src/v5/sub.rs:296-310 | those of a SUBSCRIBE, and of a SUBACK or an acknowledgement |
| `Spellings.EncodedBlock` | src/v5/sub.rs:172-195 | a block is the length of its properties and they, and without properties a zero |
| `Spellings.EncodedSubscribe` | src/v5/sub.rs:172-195 | the bytes of a SUBSCRIBE for one filter |
| `Spellings.EncodedUnSubscribe` | src/v5/unsub.rs:71-92 | those of an UNSUBSCRIBE for one |
| `Spellings.EncodedSubAck` | src/v5/suback.rs:118-138 | those of a SUBACK with one code |
| `Routing.StepConserves` | src/shard.rs:555-577 | no step of any shard loses, duplicates or reorders a message from one shard to another |
| `Routing.RunConserves` | src/shard.rs:555-599 | after every run, everything ever appended for a shard is what it has handled, received, what is in its queue, about to leave and in the back-log, in this order |
| `Routing.RunNumbers` | src/shard.rs:950-959 | after every run the next sequence number is the number of packets routed and one, up to 2^64 - 1 |
| `Routing.SeqnosIncrease` | src/shard.rs:917-944 | up to 2^64 - 1 packets, sequence numbers strictly increase in each back-log and, sender by sender, in each queue |
| `Routing.SeqnosSaturate` | src/shard.rs:950-959 | beyond that the last two are the same |
| `Routing.RunBounded` | src/message.rs:31-48 | after every run no queue holds more than its capacity |
| `Routing.KeptBackIf` | src/shard.rs:555-577 | in every run, what a flush puts back it could not send: the receiver is gone or its queue is at capacity |
| `Routing.CloseFreezes` | src/message.rs:31-48 | a receiver can go at any time, and in every run after that its queue stays as it was |
| `Routing.RunStamps` | src/shard.rs:586-599 | after every run the acknowledgement due to a shard is the number of the last packet handled from it |
| `Routing.RunEntries` | src/shard.rs:975-988 | after every run a shard has a time-stamp entry for a shard exactly if it has routed an at-least-once packet there |
| `Routing.AcknowledgesLargest` | src/shard.rs:648-665 | the acknowledgement queued for a shard carries the largest number received from it so far |
| `Routing.ReceivedAckNamesReceiver` | src/shard.rs:648-665 | in every run an acknowledgement received carries the number of the shard that receives it |
| `Routing.RunUnacked` | src/shard.rs:961-973 | after every run no entry for another shard has an acknowledged number |
| `Routing.HandlePanicsIff` | src/shard.rs:586-590 | in every run a shard panics on the next message it looks at exactly if that is an acknowledgement and it has not routed an at-least-once packet to itself |
| `AckRun.AckPanics` | src/shard.rs:586-590 | a run in which one packet goes from shard 1 to shard 2, and shard 1 panics on its acknowledgement |
| `Routing.RunGoesOn` | src/shard.rs:555-599 | a run goes on with whatever steps can be performed in its last state |
| `Queues.Channel.TrySend` | src/message.rs:31-48 | a bounded channel takes a message exactly if there is a receiver and room |
| `Queues.Channel.TryRecv` | src/message.rs:63-77 | it gives out the oldest message, and reports an end only when it is empty |
| `Queues.Channel.Turn` | src/message.rs:63-77 | whatever the receiving thread takes comes from the front, and nothing is lost |
| `Queues.Channel.Arrive` | src/message.rs:31-48 | whatever other senders have arrives at the end, as far as there is room |
| `Queues.PlayFlushes` | src/message.rs:31-52 | sending with arbitrary receives in between: a prefix goes into the channel, in order, the rest is left in order, and only if the channel is full or has no receiver; without a receive in between, as many go as fit |
| `Queues.MsgTx.TrySends` | src/message.rs:31-52 | the sending loop comes to that, whatever the receiver takes meanwhile, and the status says why it stopped |
| `Queues.DrainTakes` | src/message.rs:63-79 | receiving with arbitrary arrivals in between: the oldest messages come, in order, up to the number given, and fewer only if the channel is empty then |
| `Queues.MsgRx.TryRecvs` | src/message.rs:63-79 | the receiving loop comes to that, whatever arrives meanwhile, with one message more than the batch size at most, and the status says why it stopped |
| `Fanout.Group` | src/shard.rs:875-885 | the first loop files each match under its client, in order |
| `Fanout.NoLocalOffsets` | src/shard.rs:889-894 | the offsets of the no-local subscriptions, all and ascending |
| `Fanout.RemoveNoLocal` | src/shard.rs:888-900 | removing by index from the last to the first leaves exactly the others, in order |
| `Fanout.MatchSubscribers` | src/shard.rs:870-903 | the groups are the matches by client, less the publisher's no-local ones, and the matches are what the table of subscriptions says |
| `Fanout.GroupCounts` | src/shard.rs:870-903 | a match is in the group of its client as often as it was found, and in no other; a no-local one of the publisher in none |
| `Shards.Shard.constructor` | src/shard.rs:185-189 | nothing booked, and numbering starts at one |
| `Shards.Shard.IncrSeqno` | src/shard.rs:950-959 | the number taken and the next one, which saturates |
| `Shards.Shard.InsertUnacks` | src/shard.rs:975-988 | the packet is kept under its number and the target's time-stamp set |
| `Shards.Shard.RouteToClient` | src/shard.rs:906-945 | one packet is appended to the back-log of the shard the first subscription names, and kept exactly if publish and server both have it above at-most-once; if both have it exactly-once, and only then, it panics |
| `Shards.Shard.RouteMatches` | src/session.rs:330-341 | the loop routes to the clients in ascending order and passes over those with nothing left |
| `Shards.Shard.Publish` | src/session.rs:322-345 | matching and routing together |
| `Shards.Shard.AckMessages` | src/shard.rs:648-665 | each shard with a time-stamp gets one acknowledgement at the end of its back-log, and none is due any more |
| `Shards.Shard.FlushToShards` | src/shard.rs:555-577 | for every shard what its queue takes goes there and the rest stays, in order, whatever is received meanwhile; it panics exactly if a shard has no queue |
| `Shards.Shard.BookLocalAck` | src/shard.rs:961-973 | the acknowledged number goes with the shard's entry, and without an entry it panics |
| `Shards.Shard.StampOne` | src/shard.rs:586-603 | one message of a batch is stamped or booked, and panics exactly if it is a client acknowledgement, or a local one for whose shard there is no entry |
| `Shards.Shard.StampMessages` | src/shard.rs:585-603 | after a batch: the number of the last packet from each shard, the acknowledgements booked, and the packets filed; it panics exactly if one of them does |
| `Shards.FileAllAt` | src/shard.rs:585-603 | under each client are the packets that name it, in order, and nothing else |
| `Shards.FiledUnderPublisher` | src/shard.rs:917-926 | each packet of a publish is filed under the publisher, and under the client whose subscriptions it carries exactly if that is the publisher |
| `Shards.BookAllAt` | src/shard.rs:961-973 | booking keeps the shards with an entry and their routed numbers, and leaves each the last number acknowledged under it |
| `Shards.RouteAllAppends` | src/shard.rs:939-944 | a publish appends to each back-log its part of the routed packets, in order, and nothing else |
| `Shards.OnePacketEach` | src/session.rs:330-341 | there is exactly one packet for each client served, with its subscriptions and consecutive numbers, for the shard they name |
| `Shards.NumberedSum` | src/shard.rs:950-959 | those numbers in closed form |
| `Shards.RouteAllKeeps` | src/shard.rs:928-944 | of a publish, a number it takes has its packet kept under it exactly if that is to be acknowledged, and nothing else is kept or lost |
| `Shards.UnacksAfter` | src/shard.rs:928-988 | the same after any number of publishes |
| `Shards.AscendingOrder` | src/session.rs:330-341 | the clients are visited once each, in order |
| `Shards.PublishCarriesMatches` | src/shard.rs:870-945 | the subscription lists carried are together the matches less the publisher's own no-local subscriptions |
| `ShardSteps.PublishIsSteps` | src/session.rs:330-341 | the loop of a publish is a row of routing steps of the transition system of all shards |
| `ShardSteps.AckMessagesIsSteps` | src/shard.rs:648-665 | `ack_messages` is a row of its acknowledging steps, in whatever order |
| `ShardSteps.ReceivesAreSteps` | src/message.rs:63-79 | receiving some messages is a row of its receiving steps |
| `ShardSteps.HandlesAreSteps` | src/shard.rs:586-603 | looking at a batch is a row of its handling steps, and the numbers due and the entries agree |
| `ShardSteps.HandlesPanic` | src/shard.rs:586-603 | if it stops with a panic, so does that row |
| `ShardSteps.PlayIsSteps` | src/message.rs:31-52 | the sending loop is a row of its sending and receiving steps, whatever the receiver takes meanwhile |
| `ShardSteps.FlushIsSteps` | src/shard.rs:555-577 | `flush_to_shards` is a flush of it, in whatever order and with whatever receives of the other shards in between: back-logs, entries and queues agree afterwards |
| `ShardSteps.AcksBookOwnEntry` | src/shard.rs:961-973 | in every run, booking a batch received leaves the entries of all other shards as they are, and panics exactly if there is an acknowledgement in it and the shard has not routed an at-least-once packet to itself |

## Left out

- Tries across threads: each operation reads a snapshot and writes a root back later, so only sequential
  runs are claimed.
- `RetainedTrie::match_topic_filter`, and the statistics of the tries other than `count` and, of retained
  messages, `missing`.
- CONNECT, CONNACK, PUBLISH, UNSUBACK, PINGREQ, PINGRESP and AUTH: decoding answers `OutOfModel`.
- Unpacking subscription options: option bytes stay packed, and are validated.
- What a session does with the packets filed under it.
- WireFormat.MqttReencodes: for a packet that its header does not span, how many bytes its encoding takes is
  not stated.
- Spellings.EncodedLeaving: the bytes are given with every property there and one user property; that any
  properties are written so as to be read back is `BlockRoundTrip`.
- Spellings.EncodedSubscribe: the bytes are given for one filter; that any number spell the packet is
  `EncodedSpells`.
- Shards.Shard.RouteToClient: the target is the shard of the first subscription of the list, as in the code;
  that a client's subscriptions all name one shard is not part of this model.
- Routing.StepConserves: a flush may serve its targets in any order here, and in ascending order in the code.
- Routing.RunConserves: messages in the queue of a shard that is gone count as in the queue; a shard that has
  panicked takes no further steps but keeps its queue.
- Retention.Cluster.SetRetainTopic: the deletion flag is a plain field, as one thread sets it.
- Retention.Serve: leaves out the call of `gc`, which would end every such run early (`Handle`).
- Clocks and sockets are parameters: the current time, and a script of answers.
- Flushing to sockets, keep-alive, retries, clearing of unacknowledged packets, listeners, threads,
  polling, configuration and logging.
