# A verified model of CassetteDB

CassetteDB is an embedded document database: a write-ahead log with an in-place commit flag, an
engine that rebuilds its documents and inverted index from that log, a numbered change feed with
followers, a page file with a free list, an in-memory store of collections with secondary and
full-text indexes, a small query language, a consistent-hashing shard router, and a Raft node for
cluster metadata. This project models those parts in Dafny and states what they are for.

Each part has a definition on values and, where the program updates fields, buffers or files in
place, a class or a method with the program's own loops proved against it:

| part | values and theorems | in place |
|---|---|---|
| Raft | `raft_node`, `raft_quorum`, `raft_merge`, `raft_cluster`, `raft_election`, `raft_logs`, `raft_completeness`, `raft_safety`, `raft_progress`, `raft_votes`, `raft_counterexamples`, `raft_commit_counterexample` | `raft_handlers` |
| write-ahead log | `wal`, `wal_replay` | class `Wal`, method `ReplayFile` |
| engine | `engine_store`, `engine_records`, `replication_cuts` | `engine`, with `index`, `storage`, `replication` |
| collections | `collection`, `collection_queries`, `collection_ranges`, `cassette_filters` | `cassette` and the index methods of `collection` |
| queries | `query`, `query_numbers`, `query_parser`, `query_operands`, `query_roundtrip`, `query_panics`, `query_leaves` | `ResolvePath`, `ScanBalanced` |
| sharding | `shard_ring`, `shard_moves`, `router_runs` | class `Router` of `shard_router` |

`options`, `bytes`, `json`, `document` and `ordering` hold what they share, `formats` says what the
files are byte by byte; `dafny verify
dfyconfig.toml` covers the whole project.

What is taken as a parameter with a stated law, or with none: the JSON codecs (a value decodes to
itself), UTF-8 (an encoded id reads back), the checksum, the tokenisers, the float parser and the
conversion of JSON numbers to floats, the text of a JSON value used as an index key, the hash, clock
readings and generated ids. Counters are unbounded naturals. Byte lengths are written to 32-bit
fields modulo 2^32, and the round trips ask for lengths below that.

Floats are infinities, NaN and the finite values, which are numbered in their order and are not
rounded.

Raft runs are sequences of atomic steps over a network that loses, repeats and reorders messages,
with crashes that keep the persistent state. The program departs from the Raft paper in three
places, which the theorems name: `NoGap` (G), a delivered request's previous index lies within the
receiver's log, because a missing previous entry is accepted; `SameTerm` (T), no success of an
earlier term that acknowledges entries reaches a leader, because it would be counted; and
`CommitCovered` (C), a delivered request raises the receiver's commit index only where the cap by
the last entry, which the program uses, is the cap by the last new one. For each of the three there
is a run that shows what it breaks, and the exact condition under which the step is harmless.

Engine runs may crash between an append and its commit; a crash inside an append is a cut of the log
file at any byte.

## Model

| member | source | states |
|---|---|---|
| RaftElection.ElectionSafety | src/raft.rs:283-372 | In any two states of any run, two leaders of the same term are the same node; no condition on logs or gaps (Raft section 5.2) |
| RaftLogs.LogMatching | src/raft.rs:394-462 | Under (G), across all states of a run, two logs with the same term at a position are equal up to it, and each entry's index is its position plus one (section 5.3) |
| RaftLogs.HeartbeatMatches | src/raft.rs:375-437 | Under (G), across all states of a run, a node whose log reaches a heartbeat's previous index accepts it if and only if its term has come and the two logs agree on everything up to there |
| RaftProgress.ElectedProbesEnd | src/raft.rs:338-391 | Under (G), the heartbeat of a node that an election step makes leader probes at the end of its log: a peer whose log is not shorter accepts it if and only if its term has come and it has the leader's whole log |
| RaftProgress.AckMovesProbe | src/raft.rs:465-480 | After a leader counts an acknowledgement, its next heartbeat to that peer probes where the acknowledgement ends, and heartbeats to the others probe where they did |
| RaftProgress.RefusalMovesProbe | src/raft.rs:502-522 | After a leader records a refusal, its next heartbeat to that peer probes one entry earlier and those to the others are as before; at the start of the log nothing changes |
| RaftProgress.RepairIsBounded | src/raft.rs:375-522 | When heartbeats, refusals and their recording take turns from a probe at i, a follower of no later term whose log agrees with the leader's up to k accepts after at most i - k refusals |
| RaftProgress.RepairInRun | src/raft.rs:375-522 | In every state of a run within (G) and (T), a follower whose log reaches the probe refuses exactly once for each entry between the probe and the last shared one, the accepted probe is at that one, and the leader's entries from there make the follower's log begin with the leader's |
| RaftProgress.RunKeepsNext | src/raft.rs:361-368 | In every run within (G) and (T), next indices are at least 1 and a leader's are within its log or just behind it |
| RaftVotes.GrantedIff | src/raft.rs:302-335 | A vote is granted if and only if the term has not passed, the candidate's log is at least as complete, and no other candidate has the vote of that term; the answer has the later of the two terms |
| RaftVotes.RepeatedVote | src/raft.rs:322-331 | A granted request that is repeated is granted again and changes nothing |
| RaftVotes.UpToDateIsTotal | src/raft.rs:316-320 | Of two logs one is at least as complete as the other, both if and only if they end in the same term at the same index (Raft section 5.4.1) |
| RaftVotes.ElectedIffMajority | src/raft.rs:347-370 | A vote of its term makes a candidate leader if and only if the distinct granted votes are a strict majority of all nodes |
| RaftVotes.LaterTermIsFollowed | src/raft.rs:302-522 | Every message of a later term makes the node a follower in that term without a vote or a leader, but for the vote that a request may then get |
| RaftVotes.ProposedIsThere | src/raft.rs:267-280 | A leader's command is the entry at the index returned, in its term, behind its unchanged log |
| RaftVotes.StartsFresh | src/raft.rs:216-262 | A new node and a restarted one follow, have applied and committed nothing and would send everything; the restarted one has its term, vote and log |
| RaftVotes.AppliedOnce | src/raft.rs:558-569 | What is applied now and after the commit index has grown is together what would have been applied at once, and nothing twice |
| RaftLogs.LeaderAppendsOnly | src/raft.rs:267-280 | Under (G), between two states in which a node leads the same term its log has only grown |
| RaftCompleteness.LeaderCompleteness | src/raft.rs:302-499 | Under (G) and (T), when a leader raises its commit index, the committed prefix is in the log of every leader of a later term, in every state of the run (section 5.4) |
| RaftCompleteness.LeaderCommitsAgree | src/raft.rs:465-499 | The prefixes that any two leaders ever commit are one a prefix of the other |
| RaftSafety.StateMachineSafety | src/raft.rs:394-569 | Under (G), (T) and (C), what any two nodes, leaders or followers, have committed in any two states of a run is one a prefix of the other (section 5.4.3) |
| RaftSafety.AppliedAgree | src/raft.rs:558-569 | Under the same conditions, two nodes that apply an entry with the same index, whenever they do, return the same command |
| RaftCommitCounterexample.AnnouncementBreaksSafety | src/raft.rs:453-455 | A run of any five nodes within (G) and (T) in which a leader of term 2 commits entry 1 and a request without entries then makes a follower commit another entry 1 |
| RaftCompleteness.CountedIsBackedIff | src/raft.rs:469-482 | After a response is counted, every match index is still backed by an acknowledgement of the leader's own term if and only if the response acknowledges nothing or a success of that term reaches as far |
| RaftCounterexamples.LateAckBreaksCompleteness | src/raft.rs:465-499 | A run of any five nodes without gaps in which one late success of term 1 makes the leader of term 3 commit what it and one other node hold, and a leader of term 4 lacks it |
| RaftCounterexamples.GapBreaksMatching | src/raft.rs:425-450 | A run of any five nodes that keeps (T), with one gap in its last step, after which two logs have the same term at position 1 and different entries there |
| RaftCompleteness.CommitIsChoosable | src/raft.rs:481-498 | Under (G) and (T), when a leader raises its commit index in a run, the entry there is of its own term and a strict majority of the cluster has acknowledged it in that term |
| RaftCompleteness.CommitStep | src/raft.rs:485-497 | In any run, a commit index that a step raises is the largest index that a strict majority of the counted nodes matches, and its entry has the current term |
| RaftQuorum.QuorumMatch | src/raft.rs:488-491 | The collect, sort and middle element of the handler give the one index that a strict majority matches and above which none is |
| RaftQuorum.MedianIsQuorumMatch | src/raft.rs:488-491 | The element at position len/2 of the descending match indices is that index |
| RaftMerge.MergeFollowsPaper | src/raft.rs:440-450 | Delivered without a gap, the merge loop deletes from the first conflict on and appends what is missing, as the receiver rules of Raft's figure 2 say |
| RaftMerge.MergeSlice | src/raft.rs:440-450 | Merging a slice of another log that agrees before it leaves the log unchanged or makes it exactly that log's prefix |
| RaftMerge.AcceptedIndexedIffNoGap | src/raft.rs:428-450 | An accepted request keeps positions and indices in step if and only if it is empty or its previous index lies within the log |
| RaftMerge.AcknowledgesHeldIffNoGap | src/raft.rs:428-461 | An accepted request, empty ones included, is acknowledged no further than the follower's log reaches if and only if its previous index lies within the log |
| RaftMerge.GapMisplacesEntry | src/raft.rs:425-442 | A concrete request with a gap is accepted and puts entry 2 at position 1 |
| RaftMerge.FollowerCommitIsPapersIff | src/raft.rs:453-455 | When a request raises the follower's commit index, it becomes the one of the Raft paper if and only if, before the request, the leader's commit index is at most the last new entry, or the log ends by then, or it conflicts with an entry of the request |
| RaftMerge.FollowerCommitsUnconfirmed | src/raft.rs:453-455 | A follower with entries 1 and 2 of term 1 commits both on an empty request of term 2 that confirms the first only |
| RaftHandlers.RaftNode.Propose | src/raft.rs:267-280 | A leader appends the command at its next index, any other node changes nothing |
| RaftHandlers.RaftNode.StartElection | src/raft.rs:283-299 | The whole new state of a candidate of the next term that voted for itself, and its request |
| RaftHandlers.RaftNode.HandleRequestVote | src/raft.rs:302-335 | Stepping down on a later term, refusing an earlier one, and the vote for an up-to-date candidate if none was cast |
| RaftHandlers.RaftNode.RecordVote | src/raft.rs:338-372 | Counting distinct granted votes of the current term, and the new leader's indices at a quorum |
| RaftHandlers.RaftNode.HandleAppendEntries | src/raft.rs:394-462 | Every branch of the handler: terms, consistency check, merge, commit index and answer |
| RaftHandlers.RaftNode.MergeEntries | src/raft.rs:440-450 | The loop over the entries merges them one by one into the log |
| RaftHandlers.RaftNode.RecordAppendSuccess | src/raft.rs:465-499 | The new match and next index, and the commit index raised to the quorum match when it is larger and of the current term |
| RaftHandlers.RaftNode.RecordAppendFailure | src/raft.rs:502-522 | Stepping down on a later term, otherwise the new next indices, whose effect on the next heartbeats `RefusalMovesProbe` states |
| RaftHandlers.RaftNode.ApplyCommitted | src/raft.rs:558-569 | Exactly the commands above the last applied index up to the commit index, in order |
| WalFormat.ScanPrefix | src/wal.rs:281-338 | On every cut of a log file that keeps the header, reading yields the flagged data records among the whole ones, a prefix of all of them, then a clean end if and only if the cut is on a record boundary; the number of whole records is a result |
| WalFormat.ScanAll | src/wal.rs:281-338 | Reading a whole log yields exactly the flagged records other than transaction entries, in order |
| WalFormat.ReadEncoded | src/wal.rs:114-132 | Reading at an encoded record gives back its operation, id, payload and flag, and what follows |
| WalFormat.ReadCut | src/wal.rs:281-315 | Reading at a proper part of a record is an error, or the end when nothing is left |
| WalFormat.FlagInPlace | src/wal.rs:239-252 | Setting the one flag byte of record k turns the file into the encoding of the records with record k flagged |
| WalFormat.SeeksToFlag | src/wal.rs:239-249 | The seeks of a commit, which read the lengths from the file, end at that byte |
| WalFormat.Wal.Open | src/wal.rs:74-111 | An empty file becomes a header; any other opens if and only if it begins with magic and version, with separate errors for the two |
| WalFormat.Wal.AppendRecord | src/wal.rs:114-132 | Writes the record, unflagged, behind whatever the file holds and returns where it begins; on a well-formed log it becomes the last record |
| WalFormat.Wal.CommitRecord | src/wal.rs:239-252 | Writes one byte where the seeks lead, whatever the file; on a log in which record k begins at the offset, exactly record k becomes flagged and no byte but its flag changes |
| WalFormat.Wal.IterCommitted | src/wal.rs:255-259 | Collecting the iterator gives what the scan of the bytes after the header gives |
| WalReplay.ReplayIsEffective | src/wal.rs:172-232 | For every log, interleaved ones included, a data entry is delivered if and only if no transaction was opened by the last control entry before it, or the next control entry commits that transaction; once each, in order |
| WalReplay.ReplayFile | src/wal.rs:165-236 | Replaying a file delivers exactly those of its transaction entries that decode, up to its end or its first torn record |
| WalReplay.ReplayReads | src/wal.rs:172-199 | Reading a log that ends in a part of a record finds the transaction entries of the whole records that decode, flagged or not, and reports an error if and only if there is such a part |
| Formats.RecordLayout | src/wal.rs:114-132 | A record byte by byte: operation number 1 to 4, little-endian length and id, length and payload, checksum and flag |
| Formats.ReaderDecides | src/wal.rs:281-338 | For any operation and flag byte: a zero flag and operation 4 are passed over, operations 1 to 3 are yielded, any other is an error |
| Formats.CommitSeeks | src/wal.rs:239-252 | A commit fails if and only if one of the two length fields that it reads is not wholly in the file |
| EngineStore.RecoveryIsLive | src/engine.rs:40-65 | After every run of inserts, updates, deletes, reopens and crashes before a commit, the log recovers exactly the live documents with exactly their tokens indexed, the live index lacks none of them, and replaying the feed rebuilds the documents |
| EngineStore.RecoveryIsLiveIndex | src/engine.rs:121-203 | When no insert overwrites a document with a token the new one lacks, recovery gives exactly the live index as well |
| EngineStore.InsertExactIff | src/engine.rs:129-130 | An insert keeps an exact index exact if and only if the document it overwrites, if any, has no token that the new one lacks |
| EngineStore.RecoveredIsExact | src/engine.rs:46-64 | Whatever records the log holds, what is recovered is keyed by id and indexed exactly |
| EngineRecords.InsertStores | src/engine.rs:121-131 | An insert stores the given document, or without an id the given data under the generated id with no metadata, and changes no other |
| EngineRecords.OperationsAreRecorded | src/engine.rs:121-203 | Each operation is the last committed record of the log and the last numbered change of the feed, under its own kind, id and time, and both read back as the document that is then stored |
| EngineStore.CrashBeforeCommit | src/engine.rs:126-127 | A file cut anywhere between the start of an append and its commit reopens to the state before the operation if the record is wholly there or wholly absent, and otherwise fails to open |
| EngineStore.UnpublishedIsLost | src/engine.rs:126-136 | A crash between commit and publication loses nothing on reopening, but replaying the feed gives the recovered documents if and only if the operation changed none |
| EngineStore.OpenCutLog | src/engine.rs:44-65 | A log file cut anywhere after its header fails to open unless the cut is on a record boundary, and then it recovers the records before it |
| Engine.CassetteEngine.Open | src/engine.rs:35-118 | Documents and index are what the bytes of the log give; well-formed files open exactly when every committed payload decodes, into that state |
| Engine.CassetteEngine.RecoverRecord | src/engine.rs:47-63 | One turn of the recovery loop: old tokens out, new tokens in, or the document removed |
| Engine.CassetteEngine.RecoverDocs | src/engine.rs:44-65 | The recovery loop gives the fold of all records, or fails if one of them does |
| Engine.CassetteEngine.Insert | src/engine.rs:121-145 | Log, index, documents and feed all take the insert, the id being the given one or the generated one; when the log cannot take the record, documents and index stay as they were. The header's count grows by one, and stays the number of documents if and only if the id was new |
| Engine.CassetteEngine.Update | src/engine.rs:148-177 | An unknown id changes nothing; a known one has its tokens replaced and the update logged, committed and published; an error leaves documents and index as they were |
| Engine.CassetteEngine.Delete | src/engine.rs:180-203 | An unknown id changes nothing; a known one leaves documents and index and is logged, committed and published, and the header's count falls by one |
| Engine.CassetteEngine.Query | src/engine.rs:211-214 | With an exact index, exactly the documents that satisfy the query's index-free meaning, each once; `QueryListsNumbers` says which those are for a comparison |
| QueryNumbers.QueryListsNumbers | src/query.rs:264-287 | Of a comparison with a finite bound, the answer lists exactly the live documents that have at the path a finite number on that side of it or the infinity on that side |
| QueryNumbers.ComparesNumbers | src/query.rs:271-282 | For every number and bound, a comparison holds if and only if neither is NaN and their places among the numbers, infinities beyond all finite ones, are in that order |
| QueryNumbers.PathLeads | src/query.rs:338-347 | What a path finds is what following its keys one at a time through objects leads to |
| Engine.CassetteEngine.Search | src/engine.rs:217-222 | The live documents among those the index names, each once; with an exact index, those that have every token of the term |
| Queries.MatchesIsMeaning | src/query.rs:264-287 | For every query tree, evaluation through an index that lists a document exactly equals a meaning that uses no index |
| Queries.ExecuteIsMeaning | src/query.rs:247-262 | Executing a query keeps each satisfying document as often as it was given and no other |
| Queries.ResolvePath | src/query.rs:338-347 | The loop over the segments finds the value at the path, or nothing |
| Index.InvertedIndex.IndexDocument | src/index.rs:33-55 | Adds exactly the pairs of the document with the tokens of all strings at any depth |
| Index.InvertedIndex.RemoveDocument | src/index.rs:58-82 | Removes exactly those pairs and leaves no empty set |
| Index.InvertedIndex.Search | src/index.rs:85-104 | The narrowing loop gives the documents listed under every token, none without a token |
| Index.TokensAreOfStrings | src/index.rs:33-55 | The tokens of a document are those of the strings it holds at any depth, in arrays and objects, and no others |
| Index.RelationDetermines | src/index.rs:58-82 | Two index maps without empty sets that list the same pairs are equal |
| Replication.PolledIsPrefix | src/replication.rs:131-186 | Over every run of writes, reopens and polls, what a follower has polled is a prefix of the log, records are numbered from 1 without gaps, and a poll catches up |
| Replication.ReadBack | src/replication.rs:131-186 | The iterator returns exactly the records from a sequence number on, and the scan on opening their largest number |
| Replication.ReplicationLog.Open | src/replication.rs:36-80 | Opens an empty file or one that begins with the header and whose frames are whole, and no other, and numbers on from the largest number in it; opening a well-formed log continues its numbering |
| Replication.ReplicationLog.Append | src/replication.rs:83-105 | Writes the record under the next number behind whatever the file holds; on a well-formed log it becomes the last record |
| Formats.FrameLayout | src/replication.rs:96-101 | A change byte by byte: little-endian length and encoding |
| FeedCuts.CutFeed | src/replication.rs:131-185 | A feed cut anywhere after its header holds its first k records; with at most three more bytes it opens, goes on after them and is read to its end, with more it does not open |
| FeedCuts.AppendBehindCut | src/replication.rs:83-105 | After a cut one to three bytes behind a record, appending a record of less than 64 KiB, its length no multiple of 256, makes a file that does not open again and whose readers never get past the records kept |
| Replication.Follower.Poll | src/replication.rs:260-269 | On a well-formed log exactly the records not yet seen, and then none is missing; on an undecodable record an error after which the records before it are skipped |
| PageStorage.HeaderRoundTrip | src/storage.rs:46-87 | Decoding an encoded header gives it back |
| Formats.HeaderLayout | src/storage.rs:46-63 | The header page byte by byte |
| Formats.HeaderIsRead | src/storage.rs:65-87 | A header is read from 64 bytes or more that begin with the magic and from no others |
| Formats.FreedLayout | src/storage.rs:161-169 | Freeing a page writes the old head of the list in its first four bytes, leaves the rest of it and every other page but the header, and makes it the head |
| PageStorage.Storage.AllocatePage | src/storage.rs:124-142 | Hands out the first free page or a new one, never a used one; free and used pages stay a partition of pages 1 and up, and the list stays threaded, unless the 32-bit page count wraps around |
| PageStorage.Storage.FreePage | src/storage.rs:161-169 | Frees any page, leaving a part of a page beyond the end of the file; a used one becomes the first of the list and is used no longer |
| PageStorage.FreeKeepsListIff | src/storage.rs:161-169 | After freeing a page other than the header there is a well-formed free list if and only if the page was in use: freeing a free page makes a cycle, one beyond the file a partial page |
| PageStorage.Storage.WritePage | src/storage.rs:152-159 | Changes one page, filling with zeros up to it when it is beyond the end, and keeps the list when the page is in use |
| PageStorage.Storage.Open | src/storage.rs:97-118 | An empty file gets a header page; any other opens if and only if its first page decodes as a header, with the error of the one that does not; a file with a free list opens with it |
| PageStorage.Storage.IncrementDocCount | src/storage.rs:178-185 | Saturating addition in the header, which keeps the list |
| PageStorage.Storage.ReservePages | src/engine.rs:230-232 | The allocation loop of compaction ends, by pages still to add plus free pages, and uses up the free list before the file grows |
| QueryRoundTrip.RoundTrip | src/query.rs:61-244 | A canonically printed query parses back to itself if and only if it is a right-nested `and` of right-nested `or`s in which no compound query begins with a search |
| QueryRoundTrip.ParsedIsChain | src/query.rs:115-171 | Every query parsed from any input is a right-nested `and` of right-nested `or`s: `and` binds looser than `or` |
| QueryRoundTrip.TwoSearchesBecomeOne | src/query.rs:78-112 | Two searches joined by `and` parse as one search for the text between the outer quotes |
| QueryRoundTrip.PathReadBack | src/query.rs:290-305 | Printed paths without empty or special segments parse back to their segments |
| QueryRoundTrip.ValueReadBack | src/query.rs:307-330 | Printed strings, numbers, booleans and null parse back to the same value |
| QueryOperands.QuotedEquality | src/query.rs:307-311 | An equality with an operand in double or single quotes compares with the string between them |
| QueryOperands.WordOperand | src/query.rs:311-330 | An unquoted operand is the integer it reads as, or else the finite float, or else true, false or null, or else a string |
| QueryRoundTrip.OperatorFound | src/query.rs:173-180 | In a printed comparison no operator that is tried earlier is found, and its own is found at its place |
| QueryParser.FindIsFirst | src/query.rs:358-371 | What the balanced search finds is the first place where the needle stands at nesting depth zero |
| QueryParser.ScanBalanced | src/query.rs:358-371 | The loop with a running depth computes that search |
| QueryPanics.SafeNeverPanics | src/query.rs:61-244 | Every input of one-byte characters is parsed or rejected when each quote has a character after it that is no space, or one before it that is neither a space nor an equals sign |
| QueryLeaves.PanicsIff | src/query.rs:61-244 | Whatever the input: parsing panics if and only if one of the texts between the connectives panics and all before it are parsed, and it succeeds if and only if all are |
| QueryLeaves.LeafPanicsIff | src/query.rs:78-244 | A text without connectives panics if and only if `==` is its only operator and has a path before it and a lone quote after it, or no operator stands in it and byte 40 is inside a character, or it searches for quotes and spaces only and byte 20 is inside a character |
| QueryLeaves.BlankSearchPanicsIff | src/query.rs:98-108 | A search for spaces is never parsed, and panics if and only if byte 20 is inside one of them |
| QueryLeaves.WideSpacePanics | src/query.rs:98-108 | A search for twelve spaces and an em space panics |
| QueryPanics.EqualityPanicsIff | src/query.rs:307-317 | An equality of a canonical path with one word panics if and only if the word is a lone quote |
| QueryPanics.WordPanicsIff | src/query.rs:225-243 | A single word is never parsed, and quoting it in the error panics if and only if byte 40 is inside one of its characters |
| Collections.IndexDocument | src/db.rs:239-256 | Each list grows by exactly the occurrences of its token in its field |
| Collections.RemoveFromIndex | src/db.rs:517-525 | The id leaves every list and nothing else does |
| Collections.BuildSecondary | src/db.rs:167-175 | The built index lists each live document once, under its key, and knows no other id |
| Collections.BuildInverted | src/db.rs:547-552 | The rebuilt index lists each live document as often as its tokens occur |
| Collections.UpdateAt | src/db.rs:489-499 | Both kinds of index stay exact for live documents through a change of data |
| Collections.DeleteAt | src/db.rs:508-511 | A tombstone changes no index, which stays exact for the documents that are left |
| Collections.CompactOne | src/db.rs:540-566 | Compaction keeps exactly the live documents, in order, with the same fields indexed exactly, and returns the number of tombstones |
| CollectionQueries.RangeByIndex | src/db.rs:358-411 | For all four operators the walk over the index returns the same multiset of documents as the scan, despite stale ids and the skip of equal lists |
| CollectionQueries.EqualListsAreStale | src/db.rs:362-365 | A key whose list equals that of the value has no live document but the value's own, so skipping it for `>` loses none |
| CollectionQueries.OneKey | src/db.rs:359-408 | What the walk takes of a document from one key is what the scan takes of it for that key |
| CollectionQueries.EqualByIndex | src/db.rs:316-329 | The indexed equality query returns, in order, the live documents with that key |
| CollectionQueries.EqualAnswersAgreeIff | src/db.rs:316-339 | Index and scan agree on equality if and only if no live document has there a value that is not a string but has the text as its key |
| CollectionQueries.SearchRanked | src/db.rs:276-299 | Each live document with a query token in a top-level string exactly once, by falling total occurrences |
| CollectionQueries.ScoreAll | src/db.rs:277-286 | The scores of live documents are their total occurrences of all query tokens |
| CollectionQueries.CompactInvisible | src/db.rs:540-566 | Selections, lookups and liveness are the same before and after the tombstones are dropped |
| CassetteDb.CompactKeepsAnswers | src/db.rs:540-566 | Lookup, scan, both kinds of query with and without an index, and the documents and scores of a search are the same before and after the tombstones are dropped |
| CollectionQueries.FindLiveIs | src/db.rs:457-461 | With distinct ids, looking up an id finds exactly its live document |
| CassetteDb.Cassette.Insert | src/db.rs:124-154 | The collection, created if absent, gains one document and its indexes stay exact when the id is new to it |
| CassetteDb.Cassette.Update | src/db.rs:472-500 | Changes the data of one live document; false for unknown or deleted ids; an error without the collection |
| CassetteDb.Cassette.Delete | src/db.rs:502-515 | Marks one document deleted; true also when it already was |
| CassetteDb.Cassette.CreateIndex | src/db.rs:157-177 | Adds an exact index on the field and changes no document |
| CassetteDb.Cassette.DropIndex | src/db.rs:180-186 | Removes the field's index and tells whether there was one |
| CassetteDb.Cassette.Compact | src/db.rs:540-566 | Every collection keeps its live documents, its indexed fields and all its answers; the result is the number of tombstones in all of them |
| CassetteDb.Cassette.QueryRange | src/db.rs:344-435 | With or without an index on the field, each live document with the field whose key is in the order asked for, once: by the first character that differs, or by which of the two ends first |
| CollectionRanges.ThreeParts | src/db.rs:417-429 | `<` and `>` share no document; each live document with the field is in one of them or has the value as its key; `<=` and `>=` are those and the equal ones |
| CollectionRanges.BelowAndAbove | src/db.rs:417-429 | A document is in `<` if and only if its key is a proper part of the value from the start or has the smaller character where they first differ, and in `>` the other way round |
| CassetteDb.Cassette.Query | src/db.rs:302-340 | Which documents an equality filter selects; `FilterAnswer` and `OtherFilters` say so by the characters of the filter |
| CassetteFilters.FilterAnswer | src/db.rs:308-339 | A key and a value joined by `=`, with or without spaces around it or double quotes around the value, select in document order the live documents with that string, or with an index on the key those with that index key |
| CassetteFilters.OtherFilters | src/db.rs:308-311 | A filter without `=` or with more than one selects all live documents |
| CassetteFilters.KeyIs | src/db.rs:215-222 | A document's index key is its string at the field, or the text of another value, and none without the field |
| CassetteDb.Cassette.Search | src/db.rs:259-300 | The ranked answer, or all live documents when the query has no token |
| ShardRing.AddingMovesOnlyToNew | src/shard.rs:82-89 | For any hash, collisions included, a ring with one more shard sends every id to its old shard or to the new one |
| ShardRing.RemovingMovesOnlyItsOwn | src/shard.rs:82-89 | A ring without a shard moves only the ids that were on it |
| ShardRing.BuildRing | src/shard.rs:82-89 | At every point of some virtual node stands the last of its shards in order, and nothing elsewhere |
| Formats.PointIsHashed | src/shard.rs:85-87 | A virtual node lies where the hash puts the shard's name, a number sign and its number in decimal digits |
| ShardRing.ShardFor | src/shard.rs:120-132 | The owner of the first point at or after the hash, else of the first point of all; none exactly for an empty ring |
| ShardRouter.Router.Insert | src/shard.rs:135-145 | Every document stays in the shard the ring names for it if and only if an id was given or the generated one goes where the empty id goes; then it is an insert into one map. Exact indexes stay exact if and only if the insert takes no document's place, or one whose tokens it has |
| ShardRouter.Router.Get | src/shard.rs:148-151 | Looking an id up is looking it up in one map |
| ShardRouter.Router.Update | src/shard.rs:154-163 | Updating an id is updating it in one map, with the errors for no shards and unknown ids; exact indexes stay exact |
| ShardRouter.Router.Delete | src/shard.rs:166-175 | Deleting an id is deleting it from one map; exact indexes stay exact |
| ShardRouter.Router.QueryAll | src/shard.rs:178-191 | With exact indexes, which opening gives and the calls keep, exactly the documents of the one map that satisfy the query, each once, sorted by id |
| RouterRuns.QueryAfter | src/shard.rs:135-191 | After any run of inserts with an id, updates and deletes on a new router, in which no insert takes the place of a document with a token it lacks, a query of all shards is the query over the one map of the same calls, sorted by id |
| ShardRouter.Router.Rebalance | src/shard.rs:216-252 | Moves exactly the documents the ring sends to the target, leaves none of them behind, and fails if and only if the source does not exist; in a router that has grown by the target it settles the source and keeps the one map; exact indexes stay exact if and only if no moved document takes the place of one with a token it lacks |
| ShardRouter.Router.Settled | src/shard.rs:216-252 | When every old shard has been rebalanced into a new one, every document is in the shard the ring names, so the router looks like one map again |
| ShardRouter.GrownDrifts | src/shard.rs:82-98 | Adding a shard to a placed router misplaces only documents that belong to the new shard |
| ShardRouter.RebalanceSettles | src/shard.rs:216-252 | Rebalancing one old shard into the new one leaves misplaced documents only in the old shards still to come, and the same documents over all |
| ShardMoves.ConservedIff | src/shard.rs:216-252 | Moving keeps the number of documents if and only if the target held none of the moved ids, and the documents themselves if and only if it held no other under them |
| ShardMoves.MovedExactIff | src/shard.rs:216-252 | The target's index stays exact if and only if no document it held under a moved id has a token that the moved one lacks |
| ShardRouter.OnlyAtHome | src/shard.rs:148-151 | Where documents are placed by the ring, the named shard alone decides whether an id exists |

Where code and documentation disagree, the model follows the code: a missing previous log entry
counts as consistent; acknowledgements are counted without looking at them; `and` binds looser than
`or`; the checksum of a log record is written and never read; the version and page size in the main
file's header are not checked.

## Left out

- Cluster ticks, elections by timer, failover, health records and configuration files: a tick answers its own vote requests, which is not the protocol.
- Adding and removing Raft peers: they change the match indices and not the peers, so the quorums would differ; membership is fixed.
- Restoring arbitrary serialised Raft state: only the restart that keeps a node's own persistent state is a step.
- RaftSafety.StateMachineSafety: holds under (G), (T) and (C), which the program does not enforce; `AnnouncementBreaksSafety` is a run within (G) and (T) that breaks it.
- Locks, timers, overflow of 64-bit counters and of the 32-bit nesting depth.
- RaftCompleteness.LeaderCompleteness: holds under (G) and (T), which the program does not enforce; `LateAckBreaksCompleteness` is a run that breaks it with one delivery against (T), and `GapBreaksMatching` one that breaks the log matching under it with one delivery against (G).
- Compaction of the engine after its allocation loop, and loading from main pages: the trailer is written at one page and looked for at another, so recovery is stated for runs without compaction.
- Engine.CassetteEngine.Open: takes a main file with at most its header page, and does not model loading documents from main pages.
- Transaction helpers of the log (begin, commit, abort): each appends one record. Errors returned by a replay callback.
- Engine.CassetteEngine.Insert: for ids, payloads and feed records of 2^32 bytes or more, whose length fields are cut, only documents and index are stated; so for Update and Delete.
- PageStorage.Storage.WritePage: the free list is stated to be kept only when the page is in use; the caller may overwrite a free page's link.
- Subscribers of the change feed; truncating the feed while a follower polls it.
- ShardRouter.Router.Rebalance: asks for two different shards, and the router holds the values of engines and not the objects: two open handles on the same files, each with its own numbering of the feed, are not modelled.
- RouterRuns.QueryAfter: inserts carry an id; one that is generated after routing may belong to another shard, as `Router.Insert` says.
- Which node a shard belongs to, shard allocation, reassigning failed nodes.
- The unordered results of hash maps are any order; the order of equal scores in a search and of documents under one key of a range query is not fixed.
- QueryRoundTrip.RoundTrip: atoms are free of spaces, parentheses and comparison operators, as the printer's canonical form; numerals are those the library reads back.
- Error positions and messages of the parser, except that the cuts at bytes 20 and 40 may panic.
- `open_with_wal`, JSONPath queries, snapshots and the owned variants of queries, distributed transactions, tantivy search.
- Servers, authentication, pools, command line, bindings, backup and crash reports: I/O and wrappers.
