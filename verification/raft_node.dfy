/** One Raft node as a value: its state and what each handler of `RaftNode` does to it.
    The class that updates the fields in place is in raft_handlers.dfy. */
module RaftNodeSpec {
  import opened Options

  type NodeId = string

  datatype ShardMap = ShardMap(virtualNodes: nat, shardToNode: map<string, string>)

  datatype ClusterCommand =
    | NoOp
    | AddNode(nodeId: NodeId, address: string)
    | RemoveNode(nodeId: NodeId)
    | UpdateShardMap(shardMap: ShardMap)
    | BeginDistTx(txId: string, participants: seq<NodeId>)
    | CommitDistTx(txId: string)
    | AbortDistTx(txId: string)

  datatype LogEntry = LogEntry(index: nat, term: nat, command: ClusterCommand)

  type Log = seq<LogEntry>

  datatype Role = Follower | Candidate | Leader

  datatype VoteRequest = VoteRequest(term: nat, candidateId: NodeId, lastLogIndex: nat, lastLogTerm: nat)

  datatype VoteResponse = VoteResponse(term: nat, granted: bool)

  datatype AppendRequest = AppendRequest(
    term: nat, leaderId: NodeId, prevLogIndex: nat, prevLogTerm: nat, entries: Log, leaderCommit: nat)

  datatype AppendResponse = AppendResponse(term: nat, success: bool, matchIndex: nat)

  /** The first two fields identify the node, the next three are its `PersistentState`,
      the others its `VolatileState` without the clock. */
  datatype Node = Node(
    id: NodeId, peers: seq<NodeId>,
    currentTerm: nat, votedFor: Option<NodeId>, log: Log,
    commitIndex: nat, lastApplied: nat, role: Role, leaderId: Option<NodeId>,
    votesReceived: seq<NodeId>, nextIndex: map<NodeId, nat>, matchIndex: map<NodeId, nat>)

  // ---------- Reading the log ----------

  /** Term of the entry at a 1-based index, 0 when there is none. */
  function TermAt(log: Log, index: nat): nat {
    if 1 <= index <= |log| then log[index - 1].term else 0
  }

  function LastTerm(log: Log): nat {
    TermAt(log, |log|)
  }

  /** Section 5.4.1 of Raft: a log described by its last term and length is at least
      as complete as `log`. */
  predicate UpToDate(lastTerm: nat, lastIndex: nat, log: Log) {
    lastTerm > LastTerm(log) || (lastTerm == LastTerm(log) && lastIndex >= |log|)
  }

  /** Every entry carries its own position, counted from 1. */
  predicate Indexed(log: Log) {
    forall i | 0 <= i < |log| :: log[i].index == i + 1
  }

  /** Entries numbered consecutively after `prev`, as a slice of a leader's log is. */
  predicate Consecutive(entries: Log, prev: nat) {
    forall i | 0 <= i < |entries| :: entries[i].index == prev + i + 1
  }

  // ---------- Starting, proposing, voting ----------

  /** `base` after the same value is stored under each of the keys in turn. */
  function Store(base: map<NodeId, nat>, keys: seq<NodeId>, value: nat): map<NodeId, nat>
    decreases |keys|
  {
    if keys == [] then base else Store(base, keys[..|keys| - 1], value)[keys[|keys| - 1] := value]
  }

  lemma {:induction false} StoreSets(base: map<NodeId, nat>, keys: seq<NodeId>, value: nat)
    ensures Store(base, keys, value).Keys == base.Keys + set k | k in keys
    ensures forall k | k in keys :: Store(base, keys, value)[k] == value
    decreases |keys|
  {
    if keys != [] {
      var i := |keys| - 1;
      StoreSets(base, keys[..i], value);
      assert keys == keys[..i] + [keys[i]];
    }
  }

  function InitialNode(id: NodeId, peers: seq<NodeId>): Node {
    Node(id, peers, 0, None, [], 0, 0, Follower, None, [],
         Store(map[], peers, 1), Store(map[], peers, 0))
  }

  /** A node rebuilt after a crash: persistent fields kept, volatile ones fresh. */
  function Restart(n: Node): Node {
    InitialNode(n.id, n.peers).(currentTerm := n.currentTerm, votedFor := n.votedFor, log := n.log)
  }

  function Propose(n: Node, command: ClusterCommand): (Node, Option<nat>) {
    if n.role != Leader then (n, None)
    else (n.(log := n.log + [LogEntry(|n.log| + 1, n.currentTerm, command)]), Some(|n.log| + 1))
  }

  function StartElection(n: Node): (Node, VoteRequest) {
    var n' := n.(currentTerm := n.currentTerm + 1, votedFor := Some(n.id),
                 role := Candidate, votesReceived := [n.id]);
    (n', VoteRequest(n'.currentTerm, n.id, |n.log|, LastTerm(n.log)))
  }

  function StepDown(n: Node, term: nat): Node {
    n.(currentTerm := term, votedFor := None, role := Follower, leaderId := None)
  }

  function HandleVoteRequest(n: Node, req: VoteRequest): (Node, VoteResponse) {
    var m := if req.term > n.currentTerm then StepDown(n, req.term) else n;
    if req.term < m.currentTerm then (m, VoteResponse(m.currentTerm, false))
    else
      var granted := UpToDate(req.lastLogTerm, req.lastLogIndex, m.log)
                     && (m.votedFor == None || m.votedFor == Some(req.candidateId));
      (if granted then m.(votedFor := Some(req.candidateId)) else m, VoteResponse(m.currentTerm, granted))
  }

  function RecordVote(n: Node, voter: NodeId, res: VoteResponse): (Node, bool) {
    if res.term > n.currentTerm then (StepDown(n, res.term), false)
    else if res.term < n.currentTerm || n.role != Candidate then (n, false)
    else
      var votes := if res.granted && voter !in n.votesReceived then n.votesReceived + [voter] else n.votesReceived;
      var m := n.(votesReceived := votes);
      if |votes| >= (|n.peers| + 1) / 2 + 1 then (BecomeLeader(m), true) else (m, false)
  }

  function BecomeLeader(n: Node): Node {
    n.(role := Leader, leaderId := Some(n.id),
       nextIndex := Store(n.nextIndex, n.peers, |n.log| + 1),
       matchIndex := Store(n.matchIndex, n.peers, 0))
  }

  // ---------- Sending entries ----------

  function HeartbeatFor(n: Node, peer: NodeId): AppendRequest {
    var next := if peer in n.nextIndex then n.nextIndex[peer] else 1;
    var prev := if next == 0 then 0 else next - 1;
    AppendRequest(n.currentTerm, n.id, prev, TermAt(n.log, prev), [], n.commitIndex)
  }

  /** The request that carries the log slice `[lo, hi)`. */
  function ReplicateRequest(n: Node, lo: nat, hi: nat): AppendRequest
    requires lo <= hi <= |n.log|
  {
    AppendRequest(n.currentTerm, n.id, lo, TermAt(n.log, lo), n.log[lo..hi], n.commitIndex)
  }

  // ---------- Receiving entries ----------

  function MergeOne(log: Log, e: LogEntry): Log {
    if e.index > |log| then log + [e]
    else if e.index >= 1 && log[e.index - 1].term != e.term then log[..e.index - 1] + [e]
    else log
  }

  function Merge(log: Log, entries: Log): Log
    decreases |entries|
  {
    if entries == [] then log else Merge(MergeOne(log, entries[0]), entries[1..])
  }

  /** The check of the entry before the new ones; a missing entry passes it. */
  predicate Consistent(log: Log, req: AppendRequest) {
    req.prevLogIndex > |log| || TermAt(log, req.prevLogIndex) == req.prevLogTerm
  }

  function Min(a: nat, b: nat): nat {
    if a <= b then a else b
  }

  function HandleAppend(n: Node, req: AppendRequest): (Node, AppendResponse) {
    var m := if req.term > n.currentTerm then n.(currentTerm := req.term, votedFor := None, role := Follower) else n;
    if req.term < m.currentTerm then (m, AppendResponse(m.currentTerm, false, 0))
    else
      var f := m.(role := Follower, leaderId := Some(req.leaderId));
      if !Consistent(f.log, req) then (f, AppendResponse(f.currentTerm, false, 0))
      else
        var log := Merge(f.log, req.entries);
        var commit := if req.leaderCommit > f.commitIndex then Min(req.leaderCommit, |log|) else f.commitIndex;
        (f.(log := log, commitIndex := commit),
         AppendResponse(f.currentTerm, true, req.prevLogIndex + |req.entries|))
  }

  // ---------- Counting acknowledgements ----------

  /** How many counted nodes, the leader with its `own` last index included, match `index`. */
  ghost function MatchCount(m: map<NodeId, nat>, own: nat, index: nat): nat {
    |set k | k in m && m[k] >= index| + (if own >= index then 1 else 0)
  }

  /** `q` is matched by a strict majority of the counted nodes and nothing larger is. */
  ghost predicate IsQuorumMatch(m: map<NodeId, nat>, own: nat, q: nat) {
    && 2 * MatchCount(m, own, q) > |m| + 1
    && forall x | x > q :: 2 * MatchCount(m, own, x) <= |m| + 1
  }

  ghost predicate MayCommit(n: Node, q: nat) {
    IsQuorumMatch(n.matchIndex, |n.log|, q) && q > n.commitIndex && TermAt(n.log, q) == n.currentTerm
  }

  lemma QuorumMatchUnique(m: map<NodeId, nat>, own: nat, q: nat, r: nat)
    requires IsQuorumMatch(m, own, q) && IsQuorumMatch(m, own, r)
    ensures q == r
  {
  }

  ghost function RecordAppendSuccess(n: Node, peer: NodeId, res: AppendResponse): Node {
    if res.term > n.currentTerm then StepDown(n, res.term)
    else if n.role != Leader then n
    else
      var m := n.(matchIndex := n.matchIndex[peer := res.matchIndex],
                  nextIndex := n.nextIndex[peer := res.matchIndex + 1]);
      if res.matchIndex > m.commitIndex && exists q :: MayCommit(m, q) then
        var q :| MayCommit(m, q);
        m.(commitIndex := q)
      else m
  }

  function RecordAppendFailure(n: Node, peer: NodeId, res: AppendResponse): Node {
    if res.term > n.currentTerm then StepDown(n, res.term)
    else if n.role != Leader then n
    else
      var next := if peer in n.nextIndex then n.nextIndex[peer] else 1;
      if next > 1 then n.(nextIndex := n.nextIndex[peer := next - 1]) else n
  }

  // ---------- Applying ----------

  /** Commands at the 1-based positions above `lo` and up to `hi`; missing entries give none. */
  function CommandsBetween(log: Log, lo: nat, hi: nat): seq<ClusterCommand>
    decreases hi - lo
  {
    if lo >= hi then []
    else (if lo + 1 <= |log| then [log[lo].command] else []) + CommandsBetween(log, lo + 1, hi)
  }

  function ApplyCommitted(n: Node): (Node, seq<ClusterCommand>) {
    if n.lastApplied >= n.commitIndex then (n, [])
    else (n.(lastApplied := n.commitIndex), CommandsBetween(n.log, n.lastApplied, n.commitIndex))
  }
}
