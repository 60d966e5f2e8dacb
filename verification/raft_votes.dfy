/** What single handlers of a node promise their callers: votes, elections, proposals, later terms,
    restarts and applying. */
module RaftVotes {
  import opened Options
  import opened RaftNodeSpec

  // ---------- Which log is at least as complete ----------

  predicate AtLeast(a: Log, b: Log) {
    UpToDate(LastTerm(a), |a|, b)
  }

  /** Of any two logs one is at least as up to date as the other, and both are exactly when they end
      in the same term at the same index. */
  lemma UpToDateIsTotal(a: Log, b: Log)
    ensures AtLeast(a, b) || AtLeast(b, a)
    ensures AtLeast(a, b) && AtLeast(b, a) <==> |a| == |b| && LastTerm(a) == LastTerm(b)
  {
  }

  lemma UpToDateIsTransitive(a: Log, b: Log, c: Log)
    requires AtLeast(a, b) && AtLeast(b, c)
    ensures AtLeast(a, c)
  {
  }

  /** A log whose terms do not fall is at least as up to date as every part of it from the start, and
      no proper part is as up to date as the whole. */
  lemma LongerIsUpToDate(a: Log, b: Log)
    requires a <= b && forall i, j | 0 <= i < j < |b| :: b[i].term <= b[j].term
    ensures AtLeast(b, a) && (AtLeast(a, b) <==> a == b)
  {
    if 0 < |a| < |b| {
      assert a[|a| - 1] == b[|a| - 1];
    }
  }

  // ---------- Votes ----------

  /** The vote of a node in a term, if it has cast one. */
  function VoteIn(n: Node, term: nat): Option<NodeId> {
    if term == n.currentTerm then n.votedFor else None
  }

  /** A vote is granted exactly to a candidate of a term that has not passed, whose log is at least
      as complete, and which is the one voted for in that term if there is one. */
  lemma GrantedIff(n: Node, req: VoteRequest)
    ensures var (n', res) := HandleVoteRequest(n, req);
      && (res.granted <==> req.term >= n.currentTerm && UpToDate(req.lastLogTerm, req.lastLogIndex, n.log)
                           && (VoteIn(n, req.term).Some? ==> VoteIn(n, req.term).value == req.candidateId))
      && (res.granted ==> VoteIn(n', req.term) == Some(req.candidateId))
      && res.term == n'.currentTerm == (if req.term > n.currentTerm then req.term else n.currentTerm)
  {
  }

  /** A request that is repeated, because an answer was lost, is granted again and changes nothing. */
  lemma RepeatedVote(n: Node, req: VoteRequest)
    requires HandleVoteRequest(n, req).1.granted
    ensures var (n', res) := HandleVoteRequest(n, req); HandleVoteRequest(n', req) == (n', res)
  {
  }

  /** A candidate becomes leader exactly when a granted vote of its term gives it a strict majority
      of all nodes, itself included. */
  lemma ElectedIffMajority(n: Node, voter: NodeId, vote: VoteResponse)
    requires n.role == Candidate && vote.term == n.currentTerm
    ensures var (n', won) := RecordVote(n, voter, vote);
      var votes := |n.votesReceived| + if vote.granted && voter !in n.votesReceived then 1 else 0;
      && |n'.votesReceived| == votes
      && (won <==> 2 * votes > |n.peers| + 1) && (won <==> n'.role == Leader)
      && (won ==> n'.leaderId == Some(n.id))
  {
    hide Store;
  }

  /** Votes of other terms, or to a node that is no candidate, change nothing but that a later term
      is taken up. */
  lemma OtherVotes(n: Node, voter: NodeId, vote: VoteResponse)
    requires vote.term < n.currentTerm || (vote.term == n.currentTerm && n.role != Candidate)
    ensures RecordVote(n, voter, vote) == (n, false)
  {
  }

  // ---------- Later terms ----------

  /** The node follows in this term, with no vote and no known leader. */
  predicate FollowsIn(n': Node, n: Node, term: nat) {
    && n'.currentTerm == term && n'.role == Follower && n'.votedFor == None && n'.leaderId == None
    && n'.log == n.log && n'.commitIndex == n.commitIndex && n'.lastApplied == n.lastApplied
  }

  /** Any answer of a later term makes a node a follower in that term; a request of a later term
      does so too, and then the node may vote or learn the leader. */
  lemma LaterTermIsFollowed(n: Node, other: NodeId, vote: VoteResponse, ack: AppendResponse, ask: VoteRequest)
    requires vote.term > n.currentTerm && ack.term > n.currentTerm && ask.term > n.currentTerm
    ensures FollowsIn(RecordVote(n, other, vote).0, n, vote.term) && !RecordVote(n, other, vote).1
    ensures FollowsIn(RecordAppendSuccess(n, other, ack), n, ack.term)
    ensures FollowsIn(RecordAppendFailure(n, other, ack), n, ack.term)
    ensures var n' := HandleVoteRequest(n, ask).0;
            n'.votedFor in {None, Some(ask.candidateId)} && FollowsIn(n'.(votedFor := None), n, ask.term)
  {
  }

  // ---------- Proposing ----------

  /** A leader's proposal is the entry at the index returned, in its term; nobody else takes one. */
  lemma ProposedIsThere(n: Node, command: ClusterCommand)
    ensures var (n', index) := Propose(n, command);
      && (index.Some? <==> n.role == Leader)
      && (index.Some? ==> 1 <= index.value == |n'.log| && n'.log[index.value - 1].command == command
                          && n'.log[index.value - 1].index == index.value && TermAt(n'.log, index.value) == n.currentTerm
                          && n'.log[..index.value - 1] == n.log)
      && n'.(log := n.log) == n
  {
    assert (n.log + [LogEntry(|n.log| + 1, n.currentTerm, command)])[..|n.log|] == n.log;
  }

  // ---------- Starting and restarting ----------

  /** A new node follows in term 0, has nothing, and would send every peer everything; a restarted
      one has its term, vote and log, and is otherwise new. */
  lemma StartsFresh(n: Node, id: NodeId, peers: seq<NodeId>, p: NodeId)
    requires p in peers && p in n.peers
    ensures var f := InitialNode(id, peers);
      && f.currentTerm == 0 && f.votedFor == None && f.log == [] && f.role == Follower && f.leaderId == None
      && f.commitIndex == 0 && f.lastApplied == 0 && f.votesReceived == [] && f.id == id && f.peers == peers
      && p in f.nextIndex && f.nextIndex[p] == 1 && p in f.matchIndex && f.matchIndex[p] == 0
    ensures var r := Restart(n);
      && r.id == n.id && r.peers == n.peers && r.currentTerm == n.currentTerm && r.votedFor == n.votedFor && r.log == n.log
      && r.role == Follower && r.leaderId == None && r.commitIndex == 0 && r.lastApplied == 0 && r.votesReceived == []
      && p in r.nextIndex && r.nextIndex[p] == 1 && p in r.matchIndex && r.matchIndex[p] == 0
  {
    StoreSets(map[], peers, 1);
    StoreSets(map[], peers, 0);
    StoreSets(map[], n.peers, 1);
    StoreSets(map[], n.peers, 0);
  }

  // ---------- Applying ----------

  lemma {:induction false} CommandsJoin(log: Log, lo: nat, mid: nat, hi: nat)
    requires lo <= mid <= hi
    ensures CommandsBetween(log, lo, hi) == CommandsBetween(log, lo, mid) + CommandsBetween(log, mid, hi)
    decreases mid - lo
  {
    if lo < mid {
      CommandsJoin(log, lo + 1, mid, hi);
    } else {
      assert CommandsBetween(log, lo, mid) == [];
    }
  }

  /** Nothing is applied twice and nothing is left out: what a node applies now and what it applies
      after its commit index has grown are together what it would have applied at once. */
  lemma AppliedOnce(n: Node, later: nat)
    requires n.lastApplied <= n.commitIndex <= later
    ensures var (n', commands) := ApplyCommitted(n);
      && n'.commitIndex == n.commitIndex && ApplyCommitted(n') == (n', [])
      && commands + ApplyCommitted(n'.(commitIndex := later)).1 == ApplyCommitted(n.(commitIndex := later)).1
      && ApplyCommitted(n'.(commitIndex := later)).0 == ApplyCommitted(n.(commitIndex := later)).0
  {
    CommandsJoin(n.log, n.lastApplied, n.commitIndex, later);
  }
}
