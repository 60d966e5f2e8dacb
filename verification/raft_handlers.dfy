/** `RaftNode`: the handlers that update a node's fields in place. Each is proved to take the
    node's state to the value that raft_node.dfy gives. */
module RaftHandlers {
  import opened Options
  import opened RaftNodeSpec
  import RaftQuorum

  class RaftNode {
    const id: NodeId
    const peers: seq<NodeId>
    var currentTerm: nat
    var votedFor: Option<NodeId>
    var log: Log
    var commitIndex: nat
    var lastApplied: nat
    var role: Role
    var leaderId: Option<NodeId>
    var votesReceived: seq<NodeId>
    var nextIndex: map<NodeId, nat>
    var matchIndex: map<NodeId, nat>

    function State(): Node
      reads this
    {
      Node(id, peers, currentTerm, votedFor, log, commitIndex, lastApplied, role, leaderId,
           votesReceived, nextIndex, matchIndex)
    }

    constructor (id: NodeId, peers: seq<NodeId>)
      ensures State() == InitialNode(id, peers)
    {
      var next: map<NodeId, nat>, match_: map<NodeId, nat> := map[], map[];
      for i := 0 to |peers|
        invariant next == Store(map[], peers[..i], 1)
        invariant match_ == Store(map[], peers[..i], 0)
      {
        assert peers[..i + 1][..i] == peers[..i];
        next := next[peers[i] := 1];
        match_ := match_[peers[i] := 0];
      }
      assert peers[..|peers|] == peers;
      this.id, this.peers := id, peers;
      currentTerm, votedFor, log := 0, None, [];
      commitIndex, lastApplied, role, leaderId, votesReceived := 0, 0, Follower, None, [];
      nextIndex, matchIndex := next, match_;
    }

    method Propose(command: ClusterCommand) returns (index: Option<nat>)
      modifies this
      ensures (State(), index) == RaftNodeSpec.Propose(old(State()), command)
    {
      if role != Leader {
        return None;
      }
      var next := |log| + 1;
      log := log + [LogEntry(next, currentTerm, command)];
      return Some(next);
    }

    method StartElection() returns (req: VoteRequest)
      modifies this
      ensures (State(), req) == RaftNodeSpec.StartElection(old(State()))
    {
      currentTerm := currentTerm + 1;
      votedFor := Some(id);
      role := Candidate;
      votesReceived := [id];
      req := VoteRequest(currentTerm, id, |log|, LastTerm(log));
    }

    method HandleRequestVote(req: VoteRequest) returns (res: VoteResponse)
      modifies this
      ensures (State(), res) == HandleVoteRequest(old(State()), req)
    {
      if req.term > currentTerm {
        currentTerm, votedFor, role, leaderId := req.term, None, Follower, None;
      }
      if req.term < currentTerm {
        return VoteResponse(currentTerm, false);
      }
      var logOk := req.lastLogTerm > LastTerm(log)
                   || (req.lastLogTerm == LastTerm(log) && req.lastLogIndex >= |log|);
      var granted := logOk && (votedFor == None || votedFor == Some(req.candidateId));
      if granted {
        votedFor := Some(req.candidateId);
      }
      return VoteResponse(currentTerm, granted);
    }

    method RecordVote(voter: NodeId, res: VoteResponse) returns (won: bool)
      modifies this
      ensures (State(), won) == RaftNodeSpec.RecordVote(old(State()), voter, res)
    {
      if res.term > currentTerm {
        currentTerm, votedFor, role, leaderId := res.term, None, Follower, None;
        return false;
      }
      if res.term < currentTerm || role != Candidate {
        return false;
      }
      if res.granted && voter !in votesReceived {
        votesReceived := votesReceived + [voter];
      }
      var quorum := (|peers| + 1) / 2 + 1;
      won := |votesReceived| >= quorum;
      if won {
        role, leaderId := Leader, Some(id);
        ResetProgress();
      }
    }

    /** What a new leader assumes of its peers. */
    method ResetProgress()
      modifies `nextIndex, `matchIndex
      ensures nextIndex == Store(old(nextIndex), peers, |log| + 1)
      ensures matchIndex == Store(old(matchIndex), peers, 0)
    {
      for i := 0 to |peers|
        invariant nextIndex == Store(old(nextIndex), peers[..i], |log| + 1)
        invariant matchIndex == Store(old(matchIndex), peers[..i], 0)
      {
        assert peers[..i + 1][..i] == peers[..i];
        nextIndex := nextIndex[peers[i] := |log| + 1];
        matchIndex := matchIndex[peers[i] := 0];
      }
      assert peers[..|peers|] == peers;
    }

    method Heartbeat(peer: NodeId) returns (req: AppendRequest)
      ensures req == HeartbeatFor(State(), peer)
    {
      var next := if peer in nextIndex then nextIndex[peer] else 1;
      var prev := if next == 0 then 0 else next - 1;
      req := AppendRequest(currentTerm, id, prev, TermAt(log, prev), [], commitIndex);
    }

    method HandleAppendEntries(req: AppendRequest) returns (res: AppendResponse)
      modifies this
      ensures (State(), res) == HandleAppend(old(State()), req)
    {
      if req.term > currentTerm {
        currentTerm, votedFor, role := req.term, None, Follower;
      }
      if req.term < currentTerm {
        return AppendResponse(currentTerm, false, 0);
      }
      role, leaderId := Follower, Some(req.leaderId);

      var previous := if req.prevLogIndex == 0 then Some(0)
                      else if req.prevLogIndex <= |log| then Some(log[req.prevLogIndex - 1].term) else None;
      var consistent := (if previous.Some? then previous.value else req.prevLogTerm) == req.prevLogTerm;
      if !consistent {
        return AppendResponse(currentTerm, false, 0);
      }

      MergeEntries(req.entries);
      if req.leaderCommit > commitIndex {
        commitIndex := Min(req.leaderCommit, |log|);
      }
      return AppendResponse(currentTerm, true, req.prevLogIndex + |req.entries|);
    }

    /** The loop that truncates at conflicts and appends. */
    method MergeEntries(entries: Log)
      modifies `log
      ensures log == Merge(old(log), entries)
    {
      for i := 0 to |entries|
        invariant Merge(log, entries[i..]) == Merge(old(log), entries)
      {
        var e := entries[i];
        assert entries[i..][1..] == entries[i + 1..];
        if e.index > |log| {
          log := log + [e];
        } else if e.index >= 1 && log[e.index - 1].term != e.term {
          log := log[..e.index - 1];
          log := log + [e];
        }
      }
    }

    method RecordAppendSuccess(peer: NodeId, res: AppendResponse)
      modifies this
      ensures State() == RaftNodeSpec.RecordAppendSuccess(old(State()), peer, res)
    {
      if res.term > currentTerm {
        currentTerm, votedFor, role, leaderId := res.term, None, Follower, None;
        return;
      }
      if role != Leader {
        return;
      }
      matchIndex := matchIndex[peer := res.matchIndex];
      nextIndex := nextIndex[peer := res.matchIndex + 1];
      if res.matchIndex > commitIndex {
        var quorumMatch := RaftQuorum.QuorumMatch(matchIndex, |log|);
        ghost var m := State();
        forall q | MayCommit(m, q) ensures q == quorumMatch {
          QuorumMatchUnique(matchIndex, |log|, q, quorumMatch);
        }
        if quorumMatch > commitIndex && TermAt(log, quorumMatch) == currentTerm {
          assert MayCommit(m, quorumMatch);
          commitIndex := quorumMatch;
        }
      }
    }

    method RecordAppendFailure(peer: NodeId, res: AppendResponse)
      modifies this
      ensures State() == RaftNodeSpec.RecordAppendFailure(old(State()), peer, res)
    {
      if res.term > currentTerm {
        currentTerm, votedFor, role, leaderId := res.term, None, Follower, None;
        return;
      }
      if role != Leader {
        return;
      }
      var next := if peer in nextIndex then nextIndex[peer] else 1;
      if next > 1 {
        nextIndex := nextIndex[peer := next - 1];
      }
    }

    method ApplyCommitted() returns (applied: seq<ClusterCommand>)
      modifies this
      ensures (State(), applied) == RaftNodeSpec.ApplyCommitted(old(State()))
    {
      applied := [];
      ghost var from := lastApplied;
      while lastApplied < commitIndex
        invariant from <= lastApplied && (lastApplied <= commitIndex || lastApplied == from)
        invariant State() == old(State()).(lastApplied := lastApplied)
        invariant applied == CommandsBetween(log, from, lastApplied)
      {
        CommandsSnoc(log, from, lastApplied + 1);
        lastApplied := lastApplied + 1;
        if lastApplied <= |log| {
          applied := applied + [log[lastApplied - 1].command];
        }
      }
    }
  }

  lemma {:induction false} CommandsSnoc(log: Log, lo: nat, hi: nat)
    requires lo < hi
    ensures CommandsBetween(log, lo, hi)
         == CommandsBetween(log, lo, hi - 1) + (if hi <= |log| then [log[hi - 1].command] else [])
    decreases hi - lo
  {
    if lo + 1 < hi {
      CommandsSnoc(log, lo + 1, hi);
    }
  }
}
