/** A cluster of fixed membership over a network that loses, repeats and reorders messages:
    a sent message stays in `net` and may be delivered any number of times, or never. */
module RaftCluster {
  import opened Options
  import opened RaftNodeSpec

  datatype Message =
    | VoteAsk(src: NodeId, dst: NodeId, ask: VoteRequest)
    | VoteReply(src: NodeId, dst: NodeId, vote: VoteResponse)
    | AppendAsk(src: NodeId, dst: NodeId, append: AppendRequest)
    | AppendReply(src: NodeId, dst: NodeId, ack: AppendResponse)

  /** A vote cast, with the voter's log at that moment. */
  datatype Ballot = Ballot(candidate: NodeId, log: Log)

  /** A term that had a leader: the leader's log when elected, and the longest it has had since. */
  datatype Election = Election(leader: NodeId, start: Log, log: Log)

  /** What has happened so far. No step reads it; the proofs do. */
  datatype History = History(
    ballots: map<(NodeId, nat), Ballot>, campaigns: map<(NodeId, nat), Log>, elections: map<nat, Election>)

  datatype Cluster = Cluster(nodes: map<NodeId, Node>, net: set<Message>, past: History)

  datatype Step =
    | Campaign(at: NodeId)
    | ReceiveVoteAsk(m: Message)
    | ReceiveVote(m: Message)
    | Client(at: NodeId, command: ClusterCommand)
    | SendHeartbeat(at: NodeId, peer: NodeId)
    | SendEntries(at: NodeId, peer: NodeId, lo: nat, hi: nat)
    | ReceiveAppend(m: Message)
    | ReceiveSuccess(m: Message)
    | ReceiveFailure(m: Message)
    | CrashAndRestart(at: NodeId)
    | ApplyEntries(at: NodeId)

  function Actor(step: Step): NodeId {
    match step
    case Campaign(at) => at
    case Client(at, _) => at
    case SendHeartbeat(at, _) => at
    case SendEntries(at, _, _, _) => at
    case CrashAndRestart(at) => at
    case ApplyEntries(at) => at
    case _ => step.m.dst
  }

  /** Peers are all the other nodes, each once. */
  ghost predicate Config(s: Cluster) {
    forall i | i in s.nodes ::
      && s.nodes[i].id == i
      && (forall p :: p in s.nodes[i].peers <==> p in s.nodes && p != i)
      && |s.nodes[i].peers| + 1 == |s.nodes|
  }

  ghost predicate Init(s: Cluster) {
    && Config(s) && s.net == {} && s.past == History(map[], map[], map[])
    && forall i | i in s.nodes :: s.nodes[i] == InitialNode(i, s.nodes[i].peers)
  }

  ghost predicate Enabled(s: Cluster, step: Step) {
    && Actor(step) in s.nodes
    && match step
       case ReceiveVoteAsk(m) => m in s.net && m.VoteAsk?
       case ReceiveVote(m) => m in s.net && m.VoteReply?
       case SendHeartbeat(at, peer) => s.nodes[at].role == Leader && peer in s.nodes[at].peers
       case SendEntries(at, peer, lo, hi) =>
         s.nodes[at].role == Leader && peer in s.nodes[at].peers && lo <= hi <= |s.nodes[at].log|
       case ReceiveAppend(m) => m in s.net && m.AppendAsk?
       case ReceiveSuccess(m) => m in s.net && m.AppendReply?
       case ReceiveFailure(m) => m in s.net && m.AppendReply?
       case _ => true
  }

  /** The actor after the step, and what it sends. */
  ghost function Act(s: Cluster, step: Step): (Node, set<Message>)
    requires Enabled(s, step)
  {
    var n := s.nodes[Actor(step)];
    match step
    case Campaign(_) =>
      var (n', ask) := StartElection(n);
      (n', set p | p in n.peers :: VoteAsk(n.id, p, ask))
    case ReceiveVoteAsk(m) =>
      var (n', vote) := HandleVoteRequest(n, m.ask);
      (n', {VoteReply(n.id, m.ask.candidateId, vote)})
    case ReceiveVote(m) => (RecordVote(n, m.src, m.vote).0, {})
    case Client(_, command) => (Propose(n, command).0, {})
    case SendHeartbeat(_, peer) => (n, {AppendAsk(n.id, peer, HeartbeatFor(n, peer))})
    case SendEntries(_, peer, lo, hi) => (n, {AppendAsk(n.id, peer, ReplicateRequest(n, lo, hi))})
    case ReceiveAppend(m) =>
      var (n', ack) := HandleAppend(n, m.append);
      (n', {AppendReply(n.id, m.append.leaderId, ack)})
    case ReceiveSuccess(m) => (RecordAppendSuccess(n, m.src, m.ack), {})
    case ReceiveFailure(m) => (RecordAppendFailure(n, m.src, m.ack), {})
    case CrashAndRestart(_) => (Restart(n), {})
    case ApplyEntries(_) => (ApplyCommitted(n).0, {})
  }

  // ---------- What every step keeps ----------

  /** A node never lowers its term and never changes its vote within a term. */
  ghost predicate KeepsVote(n: Node, n': Node) {
    && n'.id == n.id && n'.peers == n.peers
    && n'.currentTerm >= n.currentTerm
    && (n'.currentTerm == n.currentTerm && n.votedFor.Some? ==> n'.votedFor == n.votedFor)
    && (n'.votedFor != n.votedFor && n'.votedFor.Some? ==> n'.log == n.log)
  }

  lemma VotingKeepsVote(n: Node, ask: VoteRequest, voter: NodeId, vote: VoteResponse)
    ensures KeepsVote(n, StartElection(n).0) && KeepsVote(n, HandleVoteRequest(n, ask).0)
    ensures KeepsVote(n, RecordVote(n, voter, vote).0)
  {
  }

  lemma AppendKeepsVote(n: Node, req: AppendRequest)
    ensures KeepsVote(n, HandleAppend(n, req).0)
  {
    hide Merge;
  }

  lemma AnswersKeepVote(n: Node, peer: NodeId, ack: AppendResponse)
    ensures KeepsVote(n, RecordAppendSuccess(n, peer, ack)) && KeepsVote(n, RecordAppendFailure(n, peer, ack))
  {
    hide MayCommit;
  }

  lemma OwnKeepsVote(n: Node, command: ClusterCommand)
    ensures KeepsVote(n, n) && KeepsVote(n, Propose(n, command).0)
    ensures KeepsVote(n, Restart(n)) && KeepsVote(n, ApplyCommitted(n).0)
  {
    hide Store;
    hide CommandsBetween;
  }

  lemma ActKeepsVote(s: Cluster, step: Step)
    requires Enabled(s, step)
    ensures KeepsVote(s.nodes[Actor(step)], Act(s, step).0)
  {
    hide KeepsVote;
    hide StartElection;
    hide HandleVoteRequest;
    hide RecordVote;
    hide HandleAppend;
    hide RecordAppendSuccess;
    hide RecordAppendFailure;
    hide Propose;
    hide Restart;
    hide ApplyCommitted;
    var n := s.nodes[Actor(step)];
    match step {
      case Campaign(_) => VotingKeepsVote(n, VoteRequest(0, n.id, 0, 0), n.id, VoteResponse(0, false));
      case ReceiveVoteAsk(m) => VotingKeepsVote(n, m.ask, n.id, VoteResponse(0, false));
      case ReceiveVote(m) => VotingKeepsVote(n, VoteRequest(0, n.id, 0, 0), m.src, m.vote);
      case ReceiveAppend(m) => AppendKeepsVote(n, m.append);
      case ReceiveSuccess(m) => AnswersKeepVote(n, m.src, m.ack);
      case ReceiveFailure(m) => AnswersKeepVote(n, m.src, m.ack);
      case Client(_, command) => OwnKeepsVote(n, command);
      case _ => OwnKeepsVote(n, NoOp);
    }
  }

  // ---------- What only some steps change ----------

  predicate SameLog(n: Node, n': Node) {
    n'.log == n.log
  }

  /** The counts of acknowledgements are as they were, and nobody becomes leader. */
  predicate SameMatches(n: Node, n': Node) {
    n'.matchIndex == n.matchIndex && (n'.role == Leader ==> n.role == Leader && n'.currentTerm == n.currentTerm)
  }

  predicate SameCommit(n: Node, n': Node) {
    n'.commitIndex == n.commitIndex || n'.commitIndex == 0
  }

  predicate CandidateLog(n: Node, n': Node) {
    n'.role == Candidate ==> n'.log == n.log
  }

  ghost predicate Routine(step: Step, n: Node, n': Node) {
    && CandidateLog(n, n')
    && (step.ReceiveAppend? || step.Client? || SameLog(n, n'))
    && (step.ReceiveSuccess? || step.ReceiveVote? || step.CrashAndRestart? || SameMatches(n, n'))
    && (step.ReceiveSuccess? || step.ReceiveAppend? || SameCommit(n, n'))
  }

  lemma VotingIsRoutine(n: Node, ask: VoteRequest, voter: NodeId, vote: VoteResponse)
    ensures var n' := StartElection(n).0;
            CandidateLog(n, n') && SameLog(n, n') && SameMatches(n, n') && SameCommit(n, n')
    ensures var n' := HandleVoteRequest(n, ask).0;
            CandidateLog(n, n') && SameLog(n, n') && SameMatches(n, n') && SameCommit(n, n')
    ensures var n' := RecordVote(n, voter, vote).0; CandidateLog(n, n') && SameLog(n, n') && SameCommit(n, n')
  {
    hide Store;
    hide UpToDate;
  }

  lemma AppendIsRoutine(n: Node, req: AppendRequest)
    ensures CandidateLog(n, HandleAppend(n, req).0) && SameMatches(n, HandleAppend(n, req).0)
  {
    hide Merge;
  }

  lemma AnswersAreRoutine(n: Node, peer: NodeId, ack: AppendResponse)
    ensures CandidateLog(n, RecordAppendSuccess(n, peer, ack)) && SameLog(n, RecordAppendSuccess(n, peer, ack))
    ensures var n' := RecordAppendFailure(n, peer, ack);
            CandidateLog(n, n') && SameLog(n, n') && SameMatches(n, n') && SameCommit(n, n')
  {
    hide MayCommit;
  }

  lemma OwnIsRoutine(n: Node, command: ClusterCommand)
    ensures CandidateLog(n, n) && SameLog(n, n) && SameMatches(n, n) && SameCommit(n, n)
    ensures var n' := Propose(n, command).0; CandidateLog(n, n') && SameMatches(n, n') && SameCommit(n, n')
    ensures CandidateLog(n, Restart(n)) && SameLog(n, Restart(n)) && SameCommit(n, Restart(n))
    ensures var n' := ApplyCommitted(n).0;
            CandidateLog(n, n') && SameLog(n, n') && SameMatches(n, n') && SameCommit(n, n')
  {
    hide Store;
    hide CommandsBetween;
  }

  lemma ActIsRoutine(s: Cluster, step: Step)
    requires Enabled(s, step)
    ensures Routine(step, s.nodes[Actor(step)], Act(s, step).0)
  {
    hide CandidateLog;
    hide SameLog;
    hide SameMatches;
    hide SameCommit;
    hide StartElection;
    hide HandleVoteRequest;
    hide RecordVote;
    hide HandleAppend;
    hide RecordAppendSuccess;
    hide RecordAppendFailure;
    hide Propose;
    hide Restart;
    hide ApplyCommitted;
    var n := s.nodes[Actor(step)];
    match step {
      case Campaign(_) => VotingIsRoutine(n, VoteRequest(0, n.id, 0, 0), n.id, VoteResponse(0, false));
      case ReceiveVoteAsk(m) => VotingIsRoutine(n, m.ask, n.id, VoteResponse(0, false));
      case ReceiveVote(m) => VotingIsRoutine(n, VoteRequest(0, n.id, 0, 0), m.src, m.vote);
      case ReceiveAppend(m) => AppendIsRoutine(n, m.append);
      case ReceiveSuccess(m) => AnswersAreRoutine(n, m.src, m.ack);
      case ReceiveFailure(m) => AnswersAreRoutine(n, m.src, m.ack);
      case Client(_, command) => OwnIsRoutine(n, command);
      case _ => OwnIsRoutine(n, NoOp);
    }
  }

  lemma ActKeepsId(s: Cluster, step: Step)
    requires Config(s) && Enabled(s, step)
    ensures Act(s, step).0.id == Actor(step) && Act(s, step).0.peers == s.nodes[Actor(step)].peers
  {
    ActKeepsVote(s, step);
    hide Act;
  }

  // ---------- Runs ----------

  function Remember(past: History, n: Node, n': Node): History {
    var key := (n'.id, n'.currentTerm);
    var voted := n'.votedFor.Some? && (n'.votedFor != n.votedFor || n'.currentTerm != n.currentTerm);
    var campaigns := n'.role == Candidate && n'.currentTerm != n.currentTerm;
    History(
      if voted then past.ballots[key := Ballot(n'.votedFor.value, n'.log)] else past.ballots,
      if campaigns then past.campaigns[key := n'.log] else past.campaigns,
      if n'.role == Leader && n.role != Leader then
        past.elections[n'.currentTerm := Election(n'.id, n'.log, n'.log)]
      else if n'.role == Leader && n'.currentTerm in past.elections then
        past.elections[n'.currentTerm := past.elections[n'.currentTerm].(log := n'.log)]
      else past.elections)
  }

  function Update(s: Cluster, n': Node, sent: set<Message>): Cluster
    requires n'.id in s.nodes
  {
    Cluster(s.nodes[n'.id := n'], s.net + sent, Remember(s.past, s.nodes[n'.id], n'))
  }

  ghost function Next(s: Cluster, step: Step): Cluster
    requires Config(s) && Enabled(s, step)
  {
    ActKeepsId(s, step);
    var (n', sent) := Act(s, step);
    Update(s, n', sent)
  }

  /** (G): at delivery the entry before the new ones lies within the receiver's log. */
  ghost predicate NoGap(s: Cluster, step: Step)
    requires Enabled(s, step)
  {
    step.ReceiveAppend? ==> step.m.append.prevLogIndex <= |s.nodes[step.m.dst].log|
  }

  /** (T): no success of an earlier term that acknowledges entries reaches a leader. Nothing is
      asked of refusals, of responses from later terms, or of what reaches other nodes. */
  ghost predicate SameTerm(s: Cluster, step: Step)
    requires Enabled(s, step)
  {
    step.ReceiveSuccess? ==>
      var n, ack := s.nodes[step.m.dst], step.m.ack;
      n.role == Leader && ack.success && ack.matchIndex > 0 ==> ack.term >= n.currentTerm
  }

  ghost predicate Linked(run: seq<Cluster>, steps: seq<Step>, k: nat)
    requires |run| == |steps| + 1 && k < |steps|
  {
    Config(run[k]) && Enabled(run[k], steps[k]) && run[k + 1] == Next(run[k], steps[k])
  }

  /** A run: states linked by enabled steps from an initial state. */
  ghost predicate Run(run: seq<Cluster>, steps: seq<Step>) {
    |run| == |steps| + 1 && Init(run[0]) && forall k | 0 <= k < |steps| :: Linked(run, steps, k)
  }

  ghost predicate Gapless(run: seq<Cluster>, steps: seq<Step>, k: nat)
    requires Run(run, steps) && k < |steps|
  {
    assert Linked(run, steps, k);
    NoGap(run[k], steps[k])
  }

  ghost predicate GapFree(run: seq<Cluster>, steps: seq<Step>)
    requires Run(run, steps)
  {
    forall k | 0 <= k < |steps| :: Gapless(run, steps, k)
  }

  ghost predicate CountsInTerm(run: seq<Cluster>, steps: seq<Step>, k: nat)
    requires Run(run, steps) && k < |steps|
  {
    assert Linked(run, steps, k);
    SameTerm(run[k], steps[k])
  }

  ghost predicate AcksInTerm(run: seq<Cluster>, steps: seq<Step>)
    requires Run(run, steps)
  {
    forall k | 0 <= k < |steps| :: CountsInTerm(run, steps, k)
  }

  // ---------- Sets of nodes ----------

  lemma MajoritiesMeet(all: set<NodeId>, a: set<NodeId>, b: set<NodeId>) returns (v: NodeId)
    requires a <= all && b <= all && 2 * |a| > |all| && 2 * |b| > |all|
    ensures v in a && v in b
  {
    if a * b == {} {
      assert |a + b| == |a| + |b|;
      SubsetSize(a + b, all);
      assert false;
    }
    v :| v in a * b;
  }

  lemma SubsetSize(a: set<NodeId>, b: set<NodeId>)
    requires a <= b
    ensures |a| <= |b|
  {
    assert b == a + (b - a);
  }

  lemma {:induction false} DistinctSize(ids: seq<NodeId>)
    requires forall i, j | 0 <= i < j < |ids| :: ids[i] != ids[j]
    ensures |set i | i in ids| == |ids|
  {
    if ids != [] {
      var rest := ids[1..];
      DistinctSize(rest);
      assert (set i | i in ids) == {ids[0]} + set i | i in rest;
    }
  }
}
