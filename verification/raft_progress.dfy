/** How a leader brings a follower's log up to its own: where its heartbeats probe, how a refusal
    moves the probe, and that the two find the last entry the logs share. */
module RaftProgress {
  import opened RaftNodeSpec
  import opened RaftCluster
  import opened RaftLogs
  import RaftCompleteness
  import RaftMerge

  // ---------- Where a heartbeat probes ----------

  /** What every heartbeat carries besides its place. */
  predicate Probes(n: Node, peer: NodeId, index: nat) {
    var r := HeartbeatFor(n, peer);
    && r.prevLogIndex == index && r.prevLogTerm == TermAt(n.log, index)
    && r.term == n.currentTerm && r.leaderId == n.id && r.entries == [] && r.leaderCommit == n.commitIndex
  }

  /** A candidate that becomes leader probes every peer at the end of its own log. */
  lemma NewLeaderProbes(n: Node, voter: NodeId, vote: VoteResponse, peer: NodeId)
    requires n.role != Leader && RecordVote(n, voter, vote).0.role == Leader && peer in n.peers
    ensures var n' := RecordVote(n, voter, vote).0;
            Probes(n', peer, |n'.log|) && HeartbeatFor(n', peer).prevLogTerm == LastTerm(n'.log)
  {
    StoreSets(n.nextIndex, n.peers, |n.log| + 1);
  }

  /** After counting an acknowledgement a leader probes the peer where that ends, and the others
      where it did. */
  lemma AckMovesProbe(n: Node, peer: NodeId, ack: AppendResponse, other: NodeId)
    requires n.role == Leader && ack.term <= n.currentTerm
    ensures var n' := RecordAppendSuccess(n, peer, ack);
      && Probes(n', peer, ack.matchIndex)
      && (other != peer ==> Probes(n', other, HeartbeatFor(n, other).prevLogIndex))
  {
    hide MayCommit;
  }

  /** After a refusal it probes the peer one entry earlier and the others as before; at the start
      nothing changes. */
  lemma RefusalMovesProbe(n: Node, peer: NodeId, ack: AppendResponse, other: NodeId)
    requires n.role == Leader && ack.term <= n.currentTerm
    ensures var i, n' := HeartbeatFor(n, peer).prevLogIndex, RecordAppendFailure(n, peer, ack);
      && Probes(n', peer, if i > 0 then i - 1 else 0) && (i == 0 ==> n' == n)
      && (other != peer ==> HeartbeatFor(n', other) == HeartbeatFor(n, other))
      && n'.role == Leader && n'.currentTerm == n.currentTerm && n'.log == n.log && n'.id == n.id
  {
  }

  // ---------- Probing until a heartbeat is accepted ----------

  /** A refused heartbeat has a previous entry; it leaves the follower's log and takes it to the
      leader's term. */
  lemma RefusedProbe(n: Node, peer: NodeId, f: Node)
    requires f.currentTerm <= n.currentTerm
    ensures var i, (f', ack) := HeartbeatFor(n, peer).prevLogIndex, HandleAppend(f, HeartbeatFor(n, peer));
      && f'.log == f.log && f'.currentTerm == n.currentTerm && ack.term == n.currentTerm
      && (ack.success <==> i > |f.log| || TermAt(f.log, i) == TermAt(n.log, i))
      && (!ack.success ==> i > 0)
  {
    RaftMerge.HeartbeatProbes(n, peer, f);
  }

  /** Leader and follower after heartbeats, refusals and their recording have taken turns until a
      heartbeat is accepted; and how many were refused. */
  function Repaired(n: Node, peer: NodeId, f: Node): (Node, Node, nat)
    requires n.role == Leader && f.currentTerm <= n.currentTerm
    decreases HeartbeatFor(n, peer).prevLogIndex
  {
    var (f', ack) := HandleAppend(f, HeartbeatFor(n, peer));
    RefusedProbe(n, peer, f);
    if ack.success then (n, f', 0)
    else
      RefusalMovesProbe(n, peer, ack, peer);
      var (n2, f2, refusals) := Repaired(RecordAppendFailure(n, peer, ack), peer, f');
      (n2, f2, refusals + 1)
  }

  predicate Shared(a: Log, b: Log, k: nat) {
    k <= |a| && k <= |b| && a[..k] == b[..k]
  }

  /** From a probe at i, a follower whose log agrees with the leader's up to k refuses at most
      i - k times. */
  lemma {:induction false} RepairIsBounded(n: Node, peer: NodeId, f: Node, k: nat)
    requires n.role == Leader && f.currentTerm <= n.currentTerm
    requires Shared(f.log, n.log, k) && k <= HeartbeatFor(n, peer).prevLogIndex
    ensures Repaired(n, peer, f).2 <= HeartbeatFor(n, peer).prevLogIndex - k
    decreases HeartbeatFor(n, peer).prevLogIndex
  {
    var i := HeartbeatFor(n, peer).prevLogIndex;
    var (f', ack) := HandleAppend(f, HeartbeatFor(n, peer));
    RefusedProbe(n, peer, f);
    if !ack.success {
      RefusalMovesProbe(n, peer, ack, peer);
      assert k > 0 ==> f.log[k - 1] == f.log[..k][k - 1] == n.log[k - 1];
      hide HandleAppend;
      hide HeartbeatFor;
      hide RecordAppendFailure;
      RepairIsBounded(RecordAppendFailure(n, peer, ack), peer, f', k);
    }
  }

  /** Logs as they are in a run: terms count from 1, and equal terms at a position mean equal logs
      up to it. */
  predicate Matching(a: Log, b: Log) {
    && (forall x | 0 <= x < |a| :: a[x].term >= 1)
    && (forall x | 0 <= x < |a| && x < |b| && a[x].term == b[x].term :: a[..x + 1] == b[..x + 1])
  }

  /** The logs agree up to k and, below i, no further. */
  predicate SharedUpTo(a: Log, b: Log, k: nat, i: nat) {
    Shared(a, b, k) && k <= i && (k < i ==> !Shared(a, b, k + 1))
  }

  lemma {:induction false} SharesLess(a: Log, b: Log, k: nat, j: nat)
    requires Shared(a, b, j) && k <= j
    ensures Shared(a, b, k)
  {
    assert a[..k] == a[..j][..k] && b[..k] == b[..j][..k];
  }

  /** A probe is accepted exactly where the logs agree up to it. */
  lemma ProbeAccepted(n: Node, peer: NodeId, f: Node)
    requires f.currentTerm <= n.currentTerm && Matching(f.log, n.log)
    requires HeartbeatFor(n, peer).prevLogIndex <= |f.log|
    ensures HandleAppend(f, HeartbeatFor(n, peer)).1.success
       <==> Shared(f.log, n.log, HeartbeatFor(n, peer).prevLogIndex)
  {
    var i := HeartbeatFor(n, peer).prevLogIndex;
    RefusedProbe(n, peer, f);
    hide HandleAppend;
    hide HeartbeatFor;
    if Shared(f.log, n.log, i) && i > 0 {
      assert f.log[i - 1] == f.log[..i][i - 1] == n.log[i - 1];
    }
  }

  /** With matching logs and a probe within the follower's, it is refused exactly as often as there
      are entries after the last shared one, and the accepted probe is at that one. */
  lemma {:induction false} RepairFinds(n: Node, peer: NodeId, f: Node, k: nat)
    requires n.role == Leader && f.currentTerm <= n.currentTerm && Matching(f.log, n.log)
    requires HeartbeatFor(n, peer).prevLogIndex <= |f.log|
    requires SharedUpTo(f.log, n.log, k, HeartbeatFor(n, peer).prevLogIndex)
    ensures var (n2, f2, refusals) := Repaired(n, peer, f);
      && refusals == HeartbeatFor(n, peer).prevLogIndex - k && HeartbeatFor(n2, peer).prevLogIndex == k
      && n2.log == n.log && n2.role == Leader && n2.currentTerm == n.currentTerm && n2.id == n.id
      && f2.log == f.log && f2.currentTerm == n.currentTerm
    decreases HeartbeatFor(n, peer).prevLogIndex
  {
    var i := HeartbeatFor(n, peer).prevLogIndex;
    var (f', ack) := HandleAppend(f, HeartbeatFor(n, peer));
    RefusedProbe(n, peer, f);
    ProbeAccepted(n, peer, f);
    RefusalMovesProbe(n, peer, ack, peer);
    hide HandleAppend;
    hide HeartbeatFor;
    hide RecordAppendFailure;
    if k < i && ack.success {
      SharesLess(f.log, n.log, k + 1, i);
    }
    hide Shared;
    hide Matching;
    if !ack.success {
      RepairFinds(RecordAppendFailure(n, peer, ack), peer, f', k);
    }
  }

  /** What the leader sends from there completes the follower's log. */
  lemma RepairCompletes(n: Node, f: Node, k: nat)
    requires f.currentTerm <= n.currentTerm && Indexed(n.log) && Shared(f.log, n.log, k)
    requires forall x | 0 <= x < |f.log| && x < |n.log| && f.log[x].term == n.log[x].term :: f.log[x] == n.log[x]
    ensures var (f', ack) := HandleAppend(f, ReplicateRequest(n, k, |n.log|));
      && ack == AppendResponse(n.currentTerm, true, |n.log|)
      && n.log <= f'.log && (f'.log == n.log || f'.log == f.log)
  {
    hide Merge;
    var entries := n.log[k..|n.log|];
    assert n.log[..k + |entries|] == n.log;
    assert k > 0 ==> f.log[k - 1] == f.log[..k][k - 1] == n.log[k - 1];
    RaftMerge.MergeSlice(f.log, n.log, k, entries);
  }

  // ---------- In runs ----------

  /** Next indices start at 1, and a leader's are within its log or just behind it. */
  ghost predicate NextOk(n: Node) {
    && (forall p | p in n.nextIndex :: p in n.peers && n.nextIndex[p] >= 1)
    && (n.role == Leader ==> forall p | p in n.nextIndex :: n.nextIndex[p] <= |n.log| + 1)
  }

  ghost predicate AllNextOk(s: Cluster) {
    forall i | i in s.nodes :: NextOk(s.nodes[i])
  }

  lemma VotingNextOk(n: Node, ask: VoteRequest)
    requires NextOk(n)
    ensures NextOk(StartElection(n).0) && NextOk(HandleVoteRequest(n, ask).0)
  {
  }

  lemma CountingNextOk(n: Node, voter: NodeId, vote: VoteResponse)
    requires NextOk(n)
    ensures NextOk(RecordVote(n, voter, vote).0)
  {
    StoreSets(n.nextIndex, n.peers, |n.log| + 1);
    hide Store;
  }

  lemma AppendNextOk(n: Node, req: AppendRequest)
    requires NextOk(n)
    ensures NextOk(HandleAppend(n, req).0)
  {
    hide Merge;
  }

  lemma AnswersNextOk(n: Node, peer: NodeId, ack: AppendResponse)
    requires NextOk(n) && peer in n.peers
    requires n.role == Leader && ack.term <= n.currentTerm ==> ack.matchIndex <= |n.log|
    ensures NextOk(RecordAppendSuccess(n, peer, ack))
  {
    hide MayCommit;
  }

  lemma FailureNextOk(n: Node, peer: NodeId, ack: AppendResponse)
    requires NextOk(n) && peer in n.peers
    ensures NextOk(RecordAppendFailure(n, peer, ack))
  {
  }

  lemma OwnNextOk(n: Node, command: ClusterCommand)
    requires NextOk(n)
    ensures NextOk(Propose(n, command).0) && NextOk(Restart(n)) && NextOk(ApplyCommitted(n).0)
  {
    StoreSets(map[], n.peers, 1);
    hide Store;
    hide CommandsBetween;
  }

  /** What a leader counts is within its log: nothing, or a success of its own term. */
  lemma AckWithinLog(s: Cluster, m: Message)
    requires RaftCompleteness.BooksInv(s) && m in s.net && m.AppendReply? && m.dst in s.nodes
    requires var n := s.nodes[m.dst];
      n.role == Leader && m.ack.term <= n.currentTerm
      && (m.ack.success && m.ack.matchIndex > 0 ==> m.ack.term >= n.currentTerm)
    ensures m.ack.matchIndex <= |s.nodes[m.dst].log| && m.src in s.nodes && m.src != m.dst
  {
    var n := s.nodes[m.dst];
    assert RaftCompleteness.AckSent(s, m) && NodeLog(s.past, n);
  }

  lemma ReplyFromPeer(s: Cluster, m: Message)
    requires RaftCompleteness.BooksInv(s) && m in s.net && m.AppendReply? && m.dst in s.nodes
    ensures m.src in s.nodes[m.dst].peers
  {
    assert RaftCompleteness.AckSent(s, m) && Config(s);
  }

  /** What a step's node and a counted answer are like before the step. */
  ghost predicate ReadyFor(s: Cluster, step: Step)
    requires Enabled(s, step)
  {
    var n := s.nodes[Actor(step)];
    && NextOk(n)
    && (step.ReceiveSuccess? || step.ReceiveFailure? ==> step.m.src in n.peers)
    && (step.ReceiveSuccess? && n.role == Leader && step.m.ack.term <= n.currentTerm ==>
          step.m.ack.matchIndex <= |n.log|)
  }

  lemma StepIsReady(s: Cluster, step: Step)
    requires RaftCompleteness.BooksInv(s) && AllNextOk(s) && Enabled(s, step) && SameTerm(s, step)
    ensures ReadyFor(s, step)
  {
    hide NextOk;
    hide RaftCompleteness.BooksInv;
    var n := s.nodes[Actor(step)];
    if step.ReceiveSuccess? || step.ReceiveFailure? {
      ReplyFromPeer(s, step.m);
    }
    if step.ReceiveSuccess? && n.role == Leader && step.m.ack.term <= n.currentTerm {
      AckWithinLog(s, step.m);
    }
  }

  lemma ActNextOk(s: Cluster, step: Step)
    requires Enabled(s, step) && ReadyFor(s, step)
    ensures NextOk(Act(s, step).0)
  {
    hide NextOk;
    hide StartElection;
    hide HandleVoteRequest;
    hide RecordVote;
    hide HandleAppend;
    hide RecordAppendSuccess;
    hide RecordAppendFailure;
    hide Propose;
    hide Restart;
    hide ApplyCommitted;
    var n := s.nodes[Actor(step)];
    match step {
      case Campaign(_) => VotingNextOk(n, VoteRequest(0, n.id, 0, 0));
      case ReceiveVoteAsk(m) => VotingNextOk(n, m.ask);
      case ReceiveVote(m) => CountingNextOk(n, m.src, m.vote);
      case ReceiveAppend(m) => AppendNextOk(n, m.append);
      case ReceiveSuccess(m) => AnswersNextOk(n, m.src, m.ack);
      case ReceiveFailure(m) => FailureNextOk(n, m.src, m.ack);
      case Client(_, command) => OwnNextOk(n, command);
      case _ => OwnNextOk(n, NoOp);
    }
  }

  lemma InitNextOk(s: Cluster)
    requires Init(s)
    ensures AllNextOk(s)
  {
    forall i | i in s.nodes ensures NextOk(s.nodes[i]) {
      StoreSets(map[], s.nodes[i].peers, 1);
    }
  }

  lemma OneNextOk(s: Cluster, s': Cluster, i: NodeId, n: Node)
    requires AllNextOk(s) && NextOk(n) && s'.nodes == s.nodes[i := n]
    ensures AllNextOk(s')
  {
    hide NextOk;
  }

  lemma NextNodes(s: Cluster, step: Step)
    requires Config(s) && Enabled(s, step)
    ensures Next(s, step).nodes == s.nodes[Actor(step) := Act(s, step).0]
  {
    hide Act;
    ActKeepsId(s, step);
  }

  lemma KeepHasBooks(s: Cluster)
    requires RaftCompleteness.KeepInv(s)
    ensures RaftCompleteness.BooksInv(s) && Config(s)
  {
  }

  lemma StepKeepsNext(s: Cluster, step: Step)
    requires RaftCompleteness.KeepInv(s) && AllNextOk(s) && Enabled(s, step) && SameTerm(s, step)
    ensures AllNextOk(Next(s, step))
  {
    hide Next;
    hide Act;
    hide Enabled;
    hide SameTerm;
    hide AllNextOk;
    hide ReadyFor;
    KeepHasBooks(s);
    hide RaftCompleteness.KeepInv;
    hide RaftCompleteness.BooksInv;
    StepIsReady(s, step);
    ActNextOk(s, step);
    NextNodes(s, step);
    OneNextOk(s, Next(s, step), Actor(step), Act(s, step).0);
  }

  /** In every run within (G) and (T), every heartbeat of a leader probes within its own log. */
  lemma {:induction false} RunKeepsNext(run: seq<Cluster>, steps: seq<Step>, k: nat)
    requires Run(run, steps) && GapFree(run, steps) && AcksInTerm(run, steps) && k < |run|
    ensures AllNextOk(run[k])
  {
    hide Next;
    hide Enabled;
    hide SameTerm;
    hide AllNextOk;
    hide RaftCompleteness.KeepInv;
    if k == 0 {
      InitNextOk(run[0]);
    } else {
      RunKeepsNext(run, steps, k - 1);
      RaftCompleteness.RunKeepsKeepInv(run, steps, k - 1);
      assert Linked(run, steps, k - 1) && CountsInTerm(run, steps, k - 1);
      StepKeepsNext(run[k - 1], steps[k - 1]);
    }
  }

  lemma ProbeWithinLog(n: Node, peer: NodeId)
    requires NextOk(n) && n.role == Leader
    ensures HeartbeatFor(n, peer).prevLogIndex <= |n.log|
  {
  }

  /** A node that an election step makes leader: a peer that has come to its term, and whose log is
      not shorter, accepts its heartbeat exactly when it has the leader's whole log. */
  lemma ElectedProbesEnd(run: seq<Cluster>, steps: seq<Step>, k: nat, a: NodeId, j: nat, b: NodeId)
    requires Run(run, steps) && GapFree(run, steps) && k < j < |run| && steps[k].ReceiveVote?
    requires a in run[k].nodes && run[k].nodes[a].role != Leader
    requires a in run[k + 1].nodes && run[k + 1].nodes[a].role == Leader
    requires b in run[j].nodes && b in run[k + 1].nodes[a].peers
    requires |run[k + 1].nodes[a].log| <= |run[j].nodes[b].log|
    ensures var n, f := run[k + 1].nodes[a], run[j].nodes[b];
      && HeartbeatFor(n, b).prevLogIndex == |n.log|
      && (HandleAppend(f, HeartbeatFor(n, b)).1.success <==> f.currentTerm <= n.currentTerm && n.log <= f.log)
  {
    var n, f := run[k + 1].nodes[a], run[j].nodes[b];
    assert Linked(run, steps, k);
    ElectedByVote(run[k], steps[k], a);
    NewLeaderProbes(run[k].nodes[a], steps[k].m.src, steps[k].m.vote, b);
    hide *;
    HeartbeatMatches(run, steps, k + 1, j, a, b);
    WholePrefix(n.log, f.log);
  }

  lemma ElectedByVote(s: Cluster, step: Step, a: NodeId)
    requires Config(s) && Enabled(s, step) && step.ReceiveVote? && a in s.nodes && a in Next(s, step).nodes
    requires s.nodes[a].role != Leader && Next(s, step).nodes[a].role == Leader
    ensures Next(s, step).nodes[a] == RecordVote(s.nodes[a], step.m.src, step.m.vote).0
  {
    hide RecordVote;
    NextNodes(s, step);
  }

  lemma WholePrefix(log: Log, other: Log)
    requires |log| <= |other|
    ensures other[..|log|] == log[..|log|] <==> log <= other
  {
  }

  lemma {:induction false} LastShared(a: Log, b: Log, i: nat) returns (k: nat)
    requires i <= |a| && i <= |b|
    ensures SharedUpTo(a, b, k, i)
    decreases i
  {
    if i == 0 || Shared(a, b, i) {
      k := i;
    } else {
      k := LastShared(a, b, i - 1);
      if k == i - 1 {
        assert !Shared(a, b, k + 1);
      }
    }
  }

  /** The leader's log and a node's match in every state of a run, and are numbered. */
  lemma LogsMatch(run: seq<Cluster>, steps: seq<Step>, j: nat, a: NodeId, b: NodeId)
    requires Run(run, steps) && GapFree(run, steps) && j < |run| && a in run[j].nodes && b in run[j].nodes
    ensures Matching(run[j].nodes[a].log, run[j].nodes[b].log) && Indexed(run[j].nodes[b].log)
  {
    var x, y := run[j].nodes[a].log, run[j].nodes[b].log;
    hide *;
    RunKeepsLogInv(run, steps, j);
    EntryTermsPositive(run[j], a);
    forall i | 0 <= i < |x| && i < |y| && x[i].term == y[i].term ensures x[..i + 1] == y[..i + 1] {
      LogMatching(run, steps, j, j, a, b, i);
    }
    forall i | 0 <= i < |y| ensures y[i].index == i + 1 {
      LogMatching(run, steps, j, j, b, b, i);
    }
    MatchingFrom(x, y);
    IndexedFrom(y);
  }

  lemma MatchingFrom(a: Log, b: Log)
    requires forall x | 0 <= x < |a| :: a[x].term >= 1
    requires forall x | 0 <= x < |a| && x < |b| && a[x].term == b[x].term :: a[..x + 1] == b[..x + 1]
    ensures Matching(a, b)
  {
  }

  lemma IndexedFrom(log: Log)
    requires forall i | 0 <= i < |log| :: log[i].index == i + 1
    ensures Indexed(log)
  {
  }

  /** The entries of matching logs are equal where their terms are. */
  lemma MatchingEntries(a: Log, b: Log)
    requires Matching(a, b)
    ensures forall x | 0 <= x < |a| && x < |b| && a[x].term == b[x].term :: a[x] == b[x]
  {
    forall x | 0 <= x < |a| && x < |b| && a[x].term == b[x].term ensures a[x] == b[x] {
      assert a[x] == a[..x + 1][x] && b[x] == b[..x + 1][x];
    }
  }

  /** In any state of a run within (G) and (T), let a leader and a node that is not in a later term,
      and whose log reaches the leader's probe, take turns: the node refuses once for every entry
      between the probe and the last one shared, and the leader's entries from there complete its log. */
  lemma RepairInRun(run: seq<Cluster>, steps: seq<Step>, j: nat, a: NodeId, b: NodeId) returns (k: nat)
    requires Run(run, steps) && GapFree(run, steps) && AcksInTerm(run, steps) && j < |run|
    requires a in run[j].nodes && b in run[j].nodes && run[j].nodes[a].role == Leader
    requires run[j].nodes[b].currentTerm <= run[j].nodes[a].currentTerm
    requires HeartbeatFor(run[j].nodes[a], b).prevLogIndex <= |run[j].nodes[b].log|
    ensures var n, f, i := run[j].nodes[a], run[j].nodes[b], HeartbeatFor(run[j].nodes[a], b).prevLogIndex;
      && SharedUpTo(f.log, n.log, k, i)
      && var (n2, f2, refusals) := Repaired(n, b, f);
      && refusals == i - k && HeartbeatFor(n2, b).prevLogIndex == k && k <= |n2.log| && n2.log == n.log
      && var (f3, ack) := HandleAppend(f2, ReplicateRequest(n2, k, |n2.log|));
      && ack == AppendResponse(n.currentTerm, true, |n.log|) && n.log <= f3.log
  {
    var n, f := run[j].nodes[a], run[j].nodes[b];
    RunKeepsNext(run, steps, j);
    assert NextOk(n);
    ProbeWithinLog(n, b);
    hide *;
    LogsMatch(run, steps, j, b, a);
    k := LastShared(f.log, n.log, HeartbeatFor(n, b).prevLogIndex);
    RepairFinds(n, b, f, k);
    var (n2, f2, refusals) := Repaired(n, b, f);
    SharedIs(f.log, n.log, k, HeartbeatFor(n, b).prevLogIndex);
    MatchingEntries(f.log, n.log);
    RepairCompletes(n2, f2, k);
  }

  lemma SharedIs(a: Log, b: Log, k: nat, i: nat)
    requires SharedUpTo(a, b, k, i)
    ensures Shared(a, b, k) && k <= |a| && k <= |b|
  {
  }
}
