/** Election safety: over the whole of any run at most one node becomes leader of a term.
    No condition on logs, gaps or acknowledgements. */
module RaftElection {
  import opened Options
  import opened RaftNodeSpec
  import opened RaftCluster

  // ---------- The invariant ----------

  /** A node's vote is on record for its term, and no vote of a later term is. */
  ghost predicate VoteBook(past: History, n: Node) {
    && (forall t | (n.id, t) in past.ballots :: t <= n.currentTerm)
    && ((n.id, n.currentTerm) in past.ballots <==> n.votedFor.Some?)
    && (n.votedFor.Some? ==> past.ballots[(n.id, n.currentTerm)].candidate == n.votedFor.value)
  }

  predicate VotedFor(past: History, voter: NodeId, term: nat, candidate: NodeId) {
    (voter, term) in past.ballots && past.ballots[(voter, term)].candidate == candidate
  }

  /** A candidate counts distinct nodes that voted for it in its term. */
  ghost predicate Tally(past: History, ids: set<NodeId>, n: Node) {
    n.role == Candidate ==>
      && (forall i, j | 0 <= i < j < |n.votesReceived| :: n.votesReceived[i] != n.votesReceived[j])
      && (forall v | v in n.votesReceived :: v in ids && VotedFor(past, v, n.currentTerm, n.id))
  }

  /** A leader is on record as elected in its term; once elected a node never again stands
      as a candidate in that term. */
  ghost predicate Office(past: History, n: Node) {
    && (n.role == Leader ==> n.currentTerm in past.elections && past.elections[n.currentTerm].leader == n.id)
    && forall t | t in past.elections && past.elections[t].leader == n.id ::
         t <= n.currentTerm && (t == n.currentTerm ==> n.role != Candidate)
  }

  ghost function Voters(past: History, ids: set<NodeId>, term: nat, candidate: NodeId): set<NodeId> {
    set v | v in ids && VotedFor(past, v, term, candidate)
  }

  ghost predicate Mandate(past: History, ids: set<NodeId>, term: nat) {
    term in past.elections ==>
      && past.elections[term].leader in ids
      && 2 * |Voters(past, ids, term, past.elections[term].leader)| > |ids|
  }

  ghost predicate VoteSent(past: History, ids: set<NodeId>, m: Message) {
    && (m.VoteReply? && m.vote.granted ==> m.src in ids && VotedFor(past, m.src, m.vote.term, m.dst))
    && m.src in ids
  }

  ghost predicate ElectionInv(s: Cluster) {
    && Config(s)
    && (forall i | i in s.nodes :: VoteBook(s.past, s.nodes[i]))
    && (forall i | i in s.nodes :: Tally(s.past, s.nodes.Keys, s.nodes[i]))
    && (forall i | i in s.nodes :: Office(s.past, s.nodes[i]))
    && (forall t | t in s.past.elections :: Mandate(s.past, s.nodes.Keys, t))
    && (forall m | m in s.net :: VoteSent(s.past, s.nodes.Keys, m))
  }

  // ---------- What a step does to one node ----------

  /** Whoever remains a candidate keeps its term; whoever becomes leader was a candidate
      and had a majority, or was leader already. */
  ghost predicate KeepsRole(n: Node, n': Node) {
    && (n'.role == Candidate && n'.currentTerm == n.currentTerm ==> n.role == Candidate)
    && (n'.role == Candidate && n'.currentTerm > n.currentTerm ==>
          n'.votesReceived == [n.id] && n'.votedFor == Some(n.id) && n'.log == n.log)
    && (n'.role == Leader ==> n'.currentTerm == n.currentTerm && n.role != Follower)
    && (n'.role == Leader && n.role == Candidate ==> 2 * |n'.votesReceived| > |n.peers| + 1 && n'.log == n.log)
  }

  /** A candidate's count grows only by a node that voted for it. */
  ghost predicate CountsVotes(past: History, ids: set<NodeId>, n: Node, n': Node) {
    n.role == Candidate && n'.role != Follower && n'.currentTerm == n.currentTerm ==>
      n'.votesReceived == n.votesReceived
      || exists v ::
           && n'.votesReceived == n.votesReceived + [v]
           && v !in n.votesReceived && v in ids && VotedFor(past, v, n.currentTerm, n.id)
  }

  /** Every granted vote sent is on the sender's record. */
  ghost predicate SendsVotes(n': Node, sent: set<Message>) {
    forall m | m in sent ::
      m.src == n'.id
      && (m.VoteReply? && m.vote.granted ==> m.vote.term == n'.currentTerm && n'.votedFor == Some(m.dst))
  }

  /** What the election argument needs to know of a step. */
  ghost predicate Lawful(s: Cluster, n': Node, sent: set<Message>) {
    && n'.id in s.nodes
    && KeepsVote(s.nodes[n'.id], n')
    && KeepsRole(s.nodes[n'.id], n')
    && CountsVotes(s.past, s.nodes.Keys, s.nodes[n'.id], n')
    && SendsVotes(n', sent)
  }

  lemma ActKeepsRole(s: Cluster, step: Step)
    requires Config(s) && Enabled(s, step)
    ensures KeepsRole(s.nodes[Actor(step)], Act(s, step).0)
  {
  }

  lemma RecordVoteCounts(past: History, ids: set<NodeId>, n: Node, voter: NodeId, vote: VoteResponse)
    requires vote.granted ==> voter in ids && VotedFor(past, voter, vote.term, n.id)
    ensures CountsVotes(past, ids, n, RecordVote(n, voter, vote).0)
  {
  }

  lemma ActCountsVotes(s: Cluster, step: Step)
    requires ElectionInv(s) && Enabled(s, step)
    ensures CountsVotes(s.past, s.nodes.Keys, s.nodes[Actor(step)], Act(s, step).0)
  {
    var n := s.nodes[Actor(step)];
    if step.ReceiveVote? {
      assert VoteSent(s.past, s.nodes.Keys, step.m);
      RecordVoteCounts(s.past, s.nodes.Keys, n, step.m.src, step.m.vote);
    } else {
      ActLeavesVotes(s, step);
    }
  }

  lemma ActLeavesVotes(s: Cluster, step: Step)
    requires Config(s) && Enabled(s, step) && !step.ReceiveVote?
    ensures var n, n' := s.nodes[Actor(step)], Act(s, step).0;
            n'.currentTerm == n.currentTerm && n'.role != Follower ==> n'.votesReceived == n.votesReceived
  {
  }

  lemma ActSendsVotes(s: Cluster, step: Step)
    requires Config(s) && Enabled(s, step)
    ensures SendsVotes(Act(s, step).0, Act(s, step).1)
  {
    ActKeepsId(s, step);
  }

  lemma ActIsLawful(s: Cluster, step: Step)
    requires ElectionInv(s) && Enabled(s, step)
    ensures Lawful(s, Act(s, step).0, Act(s, step).1)
  {
    ActKeepsId(s, step);
    ActKeepsVote(s, step);
    ActKeepsRole(s, step);
    ActCountsVotes(s, step);
    ActSendsVotes(s, step);
  }

  // ---------- The history only grows ----------

  ghost predicate PastGrows(past: History, past': History) {
    && (forall k | k in past.ballots :: k in past'.ballots && past'.ballots[k] == past.ballots[k])
    && (forall t | t in past.elections ::
          && t in past'.elections
          && past'.elections[t].leader == past.elections[t].leader
          && past'.elections[t].start == past.elections[t].start)
  }

  lemma PastGrowsOn(a: History, b: History, c: History)
    requires PastGrows(a, b) && PastGrows(b, c)
    ensures PastGrows(a, c)
  {
  }

  /** A term that a node wins has had no leader. */
  lemma WinIsNew(s: Cluster, n': Node, sent: set<Message>)
    requires ElectionInv(s) && Lawful(s, n', sent)
    requires n'.role == Leader && s.nodes[n'.id].role != Leader
    ensures n'.currentTerm !in s.past.elections
    ensures 2 * |Voters(s.past, s.nodes.Keys, n'.currentTerm, n'.id)| > |s.nodes|
  {
    var n, t := s.nodes[n'.id], n'.currentTerm;
    assert Tally(s.past, s.nodes.Keys, n);
    var counted := set v | v in n'.votesReceived;
    DistinctSize(n'.votesReceived);
    var voters := Voters(s.past, s.nodes.Keys, t, n.id);
    assert counted <= voters;
    SubsetSize(counted, voters);
    assert |s.nodes.Keys| == |s.nodes|;
    if t in s.past.elections {
      assert Mandate(s.past, s.nodes.Keys, t) && Office(s.past, n);
      var v := MajoritiesMeet(s.nodes.Keys, voters, Voters(s.past, s.nodes.Keys, t, s.past.elections[t].leader));
      assert false;
    }
  }

  lemma RememberGrows(past: History, n: Node, n': Node)
    requires VoteBook(past, n) && KeepsVote(n, n')
    requires n'.role == Leader && n.role != Leader ==> n'.currentTerm !in past.elections
    ensures PastGrows(past, Remember(past, n, n'))
  {
  }

  lemma UpdateGrowsPast(s: Cluster, n': Node, sent: set<Message>)
    requires ElectionInv(s) && Lawful(s, n', sent)
    ensures PastGrows(s.past, Update(s, n', sent).past)
  {
    assert VoteBook(s.past, s.nodes[n'.id]);
    if n'.role == Leader && s.nodes[n'.id].role != Leader {
      WinIsNew(s, n', sent);
    }
    hide ElectionInv;
    hide VoteBook;
    hide CountsVotes;
    RememberGrows(s.past, s.nodes[n'.id], n');
  }

  // ---------- The invariant is kept ----------

  lemma ActorKeepsVoteBook(past: History, n: Node, n': Node)
    requires VoteBook(past, n) && KeepsVote(n, n')
    ensures VoteBook(Remember(past, n, n'), n')
  {
  }

  lemma OthersKeepVoteBook(past: History, n: Node, n': Node, other: Node)
    requires VoteBook(past, other) && n'.id == n.id != other.id
    ensures VoteBook(Remember(past, n, n'), other)
  {
  }

  lemma UpdateKeepsVoteBook(s: Cluster, n': Node, sent: set<Message>)
    requires ElectionInv(s) && Lawful(s, n', sent)
    ensures forall i | i in s.nodes :: VoteBook(Update(s, n', sent).past, Update(s, n', sent).nodes[i])
  {
    hide Remember;
    hide VoteBook;
    forall i | i in s.nodes ensures VoteBook(Update(s, n', sent).past, Update(s, n', sent).nodes[i]) {
      if i == n'.id {
        ActorKeepsVoteBook(s.past, s.nodes[i], n');
      } else {
        OthersKeepVoteBook(s.past, s.nodes[n'.id], n', s.nodes[i]);
      }
    }
  }

  lemma TallyStays(past: History, past': History, ids: set<NodeId>, n: Node)
    requires PastGrows(past, past') && Tally(past, ids, n)
    ensures Tally(past', ids, n)
  {
  }

  lemma ActorKeepsTally(past: History, past': History, ids: set<NodeId>, n: Node, n': Node)
    requires PastGrows(past, past') && Tally(past, ids, n) && n.id in ids && VoteBook(past', n')
    requires KeepsVote(n, n') && KeepsRole(n, n') && CountsVotes(past, ids, n, n')
    ensures Tally(past', ids, n')
  {
  }

  lemma UpdateKeepsTally(s: Cluster, n': Node, sent: set<Message>)
    requires ElectionInv(s) && Lawful(s, n', sent)
    ensures forall i | i in s.nodes :: Tally(Update(s, n', sent).past, s.nodes.Keys, Update(s, n', sent).nodes[i])
  {
    var s' := Update(s, n', sent);
    UpdateGrowsPast(s, n', sent);
    UpdateKeepsVoteBook(s, n', sent);
    hide Remember;
    hide Tally;
    hide VoteBook;
    forall i | i in s.nodes ensures Tally(s'.past, s.nodes.Keys, s'.nodes[i]) {
      if i == n'.id {
        ActorKeepsTally(s.past, s'.past, s.nodes.Keys, s.nodes[i], n');
      } else {
        TallyStays(s.past, s'.past, s.nodes.Keys, s.nodes[i]);
      }
    }
  }

  lemma ActorKeepsOffice(past: History, n: Node, n': Node)
    requires KeepsVote(n, n') && KeepsRole(n, n') && Office(past, n)
    requires n'.role == Leader && n.role != Leader ==> n'.currentTerm !in past.elections
    ensures Office(Remember(past, n, n'), n')
  {
  }

  lemma OthersKeepOffice(past: History, n: Node, n': Node, other: Node)
    requires KeepsVote(n, n') && KeepsRole(n, n') && Office(past, n) && Office(past, other) && other.id != n.id
    requires n'.role == Leader && n.role != Leader ==> n'.currentTerm !in past.elections
    ensures Office(Remember(past, n, n'), other)
  {
  }

  lemma UpdateKeepsOffice(s: Cluster, n': Node, sent: set<Message>)
    requires ElectionInv(s) && Lawful(s, n', sent)
    ensures forall i | i in s.nodes :: Office(Update(s, n', sent).past, Update(s, n', sent).nodes[i])
  {
    var n := s.nodes[n'.id];
    if n'.role == Leader && n.role != Leader {
      WinIsNew(s, n', sent);
    }
    ActorKeepsOffice(s.past, n, n');
    forall i | i in s.nodes && i != n'.id ensures Office(Remember(s.past, n, n'), s.nodes[i]) {
      OthersKeepOffice(s.past, n, n', s.nodes[i]);
    }
  }

  lemma UpdateKeepsMandate(s: Cluster, n': Node, sent: set<Message>)
    requires ElectionInv(s) && Lawful(s, n', sent)
    ensures forall t | t in Update(s, n', sent).past.elections :: Mandate(Update(s, n', sent).past, s.nodes.Keys, t)
  {
    var s' := Update(s, n', sent);
    UpdateGrowsPast(s, n', sent);
    forall t | t in s'.past.elections ensures Mandate(s'.past, s.nodes.Keys, t) {
      if t in s.past.elections {
        assert Mandate(s.past, s.nodes.Keys, t);
      } else {
        WinIsNew(s, n', sent);
      }
      var leader := s'.past.elections[t].leader;
      SubsetSize(Voters(s.past, s.nodes.Keys, t, leader), Voters(s'.past, s.nodes.Keys, t, leader));
    }
  }

  lemma UpdateKeepsVotesSent(s: Cluster, n': Node, sent: set<Message>)
    requires ElectionInv(s) && Lawful(s, n', sent)
    ensures forall m | m in Update(s, n', sent).net :: VoteSent(Update(s, n', sent).past, s.nodes.Keys, m)
  {
    var s' := Update(s, n', sent);
    UpdateGrowsPast(s, n', sent);
    UpdateKeepsVoteBook(s, n', sent);
    forall m | m in s'.net ensures VoteSent(s'.past, s.nodes.Keys, m) {
      if m in s.net {
        assert VoteSent(s.past, s.nodes.Keys, m);
      } else {
        assert VoteBook(s'.past, s'.nodes[n'.id]);
      }
    }
  }

  /** What the configuration says of one node. */
  ghost predicate Member(ids: set<NodeId>, i: NodeId, n: Node) {
    n.id == i && (forall p :: p in n.peers <==> p in ids && p != i) && |n.peers| + 1 == |ids|
  }

  lemma ConfigIsMembers(s: Cluster)
    ensures Config(s) <==> forall i | i in s.nodes :: Member(s.nodes.Keys, i, s.nodes[i])
  {
    assert |s.nodes| == |s.nodes.Keys|;
    if Config(s) {
      forall i | i in s.nodes ensures Member(s.nodes.Keys, i, s.nodes[i]) {
      }
    } else {
      var i :| i in s.nodes && !(
        && s.nodes[i].id == i
        && (forall p :: p in s.nodes[i].peers <==> p in s.nodes && p != i)
        && |s.nodes[i].peers| + 1 == |s.nodes|);
      assert !Member(s.nodes.Keys, i, s.nodes[i]);
    }
  }

  lemma MemberStays(ids: set<NodeId>, i: NodeId, n: Node, n': Node)
    requires Member(ids, i, n) && n'.id == n.id && n'.peers == n.peers
    ensures Member(ids, i, n')
  {
  }

  lemma UpdateKeepsConfig(s: Cluster, n': Node, sent: set<Message>)
    requires Config(s) && n'.id in s.nodes && n'.peers == s.nodes[n'.id].peers && s.nodes[n'.id].id == n'.id
    ensures Config(Update(s, n', sent)) && Update(s, n', sent).nodes.Keys == s.nodes.Keys
  {
    hide Remember;
    hide Config;
    hide Member;
    var s' := Update(s, n', sent);
    assert s'.nodes.Keys == s.nodes.Keys;
    ConfigIsMembers(s);
    ConfigIsMembers(s');
    MemberStays(s.nodes.Keys, n'.id, s.nodes[n'.id], n');
  }

  lemma UpdateKeepsElectionInv(s: Cluster, n': Node, sent: set<Message>)
    requires ElectionInv(s) && Lawful(s, n', sent)
    ensures ElectionInv(Update(s, n', sent)) && Update(s, n', sent).nodes.Keys == s.nodes.Keys
    ensures PastGrows(s.past, Update(s, n', sent).past)
  {
    UpdateKeepsConfig(s, n', sent);
    hide Remember;
    hide VoteBook;
    hide Tally;
    hide Office;
    hide Mandate;
    hide VoteSent;
    hide Config;
    hide KeepsRole;
    hide CountsVotes;
    hide SendsVotes;
    hide PastGrows;
    UpdateGrowsPast(s, n', sent);
    UpdateKeepsVoteBook(s, n', sent);
    UpdateKeepsTally(s, n', sent);
    UpdateKeepsOffice(s, n', sent);
    UpdateKeepsMandate(s, n', sent);
    UpdateKeepsVotesSent(s, n', sent);
  }

  lemma NextKeepsElectionInv(s: Cluster, step: Step)
    requires ElectionInv(s) && Enabled(s, step)
    ensures ElectionInv(Next(s, step)) && Next(s, step).nodes.Keys == s.nodes.Keys
    ensures PastGrows(s.past, Next(s, step).past)
  {
    ActIsLawful(s, step);
    UpdateKeepsElectionInv(s, Act(s, step).0, Act(s, step).1);
  }

  // ---------- Over runs ----------

  lemma InitHasElectionInv(s: Cluster)
    requires Init(s)
    ensures ElectionInv(s)
  {
  }

  lemma {:induction false} RunKeepsElectionInv(run: seq<Cluster>, steps: seq<Step>, k: nat)
    requires Run(run, steps) && k < |run|
    ensures ElectionInv(run[k]) && run[k].nodes.Keys == run[0].nodes.Keys
  {
    hide Next;
    hide ElectionInv;
    if k == 0 {
      InitHasElectionInv(run[0]);
    } else {
      RunKeepsElectionInv(run, steps, k - 1);
      assert Linked(run, steps, k - 1);
      NextKeepsElectionInv(run[k - 1], steps[k - 1]);
    }
  }

  lemma {:induction false} ChainGrows(pasts: seq<History>, j: nat, k: nat)
    requires j <= k < |pasts| && forall i | 0 <= i < |pasts| - 1 :: PastGrows(pasts[i], pasts[i + 1])
    ensures PastGrows(pasts[j], pasts[k])
    decreases k - j
  {
    if j < k {
      ChainGrows(pasts, j, k - 1);
      PastGrowsOn(pasts[j], pasts[k - 1], pasts[k - 1 + 1]);
    }
  }

  lemma RunGrowsPast(run: seq<Cluster>, steps: seq<Step>, j: nat, k: nat)
    requires Run(run, steps) && j <= k < |run|
    ensures PastGrows(run[j].past, run[k].past)
  {
    hide Next;
    hide ElectionInv;
    var pasts := seq(|run|, i requires 0 <= i < |run| => run[i].past);
    forall i | 0 <= i < |pasts| - 1 ensures PastGrows(pasts[i], pasts[i + 1]) {
      RunKeepsElectionInv(run, steps, i);
      assert Linked(run, steps, i);
      NextKeepsElectionInv(run[i], steps[i]);
    }
    ChainGrows(pasts, j, k);
  }

  /** Election safety (section 5.2 of Raft). */
  lemma ElectionSafety(run: seq<Cluster>, steps: seq<Step>, j: nat, k: nat, a: NodeId, b: NodeId)
    requires Run(run, steps) && j < |run| && k < |run|
    requires a in run[j].nodes && run[j].nodes[a].role == Leader
    requires b in run[k].nodes && run[k].nodes[b].role == Leader
    requires run[j].nodes[a].currentTerm == run[k].nodes[b].currentTerm
    ensures a == b
  {
    if j > k {
      ElectionSafety(run, steps, k, j, b, a);
    } else {
      RunKeepsElectionInv(run, steps, j);
      RunKeepsElectionInv(run, steps, k);
      RunGrowsPast(run, steps, j, k);
      assert Office(run[j].past, run[j].nodes[a]) && Office(run[k].past, run[k].nodes[b]);
    }
  }
}
