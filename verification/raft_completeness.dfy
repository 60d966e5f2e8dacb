/** Leader completeness (section 5.4 of Raft): what a leader commits is in the log of every
    leader of every later term, for runs without gaps whose leaders count only acknowledgements
    of their own term. */
module RaftCompleteness {
  import opened Options
  import opened RaftNodeSpec
  import opened RaftCluster
  import opened RaftElection
  import opened RaftLogs

  // ---------- Acknowledged and choosable entries ----------

  predicate IsAck(m: Message, v: NodeId, t: nat, i: nat) {
    m.AppendReply? && m.ack.success && m.src == v && m.ack.term == t && m.ack.matchIndex >= i
  }

  /** `v` has told the leader of term t that it holds the first i entries, or is that leader. */
  ghost predicate Acked(s: Cluster, v: NodeId, t: nat, i: nat) {
    || (exists m :: m in s.net && IsAck(m, v, t, i))
    || (t in s.past.elections && s.past.elections[t].leader == v && i <= |s.past.elections[t].log|)
  }

  /** The nodes that have acknowledged, or may still. */
  ghost function Possible(s: Cluster, t: nat, i: nat): set<NodeId> {
    set v | v in s.nodes && (Acked(s, v, t, i) || s.nodes[v].currentTerm <= t)
  }

  ghost predicate OwnEntry(past: History, t: nat, i: nat) {
    t in past.elections && 1 <= i <= |past.elections[t].log| && past.elections[t].log[i - 1].term == t
  }

  /** A majority may yet acknowledge entry i of term t in term t: it is, or could become, committed. */
  ghost predicate Choosable(s: Cluster, t: nat, i: nat) {
    OwnEntry(s.past, t, i) && 2 * |Possible(s, t, i)| > |s.nodes|
  }

  ghost function Chosen(past: History, t: nat, i: nat): Log
    requires OwnEntry(past, t, i)
  {
    past.elections[t].log[..i]
  }

  // ---------- The invariant ----------

  ghost predicate CampaignBook(past: History, n: Node) {
    && (forall t | (n.id, t) in past.campaigns :: t <= n.currentTerm)
    && (n.role == Candidate ==>
          (n.id, n.currentTerm) in past.campaigns && past.campaigns[(n.id, n.currentTerm)] == n.log)
  }

  ghost predicate AskSent(past: History, m: Message) {
    m.VoteAsk? ==>
      var key := (m.ask.candidateId, m.ask.term);
      && key in past.campaigns
      && m.ask.lastLogIndex == |past.campaigns[key]| && m.ask.lastLogTerm == LastTerm(past.campaigns[key])
  }

  ghost predicate BallotEarned(past: History, k: (NodeId, nat)) {
    k in past.ballots ==>
      var key := (past.ballots[k].candidate, k.1);
      && key in past.campaigns
      && UpToDate(LastTerm(past.campaigns[key]), |past.campaigns[key]|, past.ballots[k].log)
  }

  ghost predicate AckSent(s: Cluster, m: Message) {
    m.AppendReply? ==>
      && m.src in s.nodes && m.src != m.dst
      && (!m.ack.success ==> m.ack.matchIndex == 0)
      && (m.ack.success ==>
            && m.ack.term in s.past.elections
            && m.ack.matchIndex <= |s.past.elections[m.ack.term].log|
            && m.ack.term <= s.nodes[m.src].currentTerm)
  }

  /** A leader counts every peer, and each non-zero count is an acknowledgement of its term. */
  ghost predicate MatchBacked(net: set<Message>, n: Node) {
    && n.matchIndex.Keys == (set p | p in n.peers)
    && (n.role == Leader ==> forall p | p in n.matchIndex :: Backed(net, n, p))
  }

  ghost predicate Backed(net: set<Message>, n: Node, p: NodeId)
    requires p in n.matchIndex
  {
    n.matchIndex[p] == 0 || exists m :: m in net && IsAck(m, p, n.currentTerm, n.matchIndex[p])
  }

  ghost predicate BooksInv(s: Cluster) {
    && LogInv(s)
    && (forall i | i in s.nodes :: CampaignBook(s.past, s.nodes[i]))
    && (forall m | m in s.net :: AskSent(s.past, m))
    && (forall k | k in s.past.ballots :: BallotEarned(s.past, k))
    && (forall m | m in s.net :: AckSent(s, m))
    && (forall i | i in s.nodes :: MatchBacked(s.net, s.nodes[i]))
  }

  /** A later leader started with every choosable entry. */
  ghost predicate LeaderKeeps(s: Cluster, t: nat, i: nat, u: nat) {
    Choosable(s, t, i) && u in s.past.elections && u > t ==>
      Chosen(s.past, t, i) <= s.past.elections[u].start
  }

  /** Whoever acknowledged a choosable entry still had it when it voted in a later term. */
  ghost predicate BallotKeeps(s: Cluster, v: NodeId, u: nat, t: nat, i: nat) {
    v in s.nodes && (v, u) in s.past.ballots && t < u && Choosable(s, t, i) && Acked(s, v, t, i) ==>
      Chosen(s.past, t, i) <= s.past.ballots[(v, u)].log
  }

  /** Whoever acknowledged a choosable entry still has it. */
  ghost predicate NodeKeeps(s: Cluster, v: NodeId, t: nat, i: nat) {
    v in s.nodes && Choosable(s, t, i) && Acked(s, v, t, i) ==>
      Chosen(s.past, t, i) <= s.nodes[v].log
  }

  ghost predicate KeepInv(s: Cluster) {
    && BooksInv(s)
    && (forall t, i, u :: LeaderKeeps(s, t, i, u))
    && (forall v, u, t, i :: BallotKeeps(s, v, u, t, i))
    && (forall v, t, i :: NodeKeeps(s, v, t, i))
  }

  // ---------- What a step does to the books ----------

  ghost predicate SendsAcks(past: History, n': Node, sent: set<Message>) {
    forall m | m in sent && m.AppendReply? ::
      && m.src == n'.id && m.dst != n'.id
      && (!m.ack.success ==> m.ack.matchIndex == 0)
      && (m.ack.success ==>
            && m.ack.term == n'.currentTerm && n'.role == Follower && m.ack.term in past.elections
            && m.ack.matchIndex <= |past.elections[m.ack.term].log|
            && past.elections[m.ack.term].log[..m.ack.matchIndex] <= n'.log)
  }

  ghost predicate SendsAsks(n': Node, sent: set<Message>) {
    forall m | m in sent && m.VoteAsk? ::
      && n'.role == Candidate && m.ask.candidateId == n'.id && m.ask.term == n'.currentTerm
      && m.ask.lastLogIndex == |n'.log| && m.ask.lastLogTerm == LastTerm(n'.log)
  }

  /** A new vote answers a request on record from a candidate at least as up to date. */
  ghost predicate EarnsVote(past: History, n: Node, n': Node) {
    n'.votedFor.Some? && (n'.votedFor != n.votedFor || n'.currentTerm != n.currentTerm) ==>
      || (n'.votedFor == Some(n'.id) && n'.role == Candidate && n'.currentTerm > n.currentTerm)
      || (var key := (n'.votedFor.value, n'.currentTerm);
          && key in past.campaigns
          && UpToDate(LastTerm(past.campaigns[key]), |past.campaigns[key]|, n'.log))
  }

  ghost predicate LawfulBooks(s: Cluster, n': Node, sent: set<Message>) {
    && LawfulLog(s, n', sent)
    && SendsAcks(s.past, n', sent)
    && SendsAsks(n', sent)
    && EarnsVote(s.past, s.nodes[n'.id], n')
    && MatchBacked(s.net + sent, n')
    && (n'.role == Candidate && n'.currentTerm == s.nodes[n'.id].currentTerm ==> n'.log == s.nodes[n'.id].log)
    && (forall m | m in sent && m.VoteAsk? :: n'.currentTerm != s.nodes[n'.id].currentTerm)
  }

  lemma HandleAppendAck(past: History, n: Node, m: Message)
    requires NodeLog(past, n) && m.AppendAsk? && Slice(past, m) && m.append.prevLogIndex <= |n.log| && m.dst == n.id
    requires ElectionLog(past, m.append.term) && forall t | t in past.elections :: t >= 1
    ensures SendsAcks(past, HandleAppend(n, m.append).0,
                      {AppendReply(n.id, m.append.leaderId, HandleAppend(n, m.append).1)})
  {
    var req, lead := m.append, past.elections[m.append.term].log;
    hide Merge;
    hide ElectionLog;
    hide Rooted;
    if req.term >= n.currentTerm && Consistent(n.log, req) {
      AcceptedMerge(past, n.log, m);
      hide Slice;
      hide Consistent;
      var end := req.prevLogIndex + |req.entries|;
      assert lead[..end] <= Merge(n.log, req.entries);
    }
  }

  lemma ActSendsNoAck(s: Cluster, step: Step)
    requires Config(s) && Enabled(s, step) && !step.ReceiveAppend?
    ensures forall m | m in Act(s, step).1 :: !m.AppendReply?
  {
  }

  lemma ActSendsAcks(s: Cluster, step: Step)
    requires LogInv(s) && Enabled(s, step) && NoGap(s, step)
    ensures SendsAcks(s.past, Act(s, step).0, Act(s, step).1)
  {
    if step.ReceiveAppend? {
      var n, m := s.nodes[step.m.dst], step.m;
      assert NodeLog(s.past, n) && Slice(s.past, m) && ElectionLog(s.past, m.append.term);
      TermsPositive(s);
      HandleAppendAck(s.past, n, m);
    } else {
      ActSendsNoAck(s, step);
    }
  }

  lemma ActSendsAsks(s: Cluster, step: Step)
    requires Config(s) && Enabled(s, step)
    ensures SendsAsks(Act(s, step).0, Act(s, step).1)
    ensures forall m | m in Act(s, step).1 && m.VoteAsk? :: Act(s, step).0.currentTerm != s.nodes[Actor(step)].currentTerm
  {
  }

  lemma ActEarnsVote(s: Cluster, step: Step)
    requires BooksInv(s) && Enabled(s, step)
    ensures EarnsVote(s.past, s.nodes[Actor(step)], Act(s, step).0)
  {
    if step.ReceiveVoteAsk? {
      assert AskSent(s.past, step.m);
      VoteIsEarned(s.past, s.nodes[Actor(step)], step.m.ask);
    } else {
      ActCastsNoVote(s, step);
    }
  }

  lemma VoteIsEarned(past: History, n: Node, ask: VoteRequest)
    requires (ask.candidateId, ask.term) in past.campaigns
    requires var c := past.campaigns[(ask.candidateId, ask.term)];
             ask.lastLogIndex == |c| && ask.lastLogTerm == LastTerm(c)
    ensures EarnsVote(past, n, HandleVoteRequest(n, ask).0)
  {
  }

  lemma ActCastsNoVote(s: Cluster, step: Step)
    requires Config(s) && Enabled(s, step) && !step.ReceiveVoteAsk?
    ensures var n, n' := s.nodes[Actor(step)], Act(s, step).0;
            n'.votedFor.Some? && (n'.votedFor != n.votedFor || n'.currentTerm != n.currentTerm) ==>
              n'.votedFor == Some(n'.id) && n'.role == Candidate && n'.currentTerm > n.currentTerm
  {
    ActKeepsId(s, step);
  }

  lemma ActKeepsCandidateLog(s: Cluster, step: Step)
    requires Config(s) && Enabled(s, step)
    ensures Act(s, step).0.role == Candidate ==> Act(s, step).0.log == s.nodes[Actor(step)].log
  {
    ActIsRoutine(s, step);
    hide Act;
  }

  lemma BackedStays(net: set<Message>, net': set<Message>, n: Node)
    requires MatchBacked(net, n) && net <= net'
    ensures MatchBacked(net', n)
  {
    if n.role == Leader {
      forall p | p in n.matchIndex ensures Backed(net', n, p) {
        assert Backed(net, n, p);
      }
    }
  }

  lemma SuccessStaysBacked(net: set<Message>, n: Node, m: Message)
    requires MatchBacked(net, n) && m in net && m.AppendReply? && m.src in n.peers
    requires !m.ack.success ==> m.ack.matchIndex == 0
    requires n.role == Leader && m.ack.success && m.ack.matchIndex > 0 ==> m.ack.term >= n.currentTerm
    ensures MatchBacked(net, RecordAppendSuccess(n, m.src, m.ack))
  {
    if n.role == Leader && m.ack.term <= n.currentTerm {
      if m.ack.matchIndex > 0 {
        assert IsAck(m, m.src, n.currentTerm, m.ack.matchIndex);
      }
      CountedIsBackedIff(net, n, m.src, m.ack);
    }
  }

  /** Counting a response keeps a leader's counts backed by acknowledgements of its own term if and
      only if the response counts nothing, or the peer has acknowledged that much in that term. */
  lemma CountedIsBackedIff(net: set<Message>, n: Node, peer: NodeId, ack: AppendResponse)
    requires MatchBacked(net, n) && n.role == Leader && ack.term <= n.currentTerm && peer in n.peers
    ensures MatchBacked(net, RecordAppendSuccess(n, peer, ack))
       <==> ack.matchIndex == 0 || exists m :: m in net && IsAck(m, peer, n.currentTerm, ack.matchIndex)
  {
    var n' := RecordAppendSuccess(n, peer, ack);
    assert n'.matchIndex == n.matchIndex[peer := ack.matchIndex] && n'.currentTerm == n.currentTerm;
    assert n'.matchIndex.Keys == n.matchIndex.Keys;
    forall p | p in n'.matchIndex && p != peer ensures Backed(net, n', p) {
      assert Backed(net, n, p);
    }
    assert MatchBacked(net, n') <==> Backed(net, n', peer);
  }

  lemma NewLeaderBacked(net: set<Message>, n: Node, voter: NodeId, vote: VoteResponse)
    requires MatchBacked(net, n)
    ensures MatchBacked(net, RecordVote(n, voter, vote).0)
  {
    StoreSets(n.matchIndex, n.peers, 0);
    var n' := RecordVote(n, voter, vote).0;
    if n'.role == Leader && n.role == Leader {
      forall p | p in n'.matchIndex ensures Backed(net, n', p) {
        assert Backed(net, n, p);
      }
    }
  }

  lemma ActLeavesMatches(s: Cluster, step: Step)
    requires Config(s) && Enabled(s, step)
    requires !step.ReceiveSuccess? && !step.ReceiveVote? && !step.CrashAndRestart?
    ensures var n, n' := s.nodes[Actor(step)], Act(s, step).0;
            n'.matchIndex == n.matchIndex && n'.peers == n.peers
            && (n'.role == Leader ==> n.role == Leader && n'.currentTerm == n.currentTerm)
  {
    ActIsRoutine(s, step);
    ActKeepsId(s, step);
    hide Act;
  }

  lemma RestartBacked(net: set<Message>, n: Node)
    ensures MatchBacked(net, Restart(n))
  {
    StoreSets(map[], n.peers, 0);
  }

  lemma LeftBacked(net: set<Message>, n: Node, n': Node)
    requires MatchBacked(net, n) && n'.matchIndex == n.matchIndex && n'.peers == n.peers
    requires n'.role == Leader ==> n.role == Leader && n'.currentTerm == n.currentTerm
    ensures MatchBacked(net, n')
  {
    if n'.role == Leader {
      forall p | p in n'.matchIndex ensures Backed(net, n', p) {
        assert Backed(net, n, p);
      }
    }
  }

  lemma ActMatchBacked(s: Cluster, step: Step)
    requires BooksInv(s) && Enabled(s, step) && SameTerm(s, step)
    ensures MatchBacked(s.net, Act(s, step).0)
  {
    var n := s.nodes[Actor(step)];
    assert Config(s) && MatchBacked(s.net, n) && (step.ReceiveSuccess? ==> AckSent(s, step.m));
    hide BooksInv;
    hide MatchBacked;
    hide RecordAppendSuccess;
    hide RecordVote;
    hide Restart;
    if step.ReceiveSuccess? {
      SuccessStaysBacked(s.net, n, step.m);
    } else if step.ReceiveVote? {
      NewLeaderBacked(s.net, n, step.m.src, step.m.vote);
    } else if step.CrashAndRestart? {
      RestartBacked(s.net, n);
    } else {
      hide Act;
      ActLeavesMatches(s, step);
      LeftBacked(s.net, n, Act(s, step).0);
    }
  }

  lemma ActIsLawfulBooks(s: Cluster, step: Step)
    requires BooksInv(s) && Enabled(s, step) && NoGap(s, step) && SameTerm(s, step)
    ensures LawfulBooks(s, Act(s, step).0, Act(s, step).1)
  {
    ActKeepsId(s, step);
    ActIsLawfulLog(s, step);
    ActSendsAcks(s, step);
    ActSendsAsks(s, step);
    ActEarnsVote(s, step);
    ActKeepsCandidateLog(s, step);
    ActMatchBacked(s, step);
    BackedStays(s.net, s.net + Act(s, step).1, Act(s, step).0);
  }

  // ---------- The books are kept ----------

  /** A node campaigns in a term once, when it enters it. */
  lemma RememberKeepsCampaigns(past: History, n: Node, n': Node)
    requires CampaignBook(past, n) && KeepsVote(n, n')
    ensures forall k | k in past.campaigns ::
      k in Remember(past, n, n').campaigns && Remember(past, n, n').campaigns[k] == past.campaigns[k]
  {
    assert n'.currentTerm != n.currentTerm ==> (n'.id, n'.currentTerm) !in past.campaigns;
  }

  lemma ActorCampaign(past: History, n: Node, n': Node)
    requires CampaignBook(past, n) && KeepsVote(n, n') && KeepsRole(n, n')
    requires n'.role == Candidate && n'.currentTerm == n.currentTerm ==> n'.log == n.log
    ensures CampaignBook(Remember(past, n, n'), n')
  {
  }

  lemma OtherCampaign(past: History, n: Node, n': Node, other: Node)
    requires CampaignBook(past, other) && n'.id != other.id
    ensures CampaignBook(Remember(past, n, n'), other)
  {
  }

  lemma UpdateKeepsCampaigns(s: Cluster, n': Node, sent: set<Message>)
    requires BooksInv(s) && LawfulBooks(s, n', sent)
    ensures forall k | k in s.past.campaigns :: k in Update(s, n', sent).past.campaigns
              && Update(s, n', sent).past.campaigns[k] == s.past.campaigns[k]
    ensures forall i | i in s.nodes :: CampaignBook(Update(s, n', sent).past, Update(s, n', sent).nodes[i])
  {
    var s', n := Update(s, n', sent), s.nodes[n'.id];
    assert Config(s) && Lawful(s, n', sent) && forall i | i in s.nodes :: CampaignBook(s.past, s.nodes[i]);
    hide BooksInv;
    hide LawfulBooks;
    hide ElectionInv;
    hide CampaignBook;
    hide Remember;
    RememberKeepsCampaigns(s.past, n, n');
    forall i | i in s.nodes ensures CampaignBook(s'.past, s'.nodes[i]) {
      if i == n'.id {
        ActorCampaign(s.past, n, n');
      } else {
        OtherCampaign(s.past, n, n', s.nodes[i]);
      }
    }
  }

  lemma UpdateKeepsAsks(s: Cluster, n': Node, sent: set<Message>)
    requires BooksInv(s) && LawfulBooks(s, n', sent)
    ensures forall m | m in Update(s, n', sent).net :: AskSent(Update(s, n', sent).past, m)
  {
    var s' := Update(s, n', sent);
    UpdateKeepsCampaigns(s, n', sent);
    forall m | m in s'.net ensures AskSent(s'.past, m) {
      if m in s.net {
        assert AskSent(s.past, m);
      }
    }
  }

  lemma UpdateKeepsBallots(s: Cluster, n': Node, sent: set<Message>)
    requires BooksInv(s) && LawfulBooks(s, n', sent)
    ensures forall k | k in Update(s, n', sent).past.ballots :: BallotEarned(Update(s, n', sent).past, k)
  {
    var s' := Update(s, n', sent);
    UpdateKeepsCampaigns(s, n', sent);
    UpdateGrowsPast(s, n', sent);
    forall k | k in s'.past.ballots ensures BallotEarned(s'.past, k) {
      if k in s.past.ballots {
        assert BallotEarned(s.past, k);
      }
    }
  }

  lemma UpdateKeepsAcks(s: Cluster, n': Node, sent: set<Message>)
    requires BooksInv(s) && LawfulBooks(s, n', sent)
    ensures forall m | m in Update(s, n', sent).net :: AckSent(Update(s, n', sent), m)
  {
    var s' := Update(s, n', sent);
    UpdateGrowsLogs(s, n', sent);
    forall m | m in s'.net ensures AckSent(s', m) {
      if m in s.net {
        assert AckSent(s, m);
      }
    }
  }

  lemma UpdateKeepsBooksInv(s: Cluster, n': Node, sent: set<Message>)
    requires BooksInv(s) && LawfulBooks(s, n', sent)
    ensures BooksInv(Update(s, n', sent))
  {
    var s' := Update(s, n', sent);
    UpdateKeepsLogInv(s, n', sent);
    UpdateKeepsCampaigns(s, n', sent);
    UpdateKeepsAsks(s, n', sent);
    UpdateKeepsBallots(s, n', sent);
    UpdateKeepsAcks(s, n', sent);
    forall i | i in s'.nodes ensures MatchBacked(s'.net, s'.nodes[i]) {
      if i != n'.id {
        BackedStays(s.net, s'.net, s.nodes[i]);
      }
    }
  }

  // ---------- A step, as the argument sees it ----------

  ghost predicate ElectionMoved(past: History, past': History, n: Node, n': Node, t: nat)
    requires t in past'.elections
  {
    || (t in past.elections && past'.elections[t] == past.elections[t])
    || (n'.role == Leader && t == n'.currentTerm && past'.elections[t].log == n'.log
        && (t in past.elections || (n'.log == n.log && past'.elections[t].start == n.log)))
  }

  ghost predicate AckMoved(past: History, n': Node, m: Message) {
    m.AppendReply? && m.ack.success ==>
      && m.src == n'.id && m.ack.term == n'.currentTerm && n'.role == Follower && m.ack.term in past.elections
      && m.ack.matchIndex <= |past.elections[m.ack.term].log|
      && past.elections[m.ack.term].log[..m.ack.matchIndex] <= n'.log
  }

  /** One node moves from `n` to `n'`; history, network and logs grow around it. */
  ghost predicate Moved(s: Cluster, s': Cluster, n: Node, n': Node) {
    && n'.id == n.id && n.id in s.nodes && s.nodes[n.id] == n && s'.nodes == s.nodes[n.id := n']
    && LogsGrow(s.past, s'.past) && LogStep(s.past, n, n') && n.currentTerm <= n'.currentTerm && KeepsRole(n, n')
    && (forall k | k in s.past.campaigns :: k in s'.past.campaigns && s'.past.campaigns[k] == s.past.campaigns[k])
    && (forall t | t in s'.past.elections :: ElectionMoved(s.past, s'.past, n, n', t))
    && s.net <= s'.net && (forall m | m in s'.net && m !in s.net :: AckMoved(s.past, n', m))
    && (forall k | k in s'.past.ballots && k !in s.past.ballots ::
          k == (n.id, n'.currentTerm) && s'.past.ballots[k].log == n'.log)
  }

  lemma ElectionsMove(past: History, n: Node, n': Node, t: nat)
    requires KeepsRole(n, n') && t in Remember(past, n, n').elections
    requires n.role == Leader ==> n.currentTerm in past.elections
    ensures ElectionMoved(past, Remember(past, n, n'), n, n', t)
  {
    RememberedLog(past, n, n', t);
  }

  lemma BallotsMove(past: History, n: Node, n': Node, k: (NodeId, nat))
    requires k in Remember(past, n, n').ballots && k !in past.ballots
    ensures k == (n'.id, n'.currentTerm) && Remember(past, n, n').ballots[k].log == n'.log
  {
  }

  lemma AcksMove(past: History, n': Node, sent: set<Message>)
    requires SendsAcks(past, n', sent)
    ensures forall m | m in sent :: AckMoved(past, n', m)
  {
  }

  lemma RememberMoves(past: History, n: Node, n': Node)
    requires KeepsRole(n, n') && (n.role == Leader ==> n.currentTerm in past.elections)
    ensures var past' := Remember(past, n, n');
      && (forall t | t in past'.elections :: ElectionMoved(past, past', n, n', t))
      && (forall k | k in past'.ballots && k !in past.ballots ::
            k == (n'.id, n'.currentTerm) && past'.ballots[k].log == n'.log)
  {
    hide Remember;
    hide ElectionMoved;
    var past' := Remember(past, n, n');
    forall t | t in past'.elections ensures ElectionMoved(past, past', n, n', t) {
      ElectionsMove(past, n, n', t);
    }
    forall k | k in past'.ballots && k !in past.ballots
      ensures k == (n'.id, n'.currentTerm) && past'.ballots[k].log == n'.log
    {
      BallotsMove(past, n, n', k);
    }
  }

  lemma MovedFrom(s: Cluster, n: Node, n': Node, sent: set<Message>)
    requires n'.id in s.nodes && n == s.nodes[n'.id] && n.id == n'.id && n.currentTerm <= n'.currentTerm
    requires var past' := Remember(s.past, n, n');
      && LogsGrow(s.past, past') && LogStep(s.past, n, n') && KeepsRole(n, n')
      && (forall k | k in s.past.campaigns :: k in past'.campaigns && past'.campaigns[k] == s.past.campaigns[k])
      && (forall t | t in past'.elections :: ElectionMoved(s.past, past', n, n', t))
      && (forall k | k in past'.ballots && k !in s.past.ballots ::
            k == (n'.id, n'.currentTerm) && past'.ballots[k].log == n'.log)
    requires forall m | m in sent :: AckMoved(s.past, n', m)
    ensures Moved(s, Update(s, n', sent), n, n')
  {
    hide Remember;
    hide LogsGrow;
    hide LogStep;
    hide KeepsRole;
    hide ElectionMoved;
    hide AckMoved;
  }

  lemma UpdateMoves(s: Cluster, n': Node, sent: set<Message>)
    requires BooksInv(s) && LawfulBooks(s, n', sent)
    ensures Moved(s, Update(s, n', sent), s.nodes[n'.id], n')
  {
    var n := s.nodes[n'.id];
    UpdateGrowsLogs(s, n', sent);
    UpdateKeepsCampaigns(s, n', sent);
    AcksMove(s.past, n', sent);
    assert Lawful(s, n', sent) && LogStep(s.past, n, n') && NodeLog(s.past, n);
    hide BooksInv;
    hide LawfulBooks;
    hide CampaignBook;
    hide SendsVotes;
    hide CountsVotes;
    hide AckMoved;
    hide LogStep;
    hide LogsGrow;
    hide Rooted;
    hide TermsUpTo;
    hide Remember;
    hide Moved;
    RememberMoves(s.past, n, n');
    hide ElectionMoved;
    hide KeepsRole;
    MovedFrom(s, n, n', sent);
  }

  // ---------- What can still be acknowledged only shrinks ----------

  /** A step's new acknowledgements are its actor's, in the actor's term. */
  lemma NewAck(s: Cluster, s': Cluster, n: Node, n': Node, v: NodeId, t: nat, i: nat)
    requires Moved(s, s', n, n') && t in s.past.elections && i <= |s.past.elections[t].log|
    requires Acked(s', v, t, i) && !Acked(s, v, t, i)
    ensures v == n.id && t == n'.currentTerm && s.past.elections[t].log[..i] <= n'.log
  {
    var m :| m in s'.net && IsAck(m, v, t, i);
    assert AckMoved(s.past, n', m);
    PrefixOn(s.past.elections[t].log[..i], s.past.elections[t].log[..m.ack.matchIndex], n'.log);
  }

  /** Acknowledgements are of terms the node has reached. */
  lemma AckedTerm(s: Cluster, v: NodeId, t: nat, i: nat)
    requires BooksInv(s) && v in s.nodes && Acked(s, v, t, i)
    ensures t in s.past.elections && t <= s.nodes[v].currentTerm && i <= |s.past.elections[t].log|
  {
    if m :| m in s.net && IsAck(m, v, t, i) {
      assert AckSent(s, m);
    } else {
      assert Office(s.past, s.nodes[v]);
    }
  }

  lemma PossibleBefore(s: Cluster, s': Cluster, n: Node, n': Node, t: nat, i: nat)
    requires Moved(s, s', n, n') && t in s.past.elections && i <= |s.past.elections[t].log|
    ensures Possible(s', t, i) <= Possible(s, t, i)
  {
    forall v | v in Possible(s', t, i) ensures v in Possible(s, t, i) {
      if Acked(s', v, t, i) && !Acked(s, v, t, i) {
        NewAck(s, s', n, n', v, t, i);
      }
    }
  }

  lemma ChoosableBefore(s: Cluster, s': Cluster, n: Node, n': Node, t: nat, i: nat)
    requires Moved(s, s', n, n') && t in s.past.elections && i <= |s.past.elections[t].log|
    requires Choosable(s', t, i)
    ensures Choosable(s, t, i) && Chosen(s.past, t, i) == Chosen(s'.past, t, i)
  {
    var before, after := s.past.elections[t].log, s'.past.elections[t].log;
    assert before == after[..|before|];
    assert before[i - 1] == after[i - 1] && before[..i] == after[..i];
    PossibleBefore(s, s', n, n', t, i);
    SubsetSize(Possible(s', t, i), Possible(s, t, i));
    assert s'.nodes.Keys == s.nodes.Keys && |s'.nodes.Keys| == |s'.nodes| && |s.nodes.Keys| == |s.nodes|;
  }

  ghost predicate OldEntry(past: History, t: nat, i: nat) {
    t in past.elections && i <= |past.elections[t].log|
  }

  /** An entry that a step creates is its actor's, the leader of the term. */
  lemma NewEntry(s: Cluster, s': Cluster, n: Node, n': Node, t: nat, i: nat)
    requires Moved(s, s', n, n') && NodeLog(s.past, n) && OwnEntry(s'.past, t, i) && !OldEntry(s.past, t, i)
    ensures n'.role == Leader && t == n'.currentTerm && t in s.past.elections && s'.past.elections[t].log == n'.log
  {
    RootedTerms(s.past, n.log);
    assert ElectionMoved(s.past, s'.past, n, n', t);
  }

  /** Only that leader counts as holding it. */
  lemma NewEntryHolder(s: Cluster, s': Cluster, n: Node, n': Node, t: nat, i: nat, v: NodeId)
    requires Moved(s, s', n, n') && NodeLog(s.past, n) && OwnEntry(s'.past, t, i) && !OldEntry(s.past, t, i)
    requires BooksInv(s) && Office(s'.past, n') && Acked(s', v, t, i)
    ensures v == n.id
  {
    NewEntry(s, s', n, n', t, i);
    if m :| m in s'.net && IsAck(m, v, t, i) {
      assert m in s.net ==> AckSent(s, m);
      assert m !in s.net ==> AckMoved(s.past, n', m);
    }
  }

  // ---------- Logs that hold the same entries ----------

  lemma LastTermBound(past: History, log: Log, i: nat)
    requires Rooted(past, log) && 1 <= i <= |log| && forall t | t in past.elections :: ElectionLog(past, t)
    ensures log[i - 1].term <= LastTerm(log) && LastTerm(log) in past.elections
    ensures log <= past.elections[LastTerm(log)].log
  {
    assert RootedAt(past, log, |log| - 1);
    assert log[..|log|] == log;
    assert ElectionLog(past, LastTerm(log));
    assert log[i - 1] == past.elections[LastTerm(log)].log[i - 1];
  }

  lemma PrefixesOfOne(a: Log, b: Log, c: Log)
    requires a <= c && b <= c && |a| <= |b|
    ensures a <= b
  {
    assert a == c[..|a|] && b == c[..|b|];
  }

  /** A log that ends in a later term than a prefix of its root is not shorter than it. */
  lemma EndsLater(log: Log, p: Log, lead: Log, t: nat)
    requires |log| > 0 && LastTerm(log) > t && TermsUpTo(p, t) && log <= lead && p <= lead
    ensures |log| > |p|
  {
    if |log| <= |p| {
      PrefixesOfOne(log, p, lead);
      PrefixTerms(log, p, t);
    }
  }

  lemma PrefixTerms(a: Log, b: Log, t: nat)
    requires a <= b && TermsUpTo(b, t)
    ensures TermsUpTo(a, t)
  {
    forall i | 0 <= i < |a| ensures a[i].term <= t {
      assert a[i] == b[i];
    }
  }

  lemma AllElectionLogs(s: Cluster)
    requires LogInv(s)
    ensures forall t | t in s.past.elections :: t >= 1 && ElectionLog(s.past, t)
  {
    hide ElectionInv;
    hide Rooted;
  }

  /** A later leader's log has the chosen prefix, and ends above it. */
  lemma LaterLeaderHas(s: Cluster, t: nat, i: nat, w: nat, log: Log)
    requires Choosable(s, t, i) && LeaderKeeps(s, t, i, w) && w in s.past.elections && w > t
    requires ElectionLog(s.past, w) && ElectionLog(s.past, t)
    requires |log| > 0 && LastTerm(log) == w && log <= s.past.elections[w].log
    ensures Chosen(s.past, t, i) <= s.past.elections[w].log && |log| > i
  {
    hide Rooted;
    hide Possible;
    var p, lead := Chosen(s.past, t, i), s.past.elections[w].log;
    PrefixOn(p, s.past.elections[w].start, lead);
    PrefixTerms(p, s.past.elections[t].log, t);
    EndsLater(log, p, lead, t);
  }

  /** A candidate that is as up to date as a voter who holds a chosen prefix holds it too. */
  lemma UpToDateKeeps(s: Cluster, t: nat, i: nat, voter: Log, candidate: Log)
    requires LogInv(s) && Choosable(s, t, i) && forall u :: LeaderKeeps(s, t, i, u)
    requires Rooted(s.past, voter) && Rooted(s.past, candidate)
    requires Chosen(s.past, t, i) <= voter && UpToDate(LastTerm(candidate), |candidate|, voter)
    ensures Chosen(s.past, t, i) <= candidate
  {
    AllElectionLogs(s);
    hide LogInv;
    hide Possible;
    hide LeaderKeeps;
    hide ElectionLog;
    hide Rooted;
    var p := Chosen(s.past, t, i);
    assert voter[i - 1] == p[i - 1];
    LastTermBound(s.past, voter, i);
    assert |candidate| > 0;
    LastTermBound(s.past, candidate, |candidate|);
    var w := LastTerm(candidate);
    var lead := s.past.elections[w].log;
    if w == LastTerm(voter) {
      PrefixOn(p, voter, lead);
    } else {
      assert LeaderKeeps(s, t, i, w);
      LaterLeaderHas(s, t, i, w, candidate);
    }
    PrefixesOfOne(p, candidate, lead);
  }

  // ---------- The entries are kept ----------

  lemma HeldThroughMerge(log: Log, log': Log, p: Log, lead: Log)
    requires p <= log && p <= lead && log' <= lead && !(log' <= log)
    ensures p <= log'
  {
    if |log'| < |p| {
      PrefixesOfOne(log', p, lead);
      PrefixOn(log', p, log);
      assert false;
    }
    PrefixesOfOne(p, log', lead);
  }

  lemma HeldThroughStep(s: Cluster, n: Node, n': Node, t: nat, i: nat)
    requires LogInv(s) && Choosable(s, t, i) && LeaderKeeps(s, t, i, n'.currentTerm)
    requires LogStep(s.past, n, n') && t <= n'.currentTerm && Chosen(s.past, t, i) <= n.log
    ensures Chosen(s.past, t, i) <= n'.log
  {
    hide ElectionInv;
    var p, w := Chosen(s.past, t, i), n'.currentTerm;
    if n.log <= n'.log {
      PrefixOn(p, n.log, n'.log);
    } else {
      var lead := s.past.elections[w].log;
      assert ElectionLog(s.past, w);
      if w > t {
        PrefixOn(p, s.past.elections[w].start, lead);
      }
      HeldThroughMerge(n.log, n'.log, p, lead);
    }
  }

  lemma MoveNodeKeeps(s: Cluster, s': Cluster, n: Node, n': Node, v: NodeId, t: nat, i: nat)
    requires KeepInv(s) && Moved(s, s', n, n') && Office(s'.past, n')
    ensures NodeKeeps(s', v, t, i)
  {
    if v in s'.nodes && Choosable(s', t, i) && Acked(s', v, t, i) {
      assert NodeLog(s.past, n);
      if !OldEntry(s.past, t, i) {
        NewEntry(s, s', n, n', t, i);
        NewEntryHolder(s, s', n, n', t, i, v);
      } else {
        ChoosableBefore(s, s', n, n', t, i);
        if !Acked(s, v, t, i) {
          NewAck(s, s', n, n', v, t, i);
        } else {
          assert NodeKeeps(s, v, t, i);
          AckedTerm(s, v, t, i);
          if v == n.id {
            assert LeaderKeeps(s, t, i, n'.currentTerm);
            HeldThroughStep(s, n, n', t, i);
          }
        }
      }
    }
  }

  lemma VoterTerm(s: Cluster, v: NodeId, u: nat)
    requires ElectionInv(s) && (v, u) in s.past.ballots && v in s.nodes
    ensures u <= s.nodes[v].currentTerm
  {
    assert VoteBook(s.past, s.nodes[v]);
  }

  lemma MoveBallotKeeps(s: Cluster, s': Cluster, n: Node, n': Node, v: NodeId, u: nat, t: nat, i: nat)
    requires KeepInv(s) && Moved(s, s', n, n') && Office(s'.past, n')
    ensures BallotKeeps(s', v, u, t, i)
  {
    if v in s'.nodes && (v, u) in s'.past.ballots && t < u && Choosable(s', t, i) && Acked(s', v, t, i) {
      if (v, u) !in s.past.ballots {
        MoveNodeKeeps(s, s', n, n', v, t, i);
        assert NodeKeeps(s', v, t, i);
      } else {
        VoterTerm(s, v, u);
        assert NodeLog(s.past, n);
        if !OldEntry(s.past, t, i) {
          NewEntry(s, s', n, n', t, i);
          NewEntryHolder(s, s', n, n', t, i, v);
        } else {
          ChoosableBefore(s, s', n, n', t, i);
          if !Acked(s, v, t, i) {
            NewAck(s, s', n, n', v, t, i);
          }
          assert BallotKeeps(s, v, u, t, i);
        }
      }
    }
  }

  /** A majority that voted in a later term and a majority that may acknowledge share a node
      that has acknowledged. */
  lemma VoterAcked(s: Cluster, t: nat, i: nat, u: nat) returns (v: NodeId)
    requires ElectionInv(s) && u > t && u in s.past.elections && 2 * |Possible(s, t, i)| > |s.nodes|
    ensures v in s.nodes && VotedFor(s.past, v, u, s.past.elections[u].leader)
    ensures Acked(s, v, t, i) && s.nodes[v].currentTerm >= u
  {
    assert |s.nodes.Keys| == |s.nodes| && Mandate(s.past, s.nodes.Keys, u);
    v := MajoritiesMeet(s.nodes.Keys, Possible(s, t, i), Voters(s.past, s.nodes.Keys, u, s.past.elections[u].leader));
    VoterTerm(s, v, u);
  }

  lemma NewLeaderKeeps(s: Cluster, s': Cluster, n: Node, n': Node, t: nat, i: nat, v: NodeId, u: nat)
    requires KeepInv(s) && Moved(s, s', n, n') && Choosable(s, t, i) && t < u && u !in s.past.elections
    requires n'.role == Leader && u == n'.currentTerm && VotedFor(s'.past, v, u, n.id) && n'.log == n.log
    requires (v, u) in s'.past.ballots && Chosen(s.past, t, i) <= s'.past.ballots[(v, u)].log
    ensures Chosen(s.past, t, i) <= n.log
  {
    if (v, u) in s.past.ballots {
      assert NodeLog(s.past, n) && CampaignBook(s.past, n) && BallotEarned(s.past, (v, u));
      assert s'.past.ballots[(v, u)] == s.past.ballots[(v, u)];
      UpToDateKeeps(s, t, i, s.past.ballots[(v, u)].log, n.log);
    }
  }

  lemma MoveLeaderKeeps(s: Cluster, s': Cluster, n: Node, n': Node, t: nat, i: nat, u: nat)
    requires KeepInv(s) && Moved(s, s', n, n') && ElectionInv(s')
    ensures LeaderKeeps(s', t, i, u)
  {
    if Choosable(s', t, i) && u in s'.past.elections && u > t {
      assert NodeLog(s.past, n) && Office(s'.past, s'.nodes[n.id]);
      var v := VoterAcked(s', t, i, u);
      if !OldEntry(s.past, t, i) {
        NewEntry(s, s', n, n', t, i);
        NewEntryHolder(s, s', n, n', t, i, v);
        assert false;
      }
      ChoosableBefore(s, s', n, n', t, i);
      if u in s.past.elections {
        assert LeaderKeeps(s, t, i, u);
      } else {
        assert ElectionMoved(s.past, s'.past, n, n', u);
        MoveBallotKeeps(s, s', n, n', v, u, t, i);
        assert BallotKeeps(s', v, u, t, i);
        NewLeaderKeeps(s, s', n, n', t, i, v, u);
      }
    }
  }

  lemma NextKeepsKeepInv(s: Cluster, step: Step)
    requires KeepInv(s) && Enabled(s, step) && NoGap(s, step) && SameTerm(s, step)
    ensures KeepInv(Next(s, step))
  {
    ActIsLawfulBooks(s, step);
    var n', sent := Act(s, step).0, Act(s, step).1;
    UpdateMoves(s, n', sent);
    UpdateKeepsBooksInv(s, n', sent);
    MoveKeepsKeepInv(s, Update(s, n', sent), s.nodes[n'.id], n');
  }

  lemma MoveKeepsKeepInv(s: Cluster, s': Cluster, n: Node, n': Node)
    requires KeepInv(s) && Moved(s, s', n, n') && BooksInv(s')
    ensures KeepInv(s')
  {
    assert Office(s'.past, s'.nodes[n.id]);
    forall t, i, u ensures LeaderKeeps(s', t, i, u) {
      MoveLeaderKeeps(s, s', n, n', t, i, u);
    }
    forall v, u, t, i ensures BallotKeeps(s', v, u, t, i) {
      MoveBallotKeeps(s, s', n, n', v, u, t, i);
    }
    forall v, t, i ensures NodeKeeps(s', v, t, i) {
      MoveNodeKeeps(s, s', n, n', v, t, i);
    }
  }

  // ---------- Over runs ----------

  lemma InitKeeps(s: Cluster)
    requires Init(s)
    ensures KeepInv(s)
  {
    hide ElectionInv;
    hide Store;
    InitHasElectionInv(s);
    forall i | i in s.nodes ensures MatchBacked(s.net, s.nodes[i]) {
      InitMatchBacked(s.net, s.nodes[i].id, s.nodes[i].peers);
    }
  }

  lemma InitMatchBacked(net: set<Message>, id: NodeId, peers: seq<NodeId>)
    ensures MatchBacked(net, InitialNode(id, peers))
  {
    StoreSets(map[], peers, 0);
  }

  lemma {:induction false} RunKeepsKeepInv(run: seq<Cluster>, steps: seq<Step>, k: nat)
    requires Run(run, steps) && GapFree(run, steps) && AcksInTerm(run, steps) && k < |run|
    ensures KeepInv(run[k])
  {
    hide Next;
    hide KeepInv;
    hide NoGap;
    hide SameTerm;
    if k == 0 {
      InitKeeps(run[0]);
    } else {
      RunKeepsKeepInv(run, steps, k - 1);
      assert Linked(run, steps, k - 1) && Gapless(run, steps, k - 1) && CountsInTerm(run, steps, k - 1);
      NextKeepsKeepInv(run[k - 1], steps[k - 1]);
    }
  }

  /** In step k, node a as leader raises its commit index. */
  ghost predicate Commits(run: seq<Cluster>, steps: seq<Step>, k: nat, a: NodeId)
    requires Run(run, steps) && k < |steps|
  {
    && steps[k].ReceiveSuccess? && steps[k].m.dst == a && a in run[k].nodes && a in run[k + 1].nodes
    && run[k + 1].nodes[a].commitIndex > run[k].nodes[a].commitIndex
  }

  function Committed(n: Node): Log {
    if n.commitIndex <= |n.log| then n.log[..n.commitIndex] else n.log
  }

  lemma SuccessCommits(n: Node, peer: NodeId, ack: AppendResponse)
    requires RecordAppendSuccess(n, peer, ack).commitIndex > n.commitIndex
    ensures var n' := RecordAppendSuccess(n, peer, ack);
            && n'.role == Leader && n'.id == n.id && n'.log == n.log && n'.currentTerm == n.currentTerm
            && IsQuorumMatch(n'.matchIndex, |n'.log|, n'.commitIndex)
            && TermAt(n'.log, n'.commitIndex) == n'.currentTerm
  {
  }

  ghost function Holders(s: Cluster, t: nat, i: nat): set<NodeId> {
    set v | v in s.nodes && Acked(s, v, t, i)
  }

  /** A leader's count is of nodes that acknowledged in its term, itself included. */
  lemma CountedHold(s: Cluster, n: Node, c: nat)
    requires Config(s) && n.id in s.nodes && s.nodes[n.id] == n && n.role == Leader && MatchBacked(s.net, n)
    requires n.currentTerm in s.past.elections && s.past.elections[n.currentTerm].leader == n.id
    requires s.past.elections[n.currentTerm].log == n.log && 0 < c <= |n.log|
    ensures MatchCount(n.matchIndex, |n.log|, c) <= |Holders(s, n.currentTerm, c)|
  {
    var matched := set p | p in n.matchIndex && n.matchIndex[p] >= c;
    forall p | p in matched ensures p in Holders(s, n.currentTerm, c) {
      assert Backed(s.net, n, p);
      var m :| m in s.net && IsAck(m, p, n.currentTerm, n.matchIndex[p]);
      assert IsAck(m, p, n.currentTerm, c);
    }
    assert n.id !in matched;
    assert |matched + {n.id}| == |matched| + 1;
    SubsetSize(matched + {n.id}, Holders(s, n.currentTerm, c));
  }

  /** What a leader commits is held by a strict majority: each has acknowledged it in the
      leader's term, or is the leader. */
  lemma CommittedByMajority(s: Cluster, n: Node)
    requires BooksInv(s) && n.id in s.nodes && s.nodes[n.id] == n && n.role == Leader && n.commitIndex > 0
    requires IsQuorumMatch(n.matchIndex, |n.log|, n.commitIndex) && TermAt(n.log, n.commitIndex) == n.currentTerm
    ensures 2 * |Holders(s, n.currentTerm, n.commitIndex)| > |s.nodes|
    ensures OwnEntry(s.past, n.currentTerm, n.commitIndex)
    ensures Chosen(s.past, n.currentTerm, n.commitIndex) == Committed(n)
  {
    assert NodeLog(s.past, n) && Office(s.past, n) && MatchBacked(s.net, n);
    assert n.commitIndex <= |n.log|;
    CountedHold(s, n, n.commitIndex);
    PeerCount(s, n);
  }

  lemma PeerCount(s: Cluster, n: Node)
    requires Config(s) && n.id in s.nodes && s.nodes[n.id] == n && n.matchIndex.Keys == set p | p in n.peers
    ensures |n.matchIndex| + 1 == |s.nodes|
  {
    assert n.matchIndex.Keys == s.nodes.Keys - {n.id};
    assert |n.matchIndex.Keys| == |n.matchIndex| && |s.nodes.Keys| == |s.nodes|;
  }

  /** Leader completeness: the prefix a leader commits is in the log of every leader of every
      later term, before and after the commit. */
  lemma LeaderCompleteness(run: seq<Cluster>, steps: seq<Step>, k: nat, a: NodeId, j: nat, b: NodeId)
    requires Run(run, steps) && GapFree(run, steps) && AcksInTerm(run, steps)
    requires k < |steps| && Commits(run, steps, k, a)
    requires j < |run| && b in run[j].nodes && run[j].nodes[b].role == Leader
    requires run[j].nodes[b].currentTerm > run[k + 1].nodes[a].currentTerm
    ensures Committed(run[k + 1].nodes[a]) <= run[j].nodes[b].log
  {
    var n, late := run[k + 1].nodes[a], if j > k then j else k + 1;
    var t, c, u := n.currentTerm, n.commitIndex, run[j].nodes[b].currentTerm;
    CommitIsChoosable(run, steps, k, a);
    RunKeepsKeepInv(run, steps, late);
    RunKeepsKeepInv(run, steps, j);
    assert NodeLog(run[j].past, run[j].nodes[b]) && ElectionLog(run[j].past, u);
    RunGrowsPast(run, steps, j, late);
    ChoosableLasts(run, steps, k, a, late);
    assert LeaderKeeps(run[late], t, c, u);
    PrefixOn(Committed(n), run[j].past.elections[u].start, run[j].nodes[b].log);
  }

  lemma CommitIsChoosable(run: seq<Cluster>, steps: seq<Step>, k: nat, a: NodeId)
    requires Run(run, steps) && GapFree(run, steps) && AcksInTerm(run, steps)
    requires k < |steps| && Commits(run, steps, k, a)
    ensures var n, s := run[k + 1].nodes[a], run[k + 1];
            && n.role == Leader && n.id == a && TermAt(n.log, n.commitIndex) == n.currentTerm
            && OwnEntry(s.past, n.currentTerm, n.commitIndex)
            && Chosen(s.past, n.currentTerm, n.commitIndex) == Committed(n)
            && 2 * |Holders(s, n.currentTerm, n.commitIndex)| > |s.nodes|
  {
    RunKeepsKeepInv(run, steps, k + 1);
    CommitStep(run, steps, k, a);
    CommittedByMajority(run[k + 1], run[k + 1].nodes[a]);
  }

  lemma CommitStep(run: seq<Cluster>, steps: seq<Step>, k: nat, a: NodeId)
    requires Run(run, steps) && k < |steps| && Commits(run, steps, k, a)
    ensures var n := run[k + 1].nodes[a];
            && n.role == Leader && n.id == a && n.commitIndex > 0
            && IsQuorumMatch(n.matchIndex, |n.log|, n.commitIndex) && TermAt(n.log, n.commitIndex) == n.currentTerm
  {
    var n := run[k].nodes[a];
    assert Linked(run, steps, k);
    assert run[k + 1].nodes[a] == RecordAppendSuccess(n, steps[k].m.src, steps[k].m.ack);
    SuccessCommits(n, steps[k].m.src, steps[k].m.ack);
  }

  /** A majority that has acknowledged stays one. */
  lemma {:induction false} ChoosableLasts(run: seq<Cluster>, steps: seq<Step>, k: nat, a: NodeId, late: nat)
    requires Run(run, steps) && GapFree(run, steps) && AcksInTerm(run, steps)
    requires k < |steps| && Commits(run, steps, k, a) && k < late < |run|
    ensures var n := run[k + 1].nodes[a];
            && Choosable(run[late], n.currentTerm, n.commitIndex)
            && Chosen(run[late].past, n.currentTerm, n.commitIndex) == Committed(n)
  {
    CommitIsChoosable(run, steps, k, a);
    RunGrowsLogs(run, steps, k + 1, late);
    RunGrowsNet(run, steps, k + 1, late);
    AckedLasts(run[k + 1], run[late], run[k + 1].nodes[a].currentTerm, run[k + 1].nodes[a].commitIndex);
  }

  lemma AckedLasts(s: Cluster, s': Cluster, t: nat, i: nat)
    requires LogsGrow(s.past, s'.past) && s.net <= s'.net && s.nodes.Keys == s'.nodes.Keys && OwnEntry(s.past, t, i)
    requires 2 * |Holders(s, t, i)| > |s.nodes|
    ensures Choosable(s', t, i) && Chosen(s'.past, t, i) == Chosen(s.past, t, i)
  {
    SubsetSize(Holders(s, t, i), Possible(s', t, i));
    assert |s.nodes.Keys| == |s.nodes| && |s'.nodes.Keys| == |s'.nodes|;
    assert s.past.elections[t].log[i - 1] == s'.past.elections[t].log[i - 1];
  }

  lemma {:induction false} RunGrowsNet(run: seq<Cluster>, steps: seq<Step>, j: nat, k: nat)
    requires Run(run, steps) && j <= k < |run|
    ensures run[j].net <= run[k].net && run[j].nodes.Keys == run[k].nodes.Keys
    decreases k - j
  {
    hide Act;
    hide ElectionInv;
    RunKeepsElectionInv(run, steps, j);
    RunKeepsElectionInv(run, steps, k);
    if j < k {
      RunGrowsNet(run, steps, j, k - 1);
      assert Linked(run, steps, k - 1);
    }
  }

  /** The committed prefixes of any two leaders are one a prefix of the other. */
  lemma LeaderCommitsAgree(run: seq<Cluster>, steps: seq<Step>, j: nat, a: NodeId, k: nat, b: NodeId)
    requires Run(run, steps) && GapFree(run, steps) && AcksInTerm(run, steps)
    requires j < |steps| && Commits(run, steps, j, a) && k < |steps| && Commits(run, steps, k, b)
    requires run[j + 1].nodes[a].currentTerm <= run[k + 1].nodes[b].currentTerm
    ensures || Committed(run[j + 1].nodes[a]) <= Committed(run[k + 1].nodes[b])
            || Committed(run[k + 1].nodes[b]) <= Committed(run[j + 1].nodes[a])
  {
    var p, q := run[j + 1].nodes[a], run[k + 1].nodes[b];
    CommitStep(run, steps, j, a);
    CommitStep(run, steps, k, b);
    if p.currentTerm < q.currentTerm {
      LeaderCompleteness(run, steps, j, a, k + 1, b);
      CommittedIsPrefix(q);
      PrefixesCompare(Committed(p), Committed(q), q.log);
    } else {
      ElectionSafety(run, steps, j + 1, k + 1, a, b);
      CommittedIsPrefix(p);
      CommittedIsPrefix(q);
      if j <= k {
        LeaderAppendsOnly(run, steps, j + 1, k + 1, a);
        PrefixOn(Committed(p), p.log, q.log);
        PrefixesCompare(Committed(p), Committed(q), q.log);
      } else {
        LeaderAppendsOnly(run, steps, k + 1, j + 1, a);
        PrefixOn(Committed(q), q.log, p.log);
        PrefixesCompare(Committed(p), Committed(q), p.log);
      }
    }
  }

  lemma CommittedIsPrefix(n: Node)
    ensures Committed(n) <= n.log
  {
  }

  lemma PrefixesCompare(a: Log, b: Log, c: Log)
    requires a <= c && b <= c
    ensures a <= b || b <= a
  {
    if |a| <= |b| { PrefixesOfOne(a, b, c); } else { PrefixesOfOne(b, a, c); }
  }
}
