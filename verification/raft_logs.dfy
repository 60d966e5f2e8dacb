/** Log matching (section 5.3 of Raft), for runs in which no append leaves a gap. */
module RaftLogs {
  import opened RaftNodeSpec
  import opened RaftCluster
  import opened RaftElection
  import RaftMerge

  // ---------- The invariant ----------

  /** Every prefix that ends in an entry of term t is a prefix of what t's leader had. */
  ghost predicate Rooted(past: History, log: Log) {
    forall i | 0 <= i < |log| :: RootedAt(past, log, i)
  }

  ghost predicate RootedAt(past: History, log: Log, i: nat)
    requires i < |log|
  {
    log[i].index == i + 1 && log[i].term in past.elections && log[..i + 1] <= past.elections[log[i].term].log
  }

  ghost predicate TermsUpTo(log: Log, term: nat) {
    forall i | 0 <= i < |log| :: log[i].term <= term
  }

  ghost predicate NodeLog(past: History, n: Node) {
    && Rooted(past, n.log) && TermsUpTo(n.log, n.currentTerm)
    && (n.role != Follower ==> n.currentTerm >= 1)
    && (n.role == Leader ==> n.currentTerm in past.elections && past.elections[n.currentTerm].log == n.log)
  }

  ghost predicate ElectionLog(past: History, t: nat) {
    t in past.elections ==>
      && t >= 1 && past.elections[t].start <= past.elections[t].log
      && Rooted(past, past.elections[t].log) && TermsUpTo(past.elections[t].log, t)
  }

  /** An append request carries a slice of its leader's log, except that a heartbeat may name
      a previous index beyond it, with previous term 0. */
  ghost predicate Slice(past: History, m: Message) {
    m.AppendAsk? ==>
      var r := m.append;
      && r.term in past.elections && past.elections[r.term].leader == m.src == r.leaderId && m.dst != m.src
      && Consecutive(r.entries, r.prevLogIndex)
      && (FromLog(past.elections[r.term].log, r) || (r.entries == [] && r.prevLogIndex > 0 && r.prevLogTerm == 0))
  }

  predicate FromLog(log: Log, r: AppendRequest) {
    && r.prevLogIndex + |r.entries| <= |log|
    && r.entries == log[r.prevLogIndex..r.prevLogIndex + |r.entries|]
    && r.prevLogTerm == TermAt(log, r.prevLogIndex)
  }

  ghost predicate LogInv(s: Cluster) {
    && ElectionInv(s)
    && (forall i | i in s.nodes :: NodeLog(s.past, s.nodes[i]))
    && (forall k | k in s.past.ballots :: Rooted(s.past, s.past.ballots[k].log))
    && (forall t | t in s.past.elections :: ElectionLog(s.past, t))
    && (forall m | m in s.net :: Slice(s.past, m))
  }

  // ---------- Logs with a common root ----------

  /** Two rooted logs that hold the same term at a position agree up to it. */
  lemma RootedAgree(past: History, a: Log, b: Log, i: nat)
    requires Rooted(past, a) && Rooted(past, b) && i < |a| && i < |b| && a[i].term == b[i].term
    ensures a[..i + 1] == b[..i + 1] && a[i] == b[i]
  {
    assert RootedAt(past, a, i) && RootedAt(past, b, i);
    assert a[i] == a[..i + 1][i] && b[i] == b[..i + 1][i];
  }

  lemma RootedMatch(past: History, a: Log, b: Log)
    requires Rooted(past, a) && Rooted(past, b)
    ensures forall i | 0 <= i < |a| && i < |b| && a[i].term == b[i].term :: a[i] == b[i]
  {
    forall i | 0 <= i < |a| && i < |b| && a[i].term == b[i].term ensures a[i] == b[i] {
      RootedAgree(past, a, b, i);
    }
  }

  lemma RootedTerms(past: History, log: Log)
    requires Rooted(past, log)
    ensures forall i | 0 <= i < |log| :: log[i].term in past.elections
  {
    forall i | 0 <= i < |log| ensures log[i].term in past.elections {
      assert RootedAt(past, log, i);
    }
  }

  lemma RootedIndexed(past: History, log: Log)
    requires Rooted(past, log)
    ensures Indexed(log)
  {
    forall i | 0 <= i < |log| ensures log[i].index == i + 1 {
      assert RootedAt(past, log, i);
    }
  }

  lemma RootedPrefix(past: History, log: Log, len: nat)
    requires Rooted(past, log) && len <= |log|
    ensures Rooted(past, log[..len])
  {
    forall i | 0 <= i < len ensures RootedAt(past, log[..len], i) {
      assert RootedAt(past, log, i);
      assert log[..len][..i + 1] == log[..i + 1] && log[..len][i] == log[i];
    }
  }

  lemma RootedPushed(past: History, log: Log, log': Log, term: nat)
    requires Rooted(past, log) && Appends(log, log', term)
    requires term in past.elections && past.elections[term].log == log'
    ensures Rooted(past, log')
  {
    forall i | 0 <= i < |log'| ensures RootedAt(past, log', i) {
      if i < |log| {
        assert RootedAt(past, log, i);
        assert log'[..i + 1] == log[..i + 1] && log'[i] == log[i];
      } else {
        assert log'[..i + 1] == log';
      }
    }
  }

  /** An accepted request with a previous entry comes from the leader's log, which agrees
      with the receiver's up to that entry. */
  lemma AcceptedAgrees(past: History, log: Log, m: Message)
    requires m.AppendAsk? && Slice(past, m) && Rooted(past, log)
    requires ElectionLog(past, m.append.term) && forall t | t in past.elections :: t >= 1
    requires m.append.prevLogIndex <= |log| && Consistent(log, m.append)
    ensures FromLog(past.elections[m.append.term].log, m.append)
    ensures log[..m.append.prevLogIndex] == past.elections[m.append.term].log[..m.append.prevLogIndex]
  {
    var prev := m.append.prevLogIndex;
    if prev > 0 {
      assert RootedAt(past, log, prev - 1);
      RootedAgree(past, log, past.elections[m.append.term].log, prev - 1);
    }
  }

  /** The merge of an accepted request, in terms of the leader's log. */
  lemma AcceptedMerge(past: History, log: Log, m: Message)
    requires m.AppendAsk? && Slice(past, m) && Rooted(past, log)
    requires ElectionLog(past, m.append.term) && forall t | t in past.elections :: t >= 1
    requires m.append.prevLogIndex <= |log| && Consistent(log, m.append)
    ensures var lead, end := past.elections[m.append.term].log, m.append.prevLogIndex + |m.append.entries|;
            && end <= |lead|
            && Merge(log, m.append.entries) == if lead[..end] <= log then log else lead[..end]
  {
    var lead, prev, entries := past.elections[m.append.term].log, m.append.prevLogIndex, m.append.entries;
    AcceptedAgrees(past, log, m);
    RootedMatch(past, log, lead);
    hide Rooted;
    hide Slice;
    hide TermAt;
    hide ElectionLog;
    hide Merge;
    RaftMerge.MergeSlice(log, lead, prev, entries);
  }

  // ---------- What a step does to a log ----------

  predicate Appends(log: Log, log': Log, term: nat) {
    |log'| == |log| + 1 && log <= log' && log'[|log|].index == |log| + 1 && log'[|log|].term == term
  }

  ghost predicate LogStep(past: History, n: Node, n': Node) {
    || n'.log == n.log
    || (n.role == Leader && n'.role == Leader && Appends(n.log, n'.log, n.currentTerm))
    || (n'.role == Follower && n'.currentTerm in past.elections
        && n'.log <= past.elections[n'.currentTerm].log && !(n'.log <= n.log))
  }

  ghost predicate SendsSlices(n': Node, sent: set<Message>) {
    forall m | m in sent && m.AppendAsk? ::
      && n'.role == Leader && m.append.term == n'.currentTerm && m.src == n'.id == m.append.leaderId && m.dst != m.src
      && Consecutive(m.append.entries, m.append.prevLogIndex)
      && (FromLog(n'.log, m.append)
          || (m.append.entries == [] && m.append.prevLogIndex > 0 && m.append.prevLogTerm == 0))
  }

  ghost predicate LawfulLog(s: Cluster, n': Node, sent: set<Message>) {
    && Lawful(s, n', sent)
    && LogStep(s.past, s.nodes[n'.id], n')
    && SendsSlices(n', sent)
  }

  lemma HandleAppendLogStep(past: History, n: Node, m: Message)
    requires NodeLog(past, n) && m.AppendAsk? && Slice(past, m) && m.append.prevLogIndex <= |n.log|
    requires ElectionLog(past, m.append.term) && forall t | t in past.elections :: t >= 1
    ensures LogStep(past, n, HandleAppend(n, m.append).0)
  {
    if m.append.term >= n.currentTerm && Consistent(n.log, m.append) {
      AcceptedMerge(past, n.log, m);
    }
  }

  lemma ActLeavesLog(s: Cluster, step: Step)
    requires Config(s) && Enabled(s, step) && !step.ReceiveAppend? && !step.Client?
    ensures Act(s, step).0.log == s.nodes[Actor(step)].log
  {
    ActIsRoutine(s, step);
    hide Act;
  }

  lemma TermsPositive(s: Cluster)
    requires LogInv(s)
    ensures forall t | t in s.past.elections :: t >= 1
  {
    forall t | t in s.past.elections ensures t >= 1 {
      assert ElectionLog(s.past, t);
    }
  }

  lemma ActLogStep(s: Cluster, step: Step)
    requires LogInv(s) && Enabled(s, step) && NoGap(s, step)
    ensures LogStep(s.past, s.nodes[Actor(step)], Act(s, step).0)
  {
    if step.ReceiveAppend? {
      var n, m := s.nodes[step.m.dst], step.m;
      assert NodeLog(s.past, n) && Slice(s.past, m) && ElectionLog(s.past, m.append.term);
      TermsPositive(s);
      HandleAppendLogStep(s.past, n, m);
    } else if step.Client? {
    } else {
      ActLeavesLog(s, step);
    }
  }

  lemma ActSendsNoAppend(s: Cluster, step: Step)
    requires Config(s) && Enabled(s, step) && !step.SendHeartbeat? && !step.SendEntries?
    ensures forall m | m in Act(s, step).1 :: !m.AppendAsk?
  {
  }

  lemma ReplicateSlices(n: Node, lo: nat, hi: nat)
    requires lo <= hi <= |n.log| && Indexed(n.log)
    ensures Consecutive(ReplicateRequest(n, lo, hi).entries, lo) && FromLog(n.log, ReplicateRequest(n, lo, hi))
  {
  }

  lemma HeartbeatSlices(n: Node, peer: NodeId)
    ensures var r := HeartbeatFor(n, peer);
            Consecutive(r.entries, r.prevLogIndex)
            && (FromLog(n.log, r) || (r.entries == [] && r.prevLogIndex > 0 && r.prevLogTerm == 0))
  {
    var r := HeartbeatFor(n, peer);
    assert r.prevLogIndex <= |n.log| ==> r.entries == n.log[r.prevLogIndex..r.prevLogIndex];
  }

  lemma SendsOneSlice(n: Node, peer: NodeId, r: AppendRequest)
    requires n.role == Leader && peer != n.id && r.term == n.currentTerm && r.leaderId == n.id
    requires Consecutive(r.entries, r.prevLogIndex)
    requires FromLog(n.log, r) || (r.entries == [] && r.prevLogIndex > 0 && r.prevLogTerm == 0)
    ensures SendsSlices(n, {AppendAsk(n.id, peer, r)})
  {
  }

  lemma SendEntriesSlices(s: Cluster, step: Step)
    requires LogInv(s) && Enabled(s, step) && step.SendEntries?
    ensures SendsSlices(Act(s, step).0, Act(s, step).1)
  {
    var n := s.nodes[step.at];
    assert Config(s) && NodeLog(s.past, n);
    hide LogInv;
    hide SendsSlices;
    RootedIndexed(s.past, n.log);
    ReplicateSlices(n, step.lo, step.hi);
    SendsOneSlice(n, step.peer, ReplicateRequest(n, step.lo, step.hi));
  }

  lemma SendHeartbeatSlices(s: Cluster, step: Step)
    requires Config(s) && Enabled(s, step) && step.SendHeartbeat?
    ensures SendsSlices(Act(s, step).0, Act(s, step).1)
  {
    hide SendsSlices;
    var n := s.nodes[step.at];
    HeartbeatSlices(n, step.peer);
    SendsOneSlice(n, step.peer, HeartbeatFor(n, step.peer));
  }

  lemma ActSendsSlices(s: Cluster, step: Step)
    requires LogInv(s) && Enabled(s, step)
    ensures SendsSlices(Act(s, step).0, Act(s, step).1)
  {
    assert Config(s);
    if step.SendEntries? {
      SendEntriesSlices(s, step);
    } else if step.SendHeartbeat? {
      SendHeartbeatSlices(s, step);
    } else {
      hide LogInv;
      hide Act;
      ActSendsNoAppend(s, step);
    }
  }

  lemma ActIsLawfulLog(s: Cluster, step: Step)
    requires LogInv(s) && Enabled(s, step) && NoGap(s, step)
    ensures LawfulLog(s, Act(s, step).0, Act(s, step).1)
  {
    ActIsLawful(s, step);
    ActKeepsId(s, step);
    ActLogStep(s, step);
    ActSendsSlices(s, step);
  }

  // ---------- The history only grows ----------

  ghost predicate LogsGrow(past: History, past': History) {
    PastGrows(past, past')
    && forall t | t in past.elections :: past.elections[t].log <= past'.elections[t].log
  }

  lemma UpdateGrowsLogs(s: Cluster, n': Node, sent: set<Message>)
    requires LogInv(s) && LawfulLog(s, n', sent)
    ensures LogsGrow(s.past, Update(s, n', sent).past)
  {
    UpdateGrowsPast(s, n', sent);
    assert NodeLog(s.past, s.nodes[n'.id]);
    if n'.role == Leader && s.nodes[n'.id].role != Leader {
      WinIsNew(s, n', sent);
    }
    hide LogInv;
    hide Rooted;
    hide PastGrows;
    hide SendsSlices;
    hide SendsVotes;
    hide CountsVotes;
    hide Remember;
    RememberGrowsLogs(s.past, s.nodes[n'.id], n');
  }

  lemma RememberGrowsLogs(past: History, n: Node, n': Node)
    requires NodeLog(past, n) && LogStep(past, n, n') && KeepsRole(n, n')
    requires n'.role == Leader && n.role != Leader ==> n'.currentTerm !in past.elections
    requires PastGrows(past, Remember(past, n, n'))
    ensures LogsGrow(past, Remember(past, n, n'))
  {
    hide Rooted;
    hide TermsUpTo;
  }

  lemma RootedStays(past: History, past': History, log: Log)
    requires LogsGrow(past, past') && Rooted(past, log)
    ensures Rooted(past', log)
  {
    forall i | 0 <= i < |log| ensures RootedAt(past', log, i) {
      assert RootedAt(past, log, i);
      PrefixOn(log[..i + 1], past.elections[log[i].term].log, past'.elections[log[i].term].log);
    }
  }

  lemma PrefixOn(a: Log, b: Log, c: Log)
    requires a <= b && b <= c
    ensures a <= c
  {
    assert a == c[..|a|];
  }

  // ---------- The invariant is kept ----------

  lemma LogStepKeepsLog(past: History, past': History, n: Node, n': Node)
    requires NodeLog(past, n) && KeepsVote(n, n') && KeepsRole(n, n') && LogStep(past, n, n') && LogsGrow(past, past')
    requires n'.currentTerm in past.elections ==> ElectionLog(past, n'.currentTerm)
    requires n'.role == Leader ==> n'.currentTerm in past'.elections && past'.elections[n'.currentTerm].log == n'.log
    ensures NodeLog(past', n')
  {
    if n'.log == n.log {
      RootedStays(past, past', n.log);
    } else if n'.role == Follower {
      var lead := past.elections[n'.currentTerm].log;
      RootedPrefix(past, lead, |n'.log|);
      assert n'.log == lead[..|n'.log|];
      RootedStays(past, past', n'.log);
    } else {
      RootedStays(past, past', n.log);
      RootedPushed(past', n.log, n'.log, n'.currentTerm);
    }
  }

  lemma ActorKeepsLog(s: Cluster, n': Node, sent: set<Message>)
    requires LogInv(s) && LawfulLog(s, n', sent)
    ensures NodeLog(Update(s, n', sent).past, n')
  {
    var n, past' := s.nodes[n'.id], Update(s, n', sent).past;
    UpdateGrowsLogs(s, n', sent);
    assert NodeLog(s.past, n);
    assert n'.currentTerm in s.past.elections ==> ElectionLog(s.past, n'.currentTerm);
    LogStepKeepsLog(s.past, past', n, n');
  }

  /** The term of another leader keeps its leader's log on record. */
  lemma OtherLeaderStays(past: History, n: Node, n': Node, other: Node)
    requires Office(past, other) && Office(past, n) && other.role == Leader && n'.id == n.id != other.id
    requires n'.role == Leader && n.role != Leader ==> n'.currentTerm !in past.elections
    requires n'.role == Leader ==> n'.currentTerm == n.currentTerm
    requires other.currentTerm in past.elections
    ensures var past' := Remember(past, n, n');
            other.currentTerm in past'.elections && past'.elections[other.currentTerm] == past.elections[other.currentTerm]
  {
  }

  lemma OthersKeepLog(s: Cluster, n': Node, sent: set<Message>, i: NodeId)
    requires LogInv(s) && LawfulLog(s, n', sent) && i in s.nodes && i != n'.id
    ensures NodeLog(Update(s, n', sent).past, s.nodes[i])
  {
    var other, n, past' := s.nodes[i], s.nodes[n'.id], Update(s, n', sent).past;
    UpdateGrowsLogs(s, n', sent);
    assert Config(s) && NodeLog(s.past, other) && Office(s.past, other) && Office(s.past, n);
    if n'.role == Leader && n.role != Leader {
      WinIsNew(s, n', sent);
    }
    hide LogInv;
    hide SendsSlices;
    hide LogStep;
    hide SendsVotes;
    hide CountsVotes;
    hide Remember;
    hide Office;
    hide Rooted;
    hide TermsUpTo;
    hide LogsGrow;
    RootedStays(s.past, past', other.log);
    if other.role == Leader {
      OtherLeaderStays(s.past, n, n', other);
    }
  }

  lemma ElectionLogStays(past: History, past': History, t: nat)
    requires LogsGrow(past, past') && t in past.elections && ElectionLog(past, t)
    requires past'.elections[t].log == past.elections[t].log
    ensures ElectionLog(past', t)
  {
    RootedStays(past, past', past'.elections[t].log);
  }

  lemma RememberedLog(past: History, n: Node, n': Node, t: nat)
    requires t in Remember(past, n, n').elections
    ensures || (t in past.elections && Remember(past, n, n').elections[t] == past.elections[t])
            || (n'.role == Leader && t == n'.currentTerm && Remember(past, n, n').elections[t].log == n'.log)
  {
  }

  lemma UpdateKeepsElectionLogs(s: Cluster, n': Node, sent: set<Message>)
    requires LogInv(s) && LawfulLog(s, n', sent)
    ensures forall t | t in Update(s, n', sent).past.elections :: ElectionLog(Update(s, n', sent).past, t)
  {
    var past' := Update(s, n', sent).past;
    UpdateGrowsLogs(s, n', sent);
    ActorKeepsLog(s, n', sent);
    forall t | t in past'.elections ensures ElectionLog(past', t) {
      RememberedLog(s.past, s.nodes[n'.id], n', t);
      if t in s.past.elections {
        assert ElectionLog(s.past, t);
        PrefixOn(s.past.elections[t].start, s.past.elections[t].log, past'.elections[t].log);
        if past'.elections[t].log == s.past.elections[t].log {
          ElectionLogStays(s.past, past', t);
        }
      } else {
        assert past'.elections[t].start == n'.log;
      }
    }
  }

  lemma UpdateKeepsBallotLogs(s: Cluster, n': Node, sent: set<Message>)
    requires LogInv(s) && LawfulLog(s, n', sent)
    ensures var past' := Update(s, n', sent).past;
            forall k | k in past'.ballots :: Rooted(past', past'.ballots[k].log)
  {
    var past' := Update(s, n', sent).past;
    UpdateGrowsLogs(s, n', sent);
    ActorKeepsLog(s, n', sent);
    forall k | k in past'.ballots ensures Rooted(past', past'.ballots[k].log) {
      if k in s.past.ballots {
        RootedStays(s.past, past', s.past.ballots[k].log);
      }
    }
  }

  lemma SliceStays(past: History, past': History, m: Message)
    requires LogsGrow(past, past') && Slice(past, m)
    ensures Slice(past', m)
  {
    if m.AppendAsk? {
      var r := m.append;
      var a, b := past.elections[r.term].log, past'.elections[r.term].log;
      if FromLog(a, r) {
        assert r.entries == b[r.prevLogIndex..r.prevLogIndex + |r.entries|];
      }
    }
  }

  lemma UpdateKeepsSlices(s: Cluster, n': Node, sent: set<Message>)
    requires LogInv(s) && LawfulLog(s, n', sent)
    ensures forall m | m in Update(s, n', sent).net :: Slice(Update(s, n', sent).past, m)
  {
    var s' := Update(s, n', sent);
    UpdateGrowsLogs(s, n', sent);
    UpdateKeepsOffice(s, n', sent);
    ActorKeepsLog(s, n', sent);
    forall m | m in s'.net ensures Slice(s'.past, m) {
      if m in s.net {
        SliceStays(s.past, s'.past, m);
      } else {
        assert Office(s'.past, s'.nodes[n'.id]);
      }
    }
  }

  lemma UpdateKeepsLogInv(s: Cluster, n': Node, sent: set<Message>)
    requires LogInv(s) && LawfulLog(s, n', sent)
    ensures LogInv(Update(s, n', sent)) && LogsGrow(s.past, Update(s, n', sent).past)
    ensures Update(s, n', sent).nodes.Keys == s.nodes.Keys
  {
    var s' := Update(s, n', sent);
    UpdateKeepsElectionInv(s, n', sent);
    UpdateGrowsLogs(s, n', sent);
    forall i | i in s'.nodes ensures NodeLog(s'.past, s'.nodes[i]) {
      if i == n'.id { ActorKeepsLog(s, n', sent); } else { OthersKeepLog(s, n', sent, i); }
    }
    UpdateKeepsElectionLogs(s, n', sent);
    UpdateKeepsBallotLogs(s, n', sent);
    UpdateKeepsSlices(s, n', sent);
  }

  lemma NextKeepsLogInv(s: Cluster, step: Step)
    requires LogInv(s) && Enabled(s, step) && NoGap(s, step)
    ensures LogInv(Next(s, step)) && LogsGrow(s.past, Next(s, step).past)
  {
    ActIsLawfulLog(s, step);
    UpdateKeepsLogInv(s, Act(s, step).0, Act(s, step).1);
  }

  // ---------- Over runs ----------

  lemma {:induction false} RunKeepsLogInv(run: seq<Cluster>, steps: seq<Step>, k: nat)
    requires Run(run, steps) && GapFree(run, steps) && k < |run|
    ensures LogInv(run[k])
  {
    hide Next;
    hide ElectionInv;
    hide NoGap;
    if k == 0 {
      InitHasElectionInv(run[0]);
    } else {
      RunKeepsLogInv(run, steps, k - 1);
      assert Linked(run, steps, k - 1) && Gapless(run, steps, k - 1);
      NextKeepsLogInv(run[k - 1], steps[k - 1]);
    }
  }

  lemma LogsGrowOn(a: History, b: History, c: History)
    requires LogsGrow(a, b) && LogsGrow(b, c)
    ensures LogsGrow(a, c)
  {
    PastGrowsOn(a, b, c);
    forall t | t in a.elections ensures a.elections[t].log <= c.elections[t].log {
      PrefixOn(a.elections[t].log, b.elections[t].log, c.elections[t].log);
    }
  }

  lemma {:induction false} ChainGrowsLogs(pasts: seq<History>, j: nat, k: nat)
    requires j <= k < |pasts| && forall i | 0 <= i < |pasts| - 1 :: LogsGrow(pasts[i], pasts[i + 1])
    ensures LogsGrow(pasts[j], pasts[k])
    decreases k - j
  {
    if j < k {
      ChainGrowsLogs(pasts, j, k - 1);
      LogsGrowOn(pasts[j], pasts[k - 1], pasts[k - 1 + 1]);
    }
  }

  lemma RunGrowsLogs(run: seq<Cluster>, steps: seq<Step>, j: nat, k: nat)
    requires Run(run, steps) && GapFree(run, steps) && j <= k < |run|
    ensures LogsGrow(run[j].past, run[k].past)
  {
    hide Next;
    hide LogInv;
    hide NoGap;
    var pasts := seq(|run|, i requires 0 <= i < |run| => run[i].past);
    forall i | 0 <= i < |pasts| - 1 ensures LogsGrow(pasts[i], pasts[i + 1]) {
      RunKeepsLogInv(run, steps, i);
      assert Linked(run, steps, i) && Gapless(run, steps, i);
      NextKeepsLogInv(run[i], steps[i]);
    }
    ChainGrowsLogs(pasts, j, k);
  }

  /** Log matching: in any states of a run, two logs that hold the same term at a position
      agree on everything up to it, and every entry's index is its position plus one. */
  lemma LogMatching(run: seq<Cluster>, steps: seq<Step>, j: nat, k: nat, a: NodeId, b: NodeId, i: nat)
    requires Run(run, steps) && GapFree(run, steps) && j <= k < |run|
    requires a in run[j].nodes && i < |run[j].nodes[a].log|
    requires b in run[k].nodes && i < |run[k].nodes[b].log|
    ensures run[j].nodes[a].log[i].index == i + 1 && run[k].nodes[b].log[i].index == i + 1
    ensures run[j].nodes[a].log[i].term == run[k].nodes[b].log[i].term ==>
            run[j].nodes[a].log[..i + 1] == run[k].nodes[b].log[..i + 1]
  {
    RunKeepsLogInv(run, steps, j);
    RunKeepsLogInv(run, steps, k);
    RunGrowsLogs(run, steps, j, k);
    assert NodeLog(run[j].past, run[j].nodes[a]) && NodeLog(run[k].past, run[k].nodes[b]);
    RootedIndexed(run[j].past, run[j].nodes[a].log);
    RootedIndexed(run[k].past, run[k].nodes[b].log);
    RootedStays(run[j].past, run[k].past, run[j].nodes[a].log);
    if run[j].nodes[a].log[i].term == run[k].nodes[b].log[i].term {
      RootedAgree(run[k].past, run[j].nodes[a].log, run[k].nodes[b].log, i);
    }
  }

  lemma EntryTermsPositive(s: Cluster, b: NodeId)
    requires LogInv(s) && b in s.nodes
    ensures forall i | 0 <= i < |s.nodes[b].log| :: s.nodes[b].log[i].term >= 1
  {
    hide Rooted;
    assert NodeLog(s.past, s.nodes[b]);
    RootedTerms(s.past, s.nodes[b].log);
    forall i | 0 <= i < |s.nodes[b].log| ensures s.nodes[b].log[i].term >= 1 {
      assert ElectionLog(s.past, s.nodes[b].log[i].term);
    }
  }

  /** Two logs that match, as logs do in a run, have the same term at a position exactly when they
      agree up to it. */
  lemma ProbeMatches(log: Log, other: Log, prev: nat)
    requires prev <= |log| && forall i | 0 <= i < |log| :: log[i].term >= 1
    requires 0 < prev <= |other| && log[prev - 1].term == other[prev - 1].term ==> log[..prev] == other[..prev]
    ensures TermAt(log, prev) == TermAt(other, prev) <==> prev <= |other| && log[..prev] == other[..prev]
  {
    if 0 < prev <= |other| {
      assert log[..prev][prev - 1] == log[prev - 1] && other[..prev][prev - 1] == other[prev - 1];
    }
  }

  /** What a heartbeat finds out: in a run, a node whose log reaches the heartbeat's previous
      index accepts it exactly when its term has come and the whole logs agree up to there. */
  lemma HeartbeatMatches(run: seq<Cluster>, steps: seq<Step>, j: nat, k: nat, a: NodeId, b: NodeId)
    requires Run(run, steps) && GapFree(run, steps) && j <= k < |run|
    requires a in run[j].nodes && b in run[k].nodes
    requires HeartbeatFor(run[j].nodes[a], b).prevLogIndex <= |run[k].nodes[b].log|
    ensures var n, f := run[j].nodes[a], run[k].nodes[b];
      var prev := HeartbeatFor(n, b).prevLogIndex;
      HandleAppend(f, HeartbeatFor(n, b)).1.success
      <==> f.currentTerm <= n.currentTerm && prev <= |n.log| && f.log[..prev] == n.log[..prev]
  {
    hide *;
    var n, f := run[j].nodes[a], run[k].nodes[b];
    var prev := HeartbeatFor(n, b).prevLogIndex;
    RunKeepsLogInv(run, steps, k);
    EntryTermsPositive(run[k], b);
    if 0 < prev <= |n.log| {
      LogMatching(run, steps, j, k, a, b, prev - 1);
    }
    ProbeMatches(f.log, n.log, prev);
    RaftMerge.HeartbeatProbes(n, b, f);
  }

  /** A leader's log only grows while it leads its term. */
  lemma LeaderAppendsOnly(run: seq<Cluster>, steps: seq<Step>, j: nat, k: nat, a: NodeId)
    requires Run(run, steps) && GapFree(run, steps) && j <= k < |run|
    requires a in run[j].nodes && run[j].nodes[a].role == Leader
    requires a in run[k].nodes && run[k].nodes[a].role == Leader
    requires run[j].nodes[a].currentTerm == run[k].nodes[a].currentTerm
    ensures run[j].nodes[a].log <= run[k].nodes[a].log
  {
    RunKeepsLogInv(run, steps, j);
    RunKeepsLogInv(run, steps, k);
    RunGrowsLogs(run, steps, j, k);
    assert NodeLog(run[j].past, run[j].nodes[a]) && NodeLog(run[k].past, run[k].nodes[a]);
  }
}
