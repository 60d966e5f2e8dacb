/** State machine safety (section 5.4.3 of Raft): under (G), (T) and the condition that a delivery
    raises a follower's commit index only as far as Raft does, all nodes commit and apply
    one sequence of commands. */
module RaftSafety {
  import opened RaftNodeSpec
  import opened RaftCluster
  import opened RaftElection
  import opened RaftLogs
  import opened RaftCompleteness
  import RaftMerge

  // ---------- The condition ----------

  /** (C): where a delivered request raises the receiver's commit index, the leader's commit index
      is within the request, or the receiver's log is, or it conflicts with the request: then
      capping by the last entry and by the last new entry are the same. */
  predicate Covered(n: Node, req: AppendRequest) {
    req.leaderCommit > n.commitIndex ==>
      || req.leaderCommit <= RaftMerge.LastNew(req) || |n.log| <= RaftMerge.LastNew(req)
      || RaftMerge.Conflicts(n.log, req.prevLogIndex, req.entries)
  }

  ghost predicate CommitCovered(s: Cluster, step: Step)
    requires Enabled(s, step)
  {
    step.ReceiveAppend? ==> Covered(s.nodes[step.m.dst], step.m.append)
  }

  ghost predicate CoversAt(run: seq<Cluster>, steps: seq<Step>, k: nat)
    requires Run(run, steps) && k < |steps|
  {
    assert Linked(run, steps, k);
    CommitCovered(run[k], steps[k])
  }

  ghost predicate CommitsCovered(run: seq<Cluster>, steps: seq<Step>)
    requires Run(run, steps)
  {
    forall k | 0 <= k < |steps| :: CoversAt(run, steps, k)
  }

  // ---------- What has been decided ----------

  /** A strict majority has acknowledged entry i of the leader of term t in that term. */
  ghost predicate Decided(s: Cluster, t: nat, i: nat) {
    OwnEntry(s.past, t, i) && 2 * |Holders(s, t, i)| > |s.nodes|
  }

  /** The entries are a part of what was decided. */
  ghost predicate BackedBy(s: Cluster, p: Log, t: nat, i: nat) {
    Decided(s, t, i) && p <= Chosen(s.past, t, i)
  }

  /** They were decided in some term up to this one. */
  ghost predicate Backing(s: Cluster, p: Log, term: nat) {
    p == [] || exists t: nat, i: nat :: BackedBy(s, p, t, i) && t <= term
  }

  ghost predicate NodeSafe(s: Cluster, n: Node) {
    n.commitIndex <= |n.log| && Backing(s, n.log[..n.commitIndex], n.currentTerm)
  }

  /** A request announces only what was decided. */
  ghost predicate AskSafe(s: Cluster, m: Message) {
    m.AppendAsk? ==>
      && m.append.term in s.past.elections
      && m.append.leaderCommit <= |s.past.elections[m.append.term].log|
      && Backing(s, s.past.elections[m.append.term].log[..m.append.leaderCommit], m.append.term)
  }

  ghost predicate SafeInv(s: Cluster) {
    && KeepInv(s)
    && (forall i | i in s.nodes :: NodeSafe(s, s.nodes[i]))
    && (forall m | m in s.net :: AskSafe(s, m))
  }

  lemma DecidedIsChoosable(s: Cluster, t: nat, i: nat)
    requires Decided(s, t, i)
    ensures Choosable(s, t, i)
  {
    SubsetSize(Holders(s, t, i), Possible(s, t, i));
  }

  /** Two decisions are one a prefix of the other. */
  lemma DecisionsAgree(s: Cluster, t: nat, i: nat, u: nat, j: nat)
    requires KeepInv(s) && Decided(s, t, i) && Decided(s, u, j) && t <= u
    ensures Chosen(s.past, t, i) <= Chosen(s.past, u, j) || Chosen(s.past, u, j) <= Chosen(s.past, t, i)
  {
    var lead := s.past.elections[u].log;
    hide KeepInv;
    hide Holders;
    LeadHas(s, Chosen(s.past, t, i), t, i, u);
    PrefixesCompare(Chosen(s.past, t, i), Chosen(s.past, u, j), lead);
  }

  lemma PartsAgree(s: Cluster, p: Log, t: nat, i: nat, q: Log, u: nat, j: nat)
    requires KeepInv(s) && BackedBy(s, p, t, i) && BackedBy(s, q, u, j)
    ensures p <= q || q <= p
  {
    hide KeepInv;
    if t <= u {
      DecisionsAgree(s, t, i, u, j);
    } else {
      DecisionsAgree(s, u, j, t, i);
    }
    PartsCompare(p, q, Chosen(s.past, t, i), Chosen(s.past, u, j));
  }

  lemma BackedAgree(s: Cluster, p: Log, q: Log, term: nat, term': nat)
    requires KeepInv(s) && Backing(s, p, term) && Backing(s, q, term')
    ensures p <= q || q <= p
  {
    hide KeepInv;
    hide BackedBy;
    if p != [] && q != [] {
      var t: nat, i: nat :| BackedBy(s, p, t, i);
      var u: nat, j: nat :| BackedBy(s, q, u, j);
      PartsAgree(s, p, t, i, q, u, j);
    }
  }

  lemma PartsCompare(p: Log, q: Log, x: Log, y: Log)
    requires p <= x && q <= y && (x <= y || y <= x)
    ensures p <= q || q <= p
  {
    if x <= y {
      PrefixOn(p, x, y);
      PrefixesCompare(p, q, y);
    } else {
      PrefixOn(q, y, x);
      PrefixesCompare(p, q, x);
    }
  }

  // ---------- Decisions last ----------

  lemma DecidedLasts(s: Cluster, s': Cluster, t: nat, i: nat)
    requires LogsGrow(s.past, s'.past) && s.net <= s'.net && s.nodes.Keys == s'.nodes.Keys && Decided(s, t, i)
    ensures Decided(s', t, i) && Chosen(s'.past, t, i) == Chosen(s.past, t, i)
  {
    SubsetSize(Holders(s, t, i), Holders(s', t, i));
    assert |s.nodes.Keys| == |s.nodes| && |s'.nodes.Keys| == |s'.nodes|;
    assert s.past.elections[t].log[i - 1] == s'.past.elections[t].log[i - 1];
  }

  lemma BackingLasts(s: Cluster, s': Cluster, p: Log, term: nat, term': nat)
    requires LogsGrow(s.past, s'.past) && s.net <= s'.net && s.nodes.Keys == s'.nodes.Keys
    requires Backing(s, p, term) && term <= term'
    ensures Backing(s', p, term')
  {
    hide LogsGrow;
    hide Decided;
    if p != [] {
      var t: nat, i: nat :| BackedBy(s, p, t, i) && t <= term;
      DecidedLasts(s, s', t, i);
      assert BackedBy(s', p, t, i);
    }
  }

  lemma PartBacked(s: Cluster, p: Log, q: Log, term: nat)
    requires Backing(s, q, term) && p <= q
    ensures Backing(s, p, term)
  {
    hide Holders;
    if p != [] {
      var t: nat, i: nat :| BackedBy(s, q, t, i) && t <= term;
      PrefixOn(p, q, Chosen(s.past, t, i));
      assert BackedBy(s, p, t, i);
    }
  }

  // ---------- What a step does to a commit index ----------

  /** The actor has what a request on record announces. */
  ghost predicate Announced(s: Cluster, m: Message, n': Node) {
    && m in s.net && m.AppendAsk? && m.append.term == n'.currentTerm && m.append.term in s.past.elections
    && n'.commitIndex <= m.append.leaderCommit && n'.commitIndex <= |n'.log|
    && n'.log[..n'.commitIndex] <= s.past.elections[m.append.term].log
  }

  ghost predicate CommitMoves(s: Cluster, n: Node, n': Node) {
    || n'.commitIndex == n.commitIndex || n'.commitIndex == 0
    || (n'.role == Leader && IsQuorumMatch(n'.matchIndex, |n'.log|, n'.commitIndex)
        && TermAt(n'.log, n'.commitIndex) == n'.currentTerm)
    || exists m :: Announced(s, m, n')
  }

  lemma ElsewhereCommitStays(s: Cluster, step: Step)
    requires Config(s) && Enabled(s, step) && !step.ReceiveAppend? && !step.ReceiveSuccess?
    ensures var n, n' := s.nodes[Actor(step)], Act(s, step).0; n'.commitIndex == n.commitIndex || n'.commitIndex == 0
  {
    ActIsRoutine(s, step);
    hide Act;
  }

  lemma RaisedByAppend(n: Node, req: AppendRequest)
    requires HandleAppend(n, req).0.commitIndex != n.commitIndex
    ensures var n' := HandleAppend(n, req).0;
      && req.leaderCommit > n.commitIndex && Consistent(n.log, req) && n'.log == Merge(n.log, req.entries)
      && n'.currentTerm == req.term && n'.commitIndex == Min(req.leaderCommit, |n'.log|)
  {
    hide Merge;
  }

  /** The slice of the leader's log that a request carries does not conflict where it is held. */
  lemma HeldIsNoConflict(log: Log, lead: Log, prev: nat, entries: Log)
    requires prev + |entries| <= |lead| && entries == lead[prev..prev + |entries|] && lead[..prev + |entries|] <= log
    ensures !RaftMerge.Conflicts(log, prev, entries)
  {
    forall i | 0 <= i < |entries| && prev + i < |log| ensures log[prev + i] == entries[i] {
      assert log[prev + i] == lead[..prev + |entries|][prev + i] == lead[prev + i] == entries[i];
    }
  }

  /** The log that a covered request leaves behind is the leader's up to the commit index. */
  lemma CoveredPrefix(log: Log, log': Log, lead: Log, n: Node, req: AppendRequest, commit: nat)
    requires n.log == log && Covered(n, req) && req.leaderCommit > n.commitIndex
    requires var end := RaftMerge.LastNew(req);
      && end <= |lead| && req.entries == lead[req.prevLogIndex..end]
      && log' == (if lead[..end] <= log then log else lead[..end])
    requires commit == Min(req.leaderCommit, |log'|)
    ensures commit <= |log'| && commit <= req.leaderCommit && log'[..commit] <= lead
  {
    var end := RaftMerge.LastNew(req);
    if lead[..end] <= log {
      HeldIsNoConflict(log, lead, req.prevLogIndex, req.entries);
      hide RaftMerge.Conflicts;
      assert commit <= end;
      assert log[..commit] == log[..end][..commit] == lead[..end][..commit] == lead[..commit];
    } else {
      assert log'[..commit] == lead[..commit];
    }
  }

  /** A consistent request is a slice of the leader's log, which the receiver then has. */
  lemma AppendTakes(s: Cluster, m: Message)
    requires LogInv(s) && m in s.net && m.AppendAsk? && m.dst in s.nodes
    requires m.append.prevLogIndex <= |s.nodes[m.dst].log| && Consistent(s.nodes[m.dst].log, m.append)
    ensures m.append.term in s.past.elections
    ensures var log, lead, end := s.nodes[m.dst].log, s.past.elections[m.append.term].log, RaftMerge.LastNew(m.append);
      && end <= |lead| && m.append.entries == lead[m.append.prevLogIndex..end]
      && Merge(log, m.append.entries) == if lead[..end] <= log then log else lead[..end]
  {
    hide LogInv;
    hide Merge;
    hide ElectionLog;
    hide Rooted;
    hide Consistent;
    hide TermAt;
    RequestFacts(s, m);
    AcceptedMerge(s.past, s.nodes[m.dst].log, m);
    AcceptedAgrees(s.past, s.nodes[m.dst].log, m);
  }

  lemma RequestFacts(s: Cluster, m: Message)
    requires LogInv(s) && m in s.net && m.AppendAsk? && m.dst in s.nodes
    ensures Slice(s.past, m) && Rooted(s.past, s.nodes[m.dst].log) && ElectionLog(s.past, m.append.term)
    ensures forall t | t in s.past.elections :: t >= 1
  {
    TermsPositive(s);
    assert NodeLog(s.past, s.nodes[m.dst]) && Slice(s.past, m) && ElectionLog(s.past, m.append.term);
    hide Slice;
    hide Rooted;
  }

  /** What a covered request makes its receiver commit is the leader's. */
  lemma AppendAnnounces(s: Cluster, m: Message)
    requires LogInv(s) && m in s.net && m.AppendAsk? && m.dst in s.nodes
    requires var n := s.nodes[m.dst];
      && m.append.prevLogIndex <= |n.log| && Covered(n, m.append)
      && HandleAppend(n, m.append).0.commitIndex != n.commitIndex
    ensures Announced(s, m, HandleAppend(s.nodes[m.dst], m.append).0)
  {
    var n, req := s.nodes[m.dst], m.append;
    hide LogInv;
    hide Merge;
    hide HandleAppend;
    hide Covered;
    hide Consistent;
    RaisedByAppend(n, req);
    AppendTakes(s, m);
    var n' := HandleAppend(n, req).0;
    CoveredPrefix(n.log, n'.log, s.past.elections[req.term].log, n, req, n'.commitIndex);
  }

  lemma ActIsHandler(s: Cluster, step: Step)
    requires Enabled(s, step)
    ensures step.ReceiveAppend? ==> Act(s, step).0 == HandleAppend(s.nodes[step.m.dst], step.m.append).0
    ensures step.ReceiveSuccess? ==> Act(s, step).0 == RecordAppendSuccess(s.nodes[step.m.dst], step.m.src, step.m.ack)
  {
    hide HandleAppend;
    hide RecordAppendSuccess;
  }

  lemma ActMovesCommit(s: Cluster, step: Step)
    requires LogInv(s) && Enabled(s, step) && NoGap(s, step) && CommitCovered(s, step)
    ensures CommitMoves(s, s.nodes[Actor(step)], Act(s, step).0)
  {
    var n, n' := s.nodes[Actor(step)], Act(s, step).0;
    ActIsHandler(s, step);
    assert Config(s);
    hide LogInv;
    hide Act;
    hide HandleAppend;
    hide RecordAppendSuccess;
    hide Announced;
    hide IsQuorumMatch;
    hide Covered;
    hide TermAt;
    if step.ReceiveAppend? {
      if n'.commitIndex != n.commitIndex {
        AppendAnnounces(s, step.m);
      }
    } else if step.ReceiveSuccess? {
      SuccessKeepsCommit(n, step.m.src, step.m.ack);
    } else {
      ElsewhereCommitStays(s, step);
    }
  }

  lemma SuccessKeepsCommit(n: Node, peer: NodeId, ack: AppendResponse)
    ensures var n' := RecordAppendSuccess(n, peer, ack);
      || n'.commitIndex == n.commitIndex
      || (n'.role == Leader && IsQuorumMatch(n'.matchIndex, |n'.log|, n'.commitIndex)
          && TermAt(n'.log, n'.commitIndex) == n'.currentTerm)
  {
    if RecordAppendSuccess(n, peer, ack).commitIndex > n.commitIndex {
      SuccessCommits(n, peer, ack);
    }
  }

  /** Only leaders send requests, and announce their own commit index. */
  ghost predicate AnnouncesOwn(n: Node, n': Node, sent: set<Message>) {
    forall m | m in sent && m.AppendAsk? ::
      n' == n && n.role == Leader && m.append.term == n.currentTerm && m.append.leaderCommit == n.commitIndex
  }

  lemma ActAnnouncesOwn(s: Cluster, step: Step)
    requires Config(s) && Enabled(s, step)
    ensures AnnouncesOwn(s.nodes[Actor(step)], Act(s, step).0, Act(s, step).1)
  {
    if !step.SendHeartbeat? && !step.SendEntries? {
      ActSendsNoAppend(s, step);
      hide Act;
    }
  }

  // ---------- What is committed stays in the log ----------

  lemma KeepOf(s: Cluster, t: nat, i: nat, w: nat)
    requires KeepInv(s)
    ensures LeaderKeeps(s, t, i, w) && ElectionLog(s.past, w)
  {
    hide ElectionInv;
    hide LeaderKeeps;
    hide Rooted;
  }

  /** A leader of the term of a decision, or of a later one, has what was decided. */
  lemma LeadHas(s: Cluster, p: Log, t: nat, i: nat, w: nat)
    requires KeepInv(s) && BackedBy(s, p, t, i) && t <= w && w in s.past.elections
    ensures p <= s.past.elections[w].log
  {
    hide KeepInv;
    hide Rooted;
    hide TermsUpTo;
    DecidedIsChoosable(s, t, i);
    KeepOf(s, t, i, w);
    hide Choosable;
    if w > t {
      PrefixOn(p, Chosen(s.past, t, i), s.past.elections[w].start);
      PrefixOn(p, s.past.elections[w].start, s.past.elections[w].log);
    } else {
      PrefixOn(p, Chosen(s.past, t, i), s.past.elections[w].log);
    }
  }

  lemma CommittedStays(s: Cluster, n: Node, n': Node, p: Log)
    requires KeepInv(s) && Backing(s, p, n.currentTerm) && p <= n.log
    requires LogStep(s.past, n, n') && n.currentTerm <= n'.currentTerm
    ensures p <= n'.log
  {
    hide KeepInv;
    hide BackedBy;
    if n.log <= n'.log {
      PrefixOn(p, n.log, n'.log);
    } else if p != [] {
      var t: nat, i: nat :| BackedBy(s, p, t, i) && t <= n.currentTerm;
      LeadHas(s, p, t, i, n'.currentTerm);
      HeldThroughMerge(n.log, n'.log, p, s.past.elections[n'.currentTerm].log);
    }
  }

  // ---------- The invariant is kept ----------

  lemma OtherSafe(s: Cluster, s': Cluster, n: Node)
    requires LogsGrow(s.past, s'.past) && s.net <= s'.net && s.nodes.Keys == s'.nodes.Keys && NodeSafe(s, n)
    ensures NodeSafe(s', n)
  {
    hide Backing;
    hide LogsGrow;
    BackingLasts(s, s', n.log[..n.commitIndex], n.currentTerm, n.currentTerm);
  }

  lemma OldAskSafe(s: Cluster, s': Cluster, m: Message)
    requires LogsGrow(s.past, s'.past) && s.net <= s'.net && s.nodes.Keys == s'.nodes.Keys && AskSafe(s, m)
    ensures AskSafe(s', m)
  {
    hide Backing;
    if m.AppendAsk? {
      var t, c := m.append.term, m.append.leaderCommit;
      var lead, lead' := s.past.elections[t].log, s'.past.elections[t].log;
      assert lead <= lead' && lead[..c] == lead'[..c];
      BackingLasts(s, s', lead[..c], t, t);
    }
  }

  lemma SamePrefix(p: Log, log: Log, c: nat)
    requires p <= log && |p| == c
    ensures c <= |log| && log[..c] == p
  {
  }

  lemma ActorSafe(s: Cluster, s': Cluster, n: Node, n': Node)
    requires KeepInv(s) && Moved(s, s', n, n') && BooksInv(s') && NodeSafe(s, n) && CommitMoves(s, n, n')
    requires forall m | m in s.net :: AskSafe(s, m)
    ensures NodeSafe(s', n')
  {
    hide KeepInv;
    hide BooksInv;
    hide Backing;
    hide LogsGrow;
    hide LogStep;
    hide KeepsRole;
    hide IsQuorumMatch;
    if n'.commitIndex == n.commitIndex {
      var p := n.log[..n.commitIndex];
      CommittedStays(s, n, n', p);
      SamePrefix(p, n'.log, n'.commitIndex);
      BackingLasts(s, s', p, n.currentTerm, n'.currentTerm);
    } else if n'.commitIndex == 0 {
      NothingBacked(s', n');
    } else if m :| Announced(s, m, n') {
      var p, lead := n'.log[..n'.commitIndex], s.past.elections[m.append.term].log;
      assert AskSafe(s, m);
      PrefixesOfOne(p, lead[..m.append.leaderCommit], lead);
      PartBacked(s, p, lead[..m.append.leaderCommit], n'.currentTerm);
      BackingLasts(s, s', p, n'.currentTerm, n'.currentTerm);
    } else {
      LeaderSafe(s', n');
    }
  }

  lemma NothingBacked(s: Cluster, n: Node)
    requires n.commitIndex == 0
    ensures NodeSafe(s, n)
  {
  }

  lemma LeaderSafe(s: Cluster, n: Node)
    requires BooksInv(s) && n.id in s.nodes && s.nodes[n.id] == n && n.role == Leader && n.commitIndex > 0
    requires IsQuorumMatch(n.matchIndex, |n.log|, n.commitIndex) && TermAt(n.log, n.commitIndex) == n.currentTerm
    ensures NodeSafe(s, n)
  {
    CommittedByMajority(s, n);
    assert BackedBy(s, n.log[..n.commitIndex], n.currentTerm, n.commitIndex);
    assert NodeLog(s.past, n);
  }

  lemma NewAskSafe(s: Cluster, n: Node, m: Message)
    requires NodeLog(s.past, n) && NodeSafe(s, n) && n.role == Leader
    requires m.AppendAsk? ==> m.append.term == n.currentTerm && m.append.leaderCommit == n.commitIndex
    ensures AskSafe(s, m)
  {
    hide Backing;
  }

  lemma NodesSafe(s: Cluster, s': Cluster, n: Node, n': Node)
    requires LogsGrow(s.past, s'.past) && s.net <= s'.net && n.id in s.nodes && s'.nodes == s.nodes[n.id := n']
    requires NodeSafe(s', n') && forall i | i in s.nodes :: NodeSafe(s, s.nodes[i])
    ensures forall i | i in s'.nodes :: NodeSafe(s', s'.nodes[i])
  {
    hide NodeSafe;
    hide LogsGrow;
    forall i | i in s'.nodes ensures NodeSafe(s', s'.nodes[i]) {
      if i != n.id {
        OtherSafe(s, s', s.nodes[i]);
      }
    }
  }

  lemma AsksSafe(s: Cluster, s': Cluster, n: Node, n': Node, sent: set<Message>)
    requires LogsGrow(s.past, s'.past) && s'.net == s.net + sent && s.nodes.Keys == s'.nodes.Keys
    requires NodeLog(s'.past, n') && NodeSafe(s', n') && AnnouncesOwn(n, n', sent)
    requires forall m | m in s.net :: AskSafe(s, m)
    ensures forall m | m in s'.net :: AskSafe(s', m)
  {
    hide NodeLog;
    hide NodeSafe;
    hide AskSafe;
    hide LogsGrow;
    forall m | m in s'.net ensures AskSafe(s', m) {
      if m in s.net {
        OldAskSafe(s, s', m);
      } else if m.AppendAsk? {
        NewAskSafe(s', n', m);
      } else {
        NoAskSafe(s', m);
      }
    }
  }

  lemma MovedGrows(s: Cluster, s': Cluster, n: Node, n': Node)
    requires Moved(s, s', n, n')
    ensures LogsGrow(s.past, s'.past) && s.net <= s'.net && n.id in s.nodes && s.nodes[n.id] == n && n'.id == n.id
    ensures s'.nodes == s.nodes[n.id := n'] && s'.nodes.Keys == s.nodes.Keys
  {
  }

  lemma MoveKeepsSafeInv(s: Cluster, s': Cluster, n: Node, n': Node, sent: set<Message>)
    requires SafeInv(s) && Moved(s, s', n, n') && KeepInv(s') && CommitMoves(s, n, n')
    requires s'.net == s.net + sent && AnnouncesOwn(n, n', sent)
    ensures SafeInv(s')
  {
    hide KeepInv;
    hide Moved;
    hide NodeLog;
    hide NodeSafe;
    hide AskSafe;
    hide LogsGrow;
    hide BooksInv;
    hide CommitMoves;
    hide AnnouncesOwn;
    MovedGrows(s, s', n, n');
    KeepHasLogs(s', n');
    ActorSafe(s, s', n, n');
    NodesSafe(s, s', n, n');
    AsksSafe(s, s', n, n', sent);
  }

  lemma KeepHasLogs(s: Cluster, n: Node)
    requires KeepInv(s)
    ensures BooksInv(s) && (n.id in s.nodes && s.nodes[n.id] == n ==> NodeLog(s.past, n))
  {
  }

  lemma NoAskSafe(s: Cluster, m: Message)
    requires !m.AppendAsk?
    ensures AskSafe(s, m)
  {
  }

  lemma NextKeepsSafeInv(s: Cluster, step: Step)
    requires SafeInv(s) && Enabled(s, step) && NoGap(s, step) && SameTerm(s, step) && CommitCovered(s, step)
    ensures SafeInv(Next(s, step))
  {
    assert BooksInv(s) && LogInv(s) && Config(s);
    ActIsLawfulBooks(s, step);
    ActMovesCommit(s, step);
    ActAnnouncesOwn(s, step);
    NextKeepsKeepInv(s, step);
    ActKeepsId(s, step);
    var n', sent := Act(s, step).0, Act(s, step).1;
    hide *;
    UpdateMoves(s, n', sent);
    NextIsUpdate(s, step);
    MoveKeepsSafeInv(s, Update(s, n', sent), s.nodes[n'.id], n', sent);
  }

  lemma NextIsUpdate(s: Cluster, step: Step)
    requires Config(s) && Enabled(s, step)
    ensures Act(s, step).0.id in s.nodes
    ensures Next(s, step) == Update(s, Act(s, step).0, Act(s, step).1)
    ensures Next(s, step).net == s.net + Act(s, step).1
  {
    hide Act;
    ActKeepsId(s, step);
  }

  lemma InitIsSafe(s: Cluster)
    requires Init(s)
    ensures SafeInv(s)
  {
    hide KeepInv;
    InitKeeps(s);
    forall i | i in s.nodes ensures NodeSafe(s, s.nodes[i]) {
      NothingBacked(s, s.nodes[i]);
    }
  }

  lemma {:induction false} RunKeepsSafeInv(run: seq<Cluster>, steps: seq<Step>, k: nat)
    requires Run(run, steps) && GapFree(run, steps) && AcksInTerm(run, steps) && CommitsCovered(run, steps) && k < |run|
    ensures SafeInv(run[k])
  {
    hide Next;
    hide SafeInv;
    hide NoGap;
    hide SameTerm;
    hide CommitCovered;
    if k == 0 {
      InitIsSafe(run[0]);
    } else {
      RunKeepsSafeInv(run, steps, k - 1);
      assert Linked(run, steps, k - 1) && Gapless(run, steps, k - 1);
      assert CountsInTerm(run, steps, k - 1) && CoversAt(run, steps, k - 1);
      NextKeepsSafeInv(run[k - 1], steps[k - 1]);
    }
  }

  // ---------- The theorems ----------

  /** State machine safety: what any two nodes have committed, leaders or followers, in any two
      states of a run, is one a prefix of the other. */
  lemma StateMachineSafety(run: seq<Cluster>, steps: seq<Step>, j: nat, a: NodeId, k: nat, b: NodeId)
    requires Run(run, steps) && GapFree(run, steps) && AcksInTerm(run, steps) && CommitsCovered(run, steps)
    requires j <= k < |run| && a in run[j].nodes && b in run[k].nodes
    ensures run[j].nodes[a].commitIndex <= |run[j].nodes[a].log|
    ensures run[k].nodes[b].commitIndex <= |run[k].nodes[b].log|
    ensures || Committed(run[j].nodes[a]) <= Committed(run[k].nodes[b])
            || Committed(run[k].nodes[b]) <= Committed(run[j].nodes[a])
  {
    RunKeepsSafeInv(run, steps, j);
    RunKeepsSafeInv(run, steps, k);
    var p, q := run[j].nodes[a], run[k].nodes[b];
    assert NodeSafe(run[j], p) && NodeSafe(run[k], q) && LogInv(run[j]) && KeepInv(run[k]);
    hide *;
    RunKeepsSafeLogs(run, steps, j, k);
    CommittedIsSafe(run[j], p);
    CommittedIsSafe(run[k], q);
    BackingLasts(run[j], run[k], Committed(p), p.currentTerm, p.currentTerm);
    BackedAgree(run[k], Committed(p), Committed(q), p.currentTerm, q.currentTerm);
  }

  lemma RunKeepsSafeLogs(run: seq<Cluster>, steps: seq<Step>, j: nat, k: nat)
    requires Run(run, steps) && GapFree(run, steps) && j <= k < |run|
    ensures LogsGrow(run[j].past, run[k].past) && run[j].net <= run[k].net
    ensures run[j].nodes.Keys == run[k].nodes.Keys
  {
    hide *;
    RunGrowsLogs(run, steps, j, k);
    RunGrowsNet(run, steps, j, k);
  }

  lemma CommittedIsSafe(s: Cluster, n: Node)
    requires NodeSafe(s, n)
    ensures n.commitIndex <= |n.log| && Committed(n) == n.log[..n.commitIndex] && Backing(s, Committed(n), n.currentTerm)
  {
    hide Backing;
  }

  /** The command applied for index x. */
  function AppliedAt(n: Node, x: nat): ClusterCommand
    requires n.lastApplied < x <= n.commitIndex && n.commitIndex <= |n.log|
  {
    n.log[x - 1].command
  }

  /** Applying returns, for each index above the last applied, the command of that entry. */
  lemma {:induction false} CommandsAt(log: Log, lo: nat, hi: nat, x: nat)
    requires lo < x <= hi <= |log|
    ensures |CommandsBetween(log, lo, hi)| == hi - lo && CommandsBetween(log, lo, hi)[x - lo - 1] == log[x - 1].command
    decreases hi - lo
  {
    assert CommandsBetween(log, lo, hi) == [log[lo].command] + CommandsBetween(log, lo + 1, hi);
    if lo + 1 < hi {
      hide CommandsBetween;
      CommandsAt(log, lo + 1, hi, if x == lo + 1 then lo + 2 else x);
    }
  }

  /** Two nodes that apply an entry with the same index, whenever they do, apply the same command. */
  lemma AppliedAgree(run: seq<Cluster>, steps: seq<Step>, j: nat, a: NodeId, k: nat, b: NodeId, x: nat)
    requires Run(run, steps) && GapFree(run, steps) && AcksInTerm(run, steps) && CommitsCovered(run, steps)
    requires j <= k < |run| && a in run[j].nodes && b in run[k].nodes
    requires run[j].nodes[a].lastApplied < x <= run[j].nodes[a].commitIndex
    requires run[k].nodes[b].lastApplied < x <= run[k].nodes[b].commitIndex
    ensures var m, n := run[j].nodes[a], run[k].nodes[b];
      var cs, ds := ApplyCommitted(m).1, ApplyCommitted(n).1;
      && |cs| == m.commitIndex - m.lastApplied && |ds| == n.commitIndex - n.lastApplied
      && cs[x - m.lastApplied - 1] == ds[x - n.lastApplied - 1]
  {
    var m, n := run[j].nodes[a], run[k].nodes[b];
    StateMachineSafety(run, steps, j, a, k, b);
    CommandsAt(m.log, m.lastApplied, m.commitIndex, x);
    CommandsAt(n.log, n.lastApplied, n.commitIndex, x);
    assert Committed(m)[x - 1] == m.log[x - 1] && Committed(n)[x - 1] == n.log[x - 1];
  }
}
