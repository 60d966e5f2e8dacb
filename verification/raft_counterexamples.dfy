/** What a single delivery against (G) or (T) does: runs of five nodes that keep both conditions
    everywhere else. */
module RaftCounterexamples {
  import opened RaftNodeSpec
  import opened RaftCluster
  import RaftElection
  import RaftCompleteness

  /** A run and its last state. */
  datatype Trace = Trace(run: seq<Cluster>, steps: seq<Step>, now: Cluster)

  /** A run that keeps (G) but for step `gap` and (T) but for step `late`. */
  ghost predicate Good(tr: Trace, gap: int, late: int) {
    && Run(tr.run, tr.steps) && tr.now == tr.run[|tr.steps|]
    && (forall k | 0 <= k < |tr.steps| && k != gap :: Gapless(tr.run, tr.steps, k))
    && (forall k | 0 <= k < |tr.steps| && k != late :: CountsInTerm(tr.run, tr.steps, k))
  }

  ghost predicate Extends(tr: Trace, longer: Trace) {
    tr.run <= longer.run && tr.steps <= longer.steps
  }

  lemma ExtendsOn(a: Trace, b: Trace, c: Trace)
    requires Extends(a, b) && Extends(b, c)
    ensures Extends(a, c)
  {
  }

  lemma GoodHasConfig(tr: Trace, gap: int, late: int)
    requires Good(tr, gap, late)
    ensures Config(tr.now)
  {
    RaftElection.RunKeepsElectionInv(tr.run, tr.steps, |tr.steps|);
  }

  lemma LinkedStays(tr: Trace, longer: Trace, k: nat)
    requires Extends(tr, longer) && |tr.run| == |tr.steps| + 1 && |longer.run| == |longer.steps| + 1 && k < |tr.steps|
    ensures tr.run[k] == longer.run[k] && tr.run[k + 1] == longer.run[k + 1] && tr.steps[k] == longer.steps[k]
    ensures Linked(tr.run, tr.steps, k) <==> Linked(longer.run, longer.steps, k)
  {
  }

  /** One more step. */
  lemma Take(tr: Trace, step: Step, gap: int, late: int) returns (longer: Trace)
    requires Good(tr, gap, late) && Enabled(tr.now, step)
    requires NoGap(tr.now, step) || |tr.steps| == gap
    requires SameTerm(tr.now, step) || |tr.steps| == late
    ensures Config(tr.now) && Good(longer, gap, late) && Extends(tr, longer)
    ensures longer.steps == tr.steps + [step] && longer.now == Next(tr.now, step)
  {
    hide Next;
    hide NoGap;
    hide SameTerm;
    hide Enabled;
    GoodHasConfig(tr, gap, late);
    var n, next := |tr.steps|, Next(tr.now, step);
    longer := Trace(tr.run + [next], tr.steps + [step], next);
    forall k | 0 <= k < |longer.steps| ensures Linked(longer.run, longer.steps, k) {
      if k < n {
        assert Linked(tr.run, tr.steps, k);
        LinkedStays(tr, longer, k);
      }
    }
    forall k | 0 <= k < |longer.steps| && k != gap ensures Gapless(longer.run, longer.steps, k) {
      if k < n {
        assert Gapless(tr.run, tr.steps, k);
        LinkedStays(tr, longer, k);
      }
    }
    forall k | 0 <= k < |longer.steps| && k != late ensures CountsInTerm(longer.run, longer.steps, k) {
      if k < n {
        assert CountsInTerm(tr.run, tr.steps, k);
        LinkedStays(tr, longer, k);
      }
    }
  }

  lemma NextIs(s: Cluster, step: Step)
    requires Config(s) && Enabled(s, step)
    ensures Next(s, step).nodes == s.nodes[Actor(step) := Act(s, step).0] && Next(s, step).net == s.net + Act(s, step).1
  {
    ActKeepsId(s, step);
  }

  // ---------- What is known of a state ----------

  /** Nodes other than the ones named are as they were, and no message is gone. */
  ghost predicate Kept(s: Cluster, t: Cluster, moved: set<NodeId>) {
    && t.nodes.Keys == s.nodes.Keys && s.net <= t.net
    && forall i | i in s.nodes && i !in moved :: t.nodes[i] == s.nodes[i]
  }

  lemma KeptOn(s: Cluster, t: Cluster, u: Cluster, a: set<NodeId>, b: set<NodeId>)
    requires Kept(s, t, a) && Kept(t, u, b)
    ensures Kept(s, u, a + b)
  {
  }

  predicate Has(s: Cluster, i: NodeId, term: nat, log: Log) {
    i in s.nodes && s.nodes[i].currentTerm == term && s.nodes[i].log == log
  }

  predicate Leads(s: Cluster, i: NodeId, term: nat, log: Log) {
    Has(s, i, term, log) && s.nodes[i].role == Leader
  }

  lemma LeadsHas(s: Cluster, i: NodeId, term: nat, log: Log)
    requires Leads(s, i, term, log)
    ensures Has(s, i, term, log)
  {
  }

  ghost predicate Uncommitted(s: Cluster) {
    forall i | i in s.nodes :: s.nodes[i].commitIndex == 0
  }

  /** A step that moves one node. */
  lemma OneMoves(tr: Trace, step: Step, gap: int, late: int) returns (longer: Trace)
    requires Good(tr, gap, late) && Enabled(tr.now, step)
    requires NoGap(tr.now, step) || |tr.steps| == gap
    requires SameTerm(tr.now, step) || |tr.steps| == late
    ensures Good(longer, gap, late) && Extends(tr, longer) && Config(tr.now) && Config(longer.now)
    ensures longer.steps == tr.steps + [step] && |longer.steps| == |tr.steps| + 1
    ensures Kept(tr.now, longer.now, {Actor(step)}) && Actor(step) in longer.now.nodes
    ensures longer.now.nodes[Actor(step)] == Act(tr.now, step).0 && Act(tr.now, step).1 <= longer.now.net
    ensures Uncommitted(tr.now) && Act(tr.now, step).0.commitIndex == 0 ==> Uncommitted(longer.now)
  {
    hide *;
    longer := Take(tr, step, gap, late);
    GoodHasConfig(longer, gap, late);
    NextMoves(tr.now, step);
    SnocLength(tr.steps, step);
  }

  lemma SnocLength(steps: seq<Step>, step: Step)
    ensures |steps + [step]| == |steps| + 1
  {
  }

  lemma NextMoves(s: Cluster, step: Step)
    requires Config(s) && Enabled(s, step)
    ensures var t, n := Next(s, step), Act(s, step).0;
      && Kept(s, t, {Actor(step)}) && Actor(step) in t.nodes && t.nodes[Actor(step)] == n && Act(s, step).1 <= t.net
      && (Uncommitted(s) && n.commitIndex == 0 ==> Uncommitted(t))
  {
    hide Next;
    hide Act;
    hide Config;
    hide Kept;
    hide Uncommitted;
    NextIs(s, step);
    assert Actor(step) in s.nodes;
    OneNodeMoves(s, Next(s, step), Actor(step), Act(s, step).0, Act(s, step).1);
  }

  lemma OneNodeMoves(s: Cluster, t: Cluster, i: NodeId, n: Node, sent: set<Message>)
    requires i in s.nodes && t.nodes == s.nodes[i := n] && t.net == s.net + sent
    ensures Kept(s, t, {i}) && i in t.nodes && t.nodes[i] == n && sent <= t.net
    ensures Uncommitted(s) && n.commitIndex == 0 ==> Uncommitted(t)
  {
  }

  // ---------- Elections ----------

  function Ask(c: NodeId, term: nat, log: Log): VoteRequest {
    VoteRequest(term, c, |log|, LastTerm(log))
  }

  lemma Campaigns(tr: Trace, c: NodeId, term: nat, log: Log, gap: int, late: int) returns (longer: Trace)
    requires Good(tr, gap, late) && Has(tr.now, c, term, log)
    ensures Good(longer, gap, late) && Extends(tr, longer) && |longer.steps| == |tr.steps| + 1
    ensures Kept(tr.now, longer.now, {c}) && Has(longer.now, c, term + 1, log)
    ensures Uncommitted(tr.now) ==> Uncommitted(longer.now)
    ensures longer.now.nodes[c] == StartElection(tr.now.nodes[c]).0
    ensures forall p | p in tr.now.nodes && p != c :: VoteAsk(c, p, Ask(c, term + 1, log)) in longer.now.net
  {
    hide Good;
    hide Extends;
    hide Kept;
    longer := OneMoves(tr, Campaign(c), gap, late);
  }

  /** Node v hears of a campaign of a later term by an up-to-date candidate and votes for it. */
  lemma Grants(tr: Trace, c: NodeId, v: NodeId, ask: VoteRequest, tv: nat, lv: Log, gap: int, late: int)
    returns (longer: Trace)
    requires Good(tr, gap, late) && Has(tr.now, v, tv, lv) && tv < ask.term && ask.candidateId == c
    requires VoteAsk(c, v, ask) in tr.now.net && UpToDate(ask.lastLogTerm, ask.lastLogIndex, lv)
    ensures Good(longer, gap, late) && Extends(tr, longer) && |longer.steps| == |tr.steps| + 1
    ensures Kept(tr.now, longer.now, {v}) && Has(longer.now, v, ask.term, lv)
    ensures Uncommitted(tr.now) ==> Uncommitted(longer.now)
    ensures VoteReply(v, c, VoteResponse(ask.term, true)) in longer.now.net
  {
    hide Good;
    hide Extends;
    hide Kept;
    longer := OneMoves(tr, ReceiveVoteAsk(VoteAsk(c, v, ask)), gap, late);
  }

  /** The candidate counts a vote. */
  lemma HearsVote(tr: Trace, c: NodeId, v: NodeId, vote: VoteResponse, gap: int, late: int) returns (longer: Trace)
    requires Good(tr, gap, late) && c in tr.now.nodes && VoteReply(v, c, vote) in tr.now.net
    ensures Good(longer, gap, late) && Extends(tr, longer) && |longer.steps| == |tr.steps| + 1
    ensures Kept(tr.now, longer.now, {c}) && longer.now.nodes[c] == RecordVote(tr.now.nodes[c], v, vote).0
    ensures Uncommitted(tr.now) ==> Uncommitted(longer.now)
  {
    hide Good;
    hide Extends;
    hide Kept;
    longer := OneMoves(tr, ReceiveVote(VoteReply(v, c, vote)), gap, late);
  }

  lemma Votes(tr: Trace, c: NodeId, v: NodeId, ask: VoteRequest, tv: nat, lv: Log, gap: int, late: int)
    returns (longer: Trace)
    requires Good(tr, gap, late) && Has(tr.now, v, tv, lv) && tv < ask.term && ask.candidateId == c
    requires VoteAsk(c, v, ask) in tr.now.net && UpToDate(ask.lastLogTerm, ask.lastLogIndex, lv)
    requires c in tr.now.nodes && c != v
    ensures Good(longer, gap, late) && Extends(tr, longer) && |longer.steps| == |tr.steps| + 2
    ensures Kept(tr.now, longer.now, {v, c}) && Has(longer.now, v, ask.term, lv)
    ensures longer.now.nodes[c] == RecordVote(tr.now.nodes[c], v, VoteResponse(ask.term, true)).0
    ensures Uncommitted(tr.now) ==> Uncommitted(longer.now)
  {
    hide Good;
    hide Extends;
    hide Uncommitted;
    hide RecordVote;
    hide UpToDate;
    var middle := Grants(tr, c, v, ask, tv, lv, gap, late);
    longer := HearsVote(middle, c, v, VoteResponse(ask.term, true), gap, late);
    ExtendsOn(tr, middle, longer);
    KeptOn(tr.now, middle.now, longer.now, {v}, {c});
    assert {v} + {c} == {v, c};
  }

  /** Two granted votes besides its own make a candidate among five nodes leader. */
  lemma TwoVotesWin(n: Node, v: NodeId, w: NodeId)
    requires |n.peers| == 4 && n.id != v && n.id != w && v != w
    ensures var vote := VoteResponse(n.currentTerm + 1, true);
            var n' := RecordVote(RecordVote(StartElection(n).0, v, vote).0, w, vote).0;
            && n'.role == Leader && n'.currentTerm == n.currentTerm + 1 && n'.log == n.log
            && n'.matchIndex == Store(n.matchIndex, n.peers, 0)
  {
    assert StartElection(n).0.votesReceived == [n.id];
    assert [n.id] + [v] + [w] == [n.id, v, w];
  }

  /** A candidate's own campaign and its first vote. */
  lemma FirstVote(tr: Trace, c: NodeId, v: NodeId, w: NodeId, term: nat, log: Log, tv: nat, lv: Log, tw: nat, lw: Log,
                  gap: int, late: int) returns (longer: Trace)
    requires Good(tr, gap, late) && c != v && c != w && v != w
    requires Has(tr.now, c, term, log) && Has(tr.now, v, tv, lv) && Has(tr.now, w, tw, lw) && tv <= term
    requires UpToDate(LastTerm(log), |log|, lv)
    ensures Good(longer, gap, late) && Extends(tr, longer) && |longer.steps| == |tr.steps| + 3
    ensures Kept(tr.now, longer.now, {c, v}) && Has(longer.now, v, term + 1, lv) && Has(longer.now, w, tw, lw)
    ensures c in tr.now.nodes && c in longer.now.nodes
    ensures longer.now.nodes[c] == RecordVote(StartElection(tr.now.nodes[c]).0, v, VoteResponse(term + 1, true)).0
    ensures VoteAsk(c, w, Ask(c, term + 1, log)) in longer.now.net
    ensures Uncommitted(tr.now) ==> Uncommitted(longer.now)
  {
    hide Enabled;
    hide Next;
    hide Act;
    hide Good;
    hide Extends;
    hide Uncommitted;
    hide RecordVote;
    hide StartElection;
    hide UpToDate;
    hide LastTerm;
    var one := Campaigns(tr, c, term, log, gap, late);
    longer := Votes(one, c, v, Ask(c, term + 1, log), tv, lv, gap, late);
    ExtendsOn(tr, one, longer);
    KeptOn(tr.now, one.now, longer.now, {c}, {v, c});
    assert {c} + {v, c} == {c, v};
  }

  /** Among five nodes, c wins the term after its own with the votes of v and w. */
  lemma Elects(tr: Trace, c: NodeId, v: NodeId, w: NodeId, term: nat, log: Log, tv: nat, lv: Log, tw: nat, lw: Log,
               gap: int, late: int) returns (longer: Trace)
    requires Good(tr, gap, late) && |tr.now.nodes| == 5 && c != v && c != w && v != w
    requires Has(tr.now, c, term, log) && Has(tr.now, v, tv, lv) && Has(tr.now, w, tw, lw) && tv <= term && tw <= term
    requires UpToDate(LastTerm(log), |log|, lv) && UpToDate(LastTerm(log), |log|, lw)
    ensures Good(longer, gap, late) && Extends(tr, longer) && |longer.steps| == |tr.steps| + 5
    ensures Kept(tr.now, longer.now, {c, v, w}) && Leads(longer.now, c, term + 1, log)
    ensures Has(longer.now, v, term + 1, lv) && Has(longer.now, w, term + 1, lw)
    ensures longer.now.nodes[c].matchIndex == Store(tr.now.nodes[c].matchIndex, tr.now.nodes[c].peers, 0)
    ensures Uncommitted(tr.now) ==> Uncommitted(longer.now)
  {
    hide Enabled;
    hide Next;
    hide Act;
    hide Good;
    hide Extends;
    hide Uncommitted;
    hide RecordVote;
    hide StartElection;
    hide Store;
    hide UpToDate;
    hide LastTerm;
    GoodHasConfig(tr, gap, late);
    TwoVotesWin(tr.now.nodes[c], v, w);
    hide Config;
    var two := FirstVote(tr, c, v, w, term, log, tv, lv, tw, lw, gap, late);
    longer := Votes(two, c, w, Ask(c, term + 1, log), tw, lw, gap, late);
    ExtendsOn(tr, two, longer);
    KeptOn(tr.now, two.now, longer.now, {c, v}, {w, c});
    assert {c, v} + {w, c} == {c, v, w};
  }

  // ---------- Entries ----------

  function Proposed(log: Log, term: nat): Log {
    log + [LogEntry(|log| + 1, term, NoOp)]
  }

  lemma Proposes(tr: Trace, a: NodeId, term: nat, log: Log, gap: int, late: int) returns (longer: Trace)
    requires Good(tr, gap, late) && Leads(tr.now, a, term, log)
    ensures Good(longer, gap, late) && Extends(tr, longer) && |longer.steps| == |tr.steps| + 1
    ensures Kept(tr.now, longer.now, {a}) && Leads(longer.now, a, term, Proposed(log, term))
    ensures longer.now.nodes[a].matchIndex == tr.now.nodes[a].matchIndex
    ensures Uncommitted(tr.now) ==> Uncommitted(longer.now)
  {
    hide Good;
    hide Extends;
    hide Kept;
    longer := OneMoves(tr, Client(a, NoOp), gap, late);
  }

  /** A request of no earlier term that starts at the first entry, or leaves a gap, is taken. */
  lemma TakesEntries(f: Node, req: AppendRequest)
    requires f.currentTerm <= req.term && (req.prevLogIndex > |f.log| || (req.prevLogIndex == 0 && req.prevLogTerm == 0))
    ensures var (f', ack) := HandleAppend(f, req);
            && ack == AppendResponse(req.term, true, req.prevLogIndex + |req.entries|)
            && f'.currentTerm == req.term && f'.log == Merge(f.log, req.entries) && f'.matchIndex == f.matchIndex
            && (req.leaderCommit <= f.commitIndex ==> f'.commitIndex == f.commitIndex)
  {
  }

  /** The leader's request for everything from `lo` on. */
  lemma Sends(tr: Trace, a: NodeId, p: NodeId, term: nat, log: Log, lo: nat, gap: int, late: int)
    returns (longer: Trace)
    requires Good(tr, gap, late) && Leads(tr.now, a, term, log) && p in tr.now.nodes && a != p && lo <= |log|
    ensures Good(longer, gap, late) && Extends(tr, longer) && |longer.steps| == |tr.steps| + 1
    ensures Kept(tr.now, longer.now, {})
    ensures AppendAsk(a, p, ReplicateRequest(tr.now.nodes[a], lo, |log|)) in longer.now.net && tr.now.nodes[a].id == a
    ensures Uncommitted(tr.now) ==> Uncommitted(longer.now)
  {
    hide Good;
    hide Extends;
    GoodHasConfig(tr, gap, late);
    longer := OneMoves(tr, SendEntries(a, p, lo, |log|), gap, late);
  }

  lemma Receives(tr: Trace, a: NodeId, p: NodeId, ask: AppendRequest, tp: nat, lp: Log, gap: int, late: int)
    returns (longer: Trace)
    requires Good(tr, gap, late) && Has(tr.now, p, tp, lp) && tp <= ask.term && ask.leaderId == a && ask.leaderCommit == 0
    requires AppendAsk(a, p, ask) in tr.now.net && Uncommitted(tr.now)
    requires (ask.prevLogIndex == 0 && ask.prevLogTerm == 0) || (|lp| < ask.prevLogIndex && |tr.steps| == gap)
    ensures Good(longer, gap, late) && Extends(tr, longer) && |longer.steps| == |tr.steps| + 1
    ensures Kept(tr.now, longer.now, {p}) && Has(longer.now, p, ask.term, Merge(lp, ask.entries))
    ensures longer.now.nodes[p].matchIndex == tr.now.nodes[p].matchIndex && Uncommitted(longer.now)
    ensures AppendReply(p, a, AppendResponse(ask.term, true, ask.prevLogIndex + |ask.entries|)) in longer.now.net
  {
    hide Good;
    hide Extends;
    hide HandleAppend;
    hide Merge;
    hide Kept;
    assert tr.now.nodes[p].commitIndex == 0;
    TakesEntries(tr.now.nodes[p], ask);
    longer := OneMoves(tr, ReceiveAppend(AppendAsk(a, p, ask)), gap, late);
  }

  /** Leader a sends its entries from `lo` on to p, and p takes them. */
  lemma Replicates(tr: Trace, a: NodeId, p: NodeId, term: nat, log: Log, tp: nat, lp: Log, lo: nat, gap: int, late: int)
    returns (longer: Trace)
    requires Good(tr, gap, late) && Leads(tr.now, a, term, log) && Has(tr.now, p, tp, lp) && a != p && tp <= term
    requires lo <= |log| && (lo == 0 || (|lp| < lo && |tr.steps| + 1 == gap)) && Uncommitted(tr.now)
    ensures Good(longer, gap, late) && Extends(tr, longer) && |longer.steps| == |tr.steps| + 2
    ensures Kept(tr.now, longer.now, {p}) && Has(longer.now, p, term, Merge(lp, log[lo..]))
    ensures longer.now.nodes[p].matchIndex == tr.now.nodes[p].matchIndex && Uncommitted(longer.now)
    ensures AppendReply(p, a, AppendResponse(term, true, |log|)) in longer.now.net
  {
    hide Good;
    hide Extends;
    hide HandleAppend;
    hide Merge;
    hide Consistent;
    hide Config;
    var middle := Sends(tr, a, p, term, log, lo, gap, late);
    var ask := ReplicateRequest(tr.now.nodes[a], lo, |log|);
    assert log[lo..|log|] == log[lo..];
    assert middle.now.nodes[p] == tr.now.nodes[p];
    longer := Receives(middle, a, p, ask, tp, lp, gap, late);
    ExtendsOn(tr, middle, longer);
    KeptOn(tr.now, middle.now, longer.now, {}, {p});
    assert {} + {p} == {p};
  }

  /** Leader a counts an acknowledgement. */
  lemma Counts(tr: Trace, a: NodeId, p: NodeId, ack: AppendResponse, term: nat, log: Log, gap: int, late: int)
    returns (longer: Trace)
    requires Good(tr, gap, late) && Leads(tr.now, a, term, log) && AppendReply(p, a, ack) in tr.now.net
    requires ack.term == term || |tr.steps| == late
    ensures Good(longer, gap, late) && Extends(tr, longer)
    ensures longer.steps == tr.steps + [ReceiveSuccess(AppendReply(p, a, ack))]
    ensures Kept(tr.now, longer.now, {a})
    ensures longer.now.nodes[a] == RecordAppendSuccess(tr.now.nodes[a], p, ack)
    ensures Uncommitted(tr.now) && longer.now.nodes[a].commitIndex == 0 ==> Uncommitted(longer.now)
  {
    hide Good;
    hide Extends;
    hide Kept;
    hide RecordAppendSuccess;
    longer := OneMoves(tr, ReceiveSuccess(AppendReply(p, a, ack)), gap, late);
  }

  // ---------- Five nodes ----------

  predicate Distinct(a: NodeId, b: NodeId, c: NodeId, d: NodeId, e: NodeId) {
    && a != b && a != c && a != d && a != e && b != c && b != d && b != e
    && c != d && c != e && d != e
  }

  lemma DistinctSwapped(a: NodeId, b: NodeId, c: NodeId, d: NodeId, e: NodeId)
    requires Distinct(a, b, c, d, e)
    ensures Distinct(a, b, d, c, e)
  {
  }

  function Others(ids: seq<NodeId>, i: NodeId): seq<NodeId> {
    if ids == [] then [] else (if ids[0] == i then [] else [ids[0]]) + Others(ids[1..], i)
  }

  ghost predicate NoRepeats(ids: seq<NodeId>) {
    forall i, j | 0 <= i < j < |ids| :: ids[i] != ids[j]
  }

  lemma {:induction false} OthersAre(ids: seq<NodeId>, i: NodeId)
    requires NoRepeats(ids)
    ensures forall x :: x in Others(ids, i) <==> x in ids && x != i
    ensures |Others(ids, i)| == |ids| - if i in ids then 1 else 0
  {
    if ids != [] {
      OthersAre(ids[1..], i);
      assert ids == [ids[0]] + ids[1..];
    }
  }

  /** The cluster of these nodes before its first step. */
  function Fresh(ids: seq<NodeId>): Cluster {
    Cluster(map i | i in ids :: InitialNode(i, Others(ids, i)), {}, History(map[], map[], map[]))
  }

  lemma FreshIsInit(ids: seq<NodeId>)
    requires NoRepeats(ids)
    ensures Init(Fresh(ids)) && |Fresh(ids).nodes| == |ids| && Uncommitted(Fresh(ids))
    ensures forall i :: i in Fresh(ids).nodes <==> i in ids
    ensures forall i | i in ids :: Has(Fresh(ids), i, 0, [])
  {
    hide Store;
    hide Others;
    var s := Fresh(ids);
    DistinctSize(ids);
    assert s.nodes.Keys == set i | i in ids;
    assert |s.nodes| == |s.nodes.Keys|;
    forall i | i in ids
      ensures (forall x :: x in Others(ids, i) <==> x in ids && x != i) && |Others(ids, i)| == |ids| - 1
    {
      OthersAre(ids, i);
    }
  }

  lemma Begins(a: NodeId, b: NodeId, c: NodeId, d: NodeId, e: NodeId, gap: int, late: int) returns (tr: Trace)
    requires Distinct(a, b, c, d, e)
    ensures Good(tr, gap, late) && tr.steps == [] && |tr.now.nodes| == 5 && Uncommitted(tr.now)
    ensures Has(tr.now, a, 0, []) && Has(tr.now, b, 0, []) && Has(tr.now, c, 0, [])
    ensures Has(tr.now, d, 0, []) && Has(tr.now, e, 0, [])
  {
    hide Has;
    hide Init;
    hide Fresh;
    hide Uncommitted;
    var ids := [a, b, c, d, e];
    FreshIsInit(ids);
    assert a in ids && b in ids && c in ids && d in ids && e in ids;
    tr := Trace([Fresh(ids)], [], Fresh(ids));
  }

  lemma SizeStays(s: Cluster, t: Cluster, moved: set<NodeId>)
    requires Kept(s, t, moved)
    ensures |t.nodes| == |s.nodes| && s.net <= t.net
  {
    assert |s.nodes| == |s.nodes.Keys| && |t.nodes| == |t.nodes.Keys|;
  }

  const E1 := LogEntry(1, 1, NoOp)
  const E2 := LogEntry(2, 1, NoOp)
  const F1 := LogEntry(1, 2, NoOp)
  const G2 := LogEntry(2, 3, NoOp)

  lemma FirstLogs()
    ensures Proposed([], 1) == [E1] && Proposed([E1], 1) == [E1, E2]
  {
  }

  lemma CopiedLogs()
    ensures Merge([], [E1, E2][0..]) == [E1, E2] && Merge([], [F1, G2][0..]) == [F1, G2]
  {
    assert [E1, E2][0..] == [E1, E2] && [E1, E2][1..] == [E2] && [E2][1..] == [];
    assert MergeOne([], E1) == [E1] && MergeOne([E1], E2) == [E1, E2];
    assert Merge([], [E1, E2]) == Merge([E1], [E2]) == Merge([E1, E2], []);
    assert [F1, G2][0..] == [F1, G2] && [F1, G2][1..] == [G2] && [G2][1..] == [];
    assert MergeOne([], F1) == [F1] && MergeOne([F1], G2) == [F1, G2];
    assert Merge([], [F1, G2]) == Merge([F1], [G2]) == Merge([F1, G2], []);
  }

  lemma GapLog()
    ensures Merge([], [E1, E2][1..]) == [E2]
  {
    assert [E1, E2][1..] == [E2] && [E2][1..] == [] && MergeOne([], E2) == [E2];
    assert Merge([], [E2]) == Merge([E2], []);
  }

  lemma SecondLogs()
    ensures Proposed([], 2) == [F1] && Merge([E1, E2], [F1][0..]) == [F1] && Proposed([F1], 3) == [F1, G2]
  {
    assert [F1][0..] == [F1] && [F1][1..] == [] && MergeOne([E1, E2], F1) == [F1];
    assert Merge([E1, E2], [F1]) == Merge([F1], []);
  }

  lemma VoteFacts()
    ensures UpToDate(LastTerm([]), 0, []) && UpToDate(LastTerm([F1]), 1, [])
    ensures UpToDate(LastTerm([F1]), 1, [E1, E2])
  {
  }

  lemma TwoStay(s: Cluster, t: Cluster, moved: set<NodeId>, i: NodeId, j: NodeId, u: nat, v: nat, k: Log, l: Log)
    requires Kept(s, t, moved) && i !in moved && j !in moved && Has(s, i, u, k) && Has(s, j, v, l)
    ensures Has(t, i, u, k) && Has(t, j, v, l)
  {
  }

  /** An election among five nodes: c wins with v and w, x and y hear nothing. */
  lemma ElectsAmong(tr: Trace, c: NodeId, v: NodeId, w: NodeId, x: NodeId, y: NodeId, term: nat, log: Log,
                    tv: nat, lv: Log, tw: nat, lw: Log, tx: nat, lx: Log, ty: nat, ly: Log, gap: int, late: int)
    returns (longer: Trace)
    requires Good(tr, gap, late) && |tr.now.nodes| == 5 && Distinct(c, v, w, x, y) && Uncommitted(tr.now)
    requires Has(tr.now, c, term, log) && Has(tr.now, v, tv, lv) && Has(tr.now, w, tw, lw) && tv <= term && tw <= term
    requires Has(tr.now, x, tx, lx) && Has(tr.now, y, ty, ly)
    requires UpToDate(LastTerm(log), |log|, lv) && UpToDate(LastTerm(log), |log|, lw)
    ensures Good(longer, gap, late) && Extends(tr, longer) && |longer.steps| == |tr.steps| + 5
    ensures Leads(longer.now, c, term + 1, log) && Has(longer.now, v, term + 1, lv) && Has(longer.now, w, term + 1, lw)
    ensures Has(longer.now, x, tx, lx) && Has(longer.now, y, ty, ly)
    ensures longer.now.nodes[c].matchIndex == Store(tr.now.nodes[c].matchIndex, tr.now.nodes[c].peers, 0)
    ensures |longer.now.nodes| == 5 && Uncommitted(longer.now) && tr.now.net <= longer.now.net
  {
    assert c != v && c != w && v != w && x !in {c, v, w} && y !in {c, v, w};
    hide *;
    longer := Elects(tr, c, v, w, term, log, tv, lv, tw, lw, gap, late);
    TwoStay(tr.now, longer.now, {c, v, w}, x, y, tx, ty, lx, ly);
    SizeStays(tr.now, longer.now, {c, v, w});
  }

  /** Term 1: a is elected by b and d. */
  lemma FirstLeader(a: NodeId, b: NodeId, c: NodeId, d: NodeId, e: NodeId, gap: int, late: int) returns (tr: Trace)
    requires Distinct(a, b, c, d, e)
    ensures Good(tr, gap, late) && |tr.steps| == 5 && |tr.now.nodes| == 5 && Uncommitted(tr.now) && Leads(tr.now, a, 1, [])
    ensures Has(tr.now, b, 1, []) && Has(tr.now, d, 1, []) && Has(tr.now, c, 0, []) && Has(tr.now, e, 0, [])
  {
    hide *;
    DistinctSwapped(a, b, c, d, e);
    VoteFacts();
    var zero := Begins(a, b, c, d, e, gap, late);
    tr := ElectsAmong(zero, a, b, d, c, e, 0, [], 0, [], 0, [], 0, [], 0, [], gap, late);
  }

  lemma FourStay(s: Cluster, t: Cluster, i: NodeId, a: NodeId, b: NodeId, c: NodeId, d: NodeId,
                 ta: nat, tb: nat, tc: nat, td: nat, la: Log, lb: Log, lc: Log, ld: Log)
    requires Kept(s, t, {i}) && i != a && i != b && i != c && i != d
    requires Has(s, a, ta, la) && Has(s, b, tb, lb) && Has(s, c, tc, lc) && Has(s, d, td, ld)
    ensures Has(t, a, ta, la) && Has(t, b, tb, lb) && Has(t, c, tc, lc) && Has(t, d, td, ld)
    ensures |t.nodes| == |s.nodes| && s.net <= t.net
  {
    SizeStays(s, t, {i});
  }

  /** Then it proposes two entries. */
  lemma FirstTerm(a: NodeId, b: NodeId, c: NodeId, d: NodeId, e: NodeId, gap: int, late: int) returns (tr: Trace)
    requires Distinct(a, b, c, d, e)
    ensures Good(tr, gap, late) && |tr.steps| == 7 && |tr.now.nodes| == 5 && Uncommitted(tr.now)
    ensures Leads(tr.now, a, 1, [E1, E2])
    ensures Has(tr.now, b, 1, []) && Has(tr.now, d, 1, []) && Has(tr.now, c, 0, []) && Has(tr.now, e, 0, [])
  {
    assert a != b && a != c && a != d && a != e;
    hide *;
    FirstLogs();
    var one := FirstLeader(a, b, c, d, e, gap, late);
    var two := Proposes(one, a, 1, [], gap, late);
    FourStay(one.now, two.now, a, b, d, c, e, 1, 1, 0, 0, [], [], [], []);
    tr := Proposes(two, a, 1, [E1], gap, late);
    FourStay(two.now, tr.now, a, b, d, c, e, 1, 1, 0, 0, [], [], [], []);
  }

  /** With a gap: an entry with index 2 lands at position 1 and meets there the leader's entry,
      which has the same term. (G) fails in the last step only, (T) in none. */
  lemma GapBreaksMatching(a: NodeId, b: NodeId, c: NodeId, d: NodeId, e: NodeId) returns (tr: Trace)
    requires Distinct(a, b, c, d, e)
    ensures Good(tr, |tr.steps| - 1, -1) && a in tr.now.nodes && b in tr.now.nodes
    ensures tr.now.nodes[a].log == [E1, E2] && tr.now.nodes[b].log == [E2]
    ensures !Indexed(tr.now.nodes[b].log) && TermAt(tr.now.nodes[a].log, 1) == TermAt(tr.now.nodes[b].log, 1)
  {
    hide Good;
    hide Merge;
    hide Extends;
    GapLog();
    var one := FirstTerm(a, b, c, d, e, 8, -1);
    tr := Replicates(one, a, b, 1, [E1, E2], 1, [], 1, 8, -1);
    assert tr.now.nodes[b].log[0].index == 2;
  }

  // ---------- The late acknowledgement ----------

  /** Then b takes both entries, and its answer stays under way. */
  lemma AnswerUnderWay(a: NodeId, b: NodeId, c: NodeId, d: NodeId, e: NodeId, late: int) returns (tr: Trace)
    requires Distinct(a, b, c, d, e)
    ensures Good(tr, -1, late) && |tr.steps| == 9 && |tr.now.nodes| == 5 && Uncommitted(tr.now)
    ensures Has(tr.now, a, 1, [E1, E2]) && Has(tr.now, b, 1, [E1, E2])
    ensures Has(tr.now, d, 1, []) && Has(tr.now, c, 0, []) && Has(tr.now, e, 0, [])
    ensures AppendReply(b, a, AppendResponse(1, true, 2)) in tr.now.net
  {
    assert b != a && b != c && b != d && b != e;
    hide *;
    CopiedLogs();
    var one := FirstTerm(a, b, c, d, e, -1, late);
    LeadsHas(one.now, a, 1, [E1, E2]);
    tr := Replicates(one, a, b, 1, [E1, E2], 1, [], 0, -1, late);
    FourStay(one.now, tr.now, b, a, d, c, e, 1, 1, 0, 0, [E1, E2], [], [], []);
  }

  /** Term 2, after a failed campaign: c is elected by d and e. */
  lemma SecondLeader(a: NodeId, b: NodeId, c: NodeId, d: NodeId, e: NodeId, late: int) returns (tr: Trace)
    requires Distinct(a, b, c, d, e)
    ensures Good(tr, -1, late) && |tr.steps| == 15 && |tr.now.nodes| == 5 && Uncommitted(tr.now)
    ensures Has(tr.now, a, 1, [E1, E2]) && Has(tr.now, b, 1, [E1, E2]) && Leads(tr.now, c, 2, [])
    ensures Has(tr.now, d, 2, []) && Has(tr.now, e, 2, [])
    ensures AppendReply(b, a, AppendResponse(1, true, 2)) in tr.now.net
  {
    assert c != a && c != b && c != d && c != e && Distinct(c, d, e, a, b);
    hide *;
    VoteFacts();
    var zero := AnswerUnderWay(a, b, c, d, e, late);
    var one := Campaigns(zero, c, 0, [], -1, late);
    FourStay(zero.now, one.now, c, a, b, d, e, 1, 1, 1, 0, [E1, E2], [E1, E2], [], []);
    tr := ElectsAmong(one, c, d, e, a, b, 1, [], 1, [], 0, [], 1, [E1, E2], 1, [E1, E2], -1, late);
  }

  /** Then c proposes one entry and overwrites a's entries with it. */
  lemma SecondTerm(a: NodeId, b: NodeId, c: NodeId, d: NodeId, e: NodeId, late: int) returns (tr: Trace)
    requires Distinct(a, b, c, d, e)
    ensures Good(tr, -1, late) && |tr.steps| == 18 && |tr.now.nodes| == 5 && Uncommitted(tr.now)
    ensures Has(tr.now, a, 2, [F1]) && Has(tr.now, b, 1, [E1, E2]) && Has(tr.now, c, 2, [F1])
    ensures Has(tr.now, d, 2, []) && Has(tr.now, e, 2, [])
    ensures AppendReply(b, a, AppendResponse(1, true, 2)) in tr.now.net
  {
    assert c != a && c != b && c != d && c != e && a != b && a != d && a != e;
    hide *;
    SecondLogs();
    var one := SecondLeader(a, b, c, d, e, late);
    var two := Proposes(one, c, 2, [], -1, late);
    FourStay(one.now, two.now, c, a, b, d, e, 1, 1, 2, 2, [E1, E2], [E1, E2], [], []);
    LeadsHas(two.now, c, 2, [F1]);
    tr := Replicates(two, c, a, 2, [F1], 1, [E1, E2], 0, -1, late);
    FourStay(two.now, tr.now, a, b, c, d, e, 1, 2, 2, 2, [E1, E2], [F1], [], []);
  }

  /** Before the late step every node counts exactly its peers. */
  lemma CountsPeers(tr: Trace, late: int, i: NodeId)
    requires Good(tr, -1, late) && |tr.steps| <= late && i in tr.now.nodes
    ensures tr.now.nodes[i].matchIndex.Keys == set p | p in tr.now.nodes[i].peers
  {
    RaftCompleteness.RunKeepsKeepInv(tr.run, tr.steps, |tr.steps|);
    assert RaftCompleteness.MatchBacked(tr.now.net, tr.now.nodes[i]);
  }

  /** The leader counts its four peers at zero. */
  predicate CountsNone(m: map<NodeId, nat>, b: NodeId, c: NodeId, d: NodeId, e: NodeId) {
    m == map[b := 0, c := 0, d := 0, e := 0]
  }

  lemma StartsCounting(n: Node, b: NodeId, c: NodeId, d: NodeId, e: NodeId)
    requires (forall p :: p in n.peers <==> p in {b, c, d, e}) && n.matchIndex.Keys == set p | p in n.peers
    ensures CountsNone(Store(n.matchIndex, n.peers, 0), b, c, d, e)
  {
    StoreSets(n.matchIndex, n.peers, 0);
    var m := Store(n.matchIndex, n.peers, 0);
    assert forall p :: p in m <==> p in {b, c, d, e};
  }

  /** One acknowledgement of entry 2 commits nothing. */
  lemma OneAckCommitsNothing(n: Node, b: NodeId, c: NodeId, d: NodeId, e: NodeId)
    requires Distinct(n.id, b, c, d, e) && CountsNone(n.matchIndex, b, c, d, e)
    requires n.role == Leader && n.currentTerm == 3 && n.log == [F1, G2] && n.commitIndex == 0
    ensures var n' := RecordAppendSuccess(n, d, AppendResponse(3, true, 2));
            && n'.matchIndex == map[b := 0, c := 0, d := 2, e := 0] && n'.commitIndex == 0
            && n'.role == Leader && n'.currentTerm == 3 && n'.log == n.log && n'.id == n.id
  {
    var m := n.matchIndex[d := 2];
    assert m == map[b := 0, c := 0, d := 2, e := 0];
    assert |m| == |m.Keys| && m.Keys == {b, c, d, e} && |{b, c, d, e}| == 4;
    forall q: nat | q > 0 ensures 2 * MatchCount(m, 2, q) <= |m| + 1 {
      SubsetSize(set k | k in m && m[k] >= q, {d});
    }
  }

  lemma TwoMatchTwo(acks: map<NodeId, nat>, b: NodeId, c: NodeId, d: NodeId, e: NodeId)
    requires b != c && b != d && b != e && c != d && c != e && d != e && acks == map[b := 2, c := 0, d := 2, e := 0]
    ensures IsQuorumMatch(acks, 2, 2)
  {
    assert |acks| == |acks.Keys| && acks.Keys == {b, c, d, e} && |{b, c, d, e}| == 4;
    assert (set k | k in acks && acks[k] >= 2) == {b, d};
    forall x: nat | x > 2 ensures MatchCount(acks, 2, x) == 0 {
      assert (set k | k in acks && acks[k] >= x) == {};
    }
  }

  lemma CommitsQuorum(n: Node, peer: NodeId, ack: AppendResponse, q: nat)
    requires n.role == Leader && ack.term <= n.currentTerm && ack.matchIndex > n.commitIndex
    requires var m := n.(matchIndex := n.matchIndex[peer := ack.matchIndex],
                         nextIndex := n.nextIndex[peer := ack.matchIndex + 1]);
             MayCommit(m, q)
    ensures var n' := RecordAppendSuccess(n, peer, ack);
            n'.commitIndex == q && n'.role == Leader && n'.currentTerm == n.currentTerm && n'.log == n.log && n'.id == n.id
  {
    hide IsQuorumMatch;
    var m := n.(matchIndex := n.matchIndex[peer := ack.matchIndex],
                nextIndex := n.nextIndex[peer := ack.matchIndex + 1]);
    forall r | MayCommit(m, r) ensures r == q {
      QuorumMatchUnique(m.matchIndex, |n.log|, q, r);
    }
  }

  lemma SecondCount(m: map<NodeId, nat>, b: NodeId, c: NodeId, d: NodeId, e: NodeId)
    requires m == map[b := 0, c := 0, d := 2, e := 0] && b != c && b != d && b != e
    ensures m[b := 2] == map[b := 2, c := 0, d := 2, e := 0]
  {
  }

  /** With a second one, however old, entry 2 is committed. */
  lemma TwoAcksCommit(n: Node, b: NodeId, c: NodeId, d: NodeId, e: NodeId)
    requires Distinct(n.id, b, c, d, e) && n.matchIndex == map[b := 0, c := 0, d := 2, e := 0]
    requires n.role == Leader && n.currentTerm == 3 && n.log == [F1, G2] && n.commitIndex == 0
    ensures var n' := RecordAppendSuccess(n, b, AppendResponse(1, true, 2));
            n'.commitIndex == 2 && n'.role == Leader && n'.currentTerm == 3 && n'.log == n.log && n'.id == n.id
  {
    hide IsQuorumMatch;
    hide RecordAppendSuccess;
    var acks := n.matchIndex[b := 2];
    SecondCount(n.matchIndex, b, c, d, e);
    TwoMatchTwo(acks, b, c, d, e);
    CommitsQuorum(n, b, AppendResponse(1, true, 2), 2);
  }

  /** Term 3: a is elected by b and d. */
  lemma ThirdLeader(a: NodeId, b: NodeId, c: NodeId, d: NodeId, e: NodeId, late: int) returns (tr: Trace)
    requires Distinct(a, b, c, d, e) && late >= 23
    ensures Good(tr, -1, late) && |tr.steps| == 23 && |tr.now.nodes| == 5 && Uncommitted(tr.now)
    ensures Leads(tr.now, a, 3, [F1]) && CountsNone(tr.now.nodes[a].matchIndex, b, c, d, e)
    ensures Has(tr.now, b, 3, [E1, E2]) && Has(tr.now, c, 2, [F1]) && Has(tr.now, d, 3, []) && Has(tr.now, e, 2, [])
    ensures AppendReply(b, a, AppendResponse(1, true, 2)) in tr.now.net
  {
    hide *;
    DistinctSwapped(a, b, c, d, e);
    VoteFacts();
    var two := SecondTerm(a, b, c, d, e, late);
    AllPresent(two.now, a, b, c, d, e, 2, 1, 2, 2, 2, [F1], [E1, E2], [F1], [], []);
    PeersAre(two, late, a, b, c, d, e);
    CountsPeers(two, late, a);
    StartsCounting(two.now.nodes[a], b, c, d, e);
    tr := ElectsAmong(two, a, b, d, c, e, 2, [F1], 1, [E1, E2], 2, [], 2, [F1], 2, [], -1, late);
  }

  lemma AllPresent(s: Cluster, a: NodeId, b: NodeId, c: NodeId, d: NodeId, e: NodeId,
                   ta: nat, tb: nat, tc: nat, td: nat, te: nat, la: Log, lb: Log, lc: Log, ld: Log, le: Log)
    requires Distinct(a, b, c, d, e) && |s.nodes| == 5
    requires Has(s, a, ta, la) && Has(s, b, tb, lb) && Has(s, c, tc, lc) && Has(s, d, td, ld) && Has(s, e, te, le)
    ensures s.nodes.Keys == {a, b, c, d, e}
  {
    var five := {a, b, c, d, e};
    assert |five| == 5 && |s.nodes| == |s.nodes.Keys|;
    assert |s.nodes.Keys - five| == |s.nodes.Keys| - |five|;
    assert s.nodes.Keys == five + (s.nodes.Keys - five);
  }

  lemma PeersAre(tr: Trace, late: int, a: NodeId, b: NodeId, c: NodeId, d: NodeId, e: NodeId)
    requires Distinct(a, b, c, d, e) && Good(tr, -1, late) && tr.now.nodes.Keys == {a, b, c, d, e}
    ensures a in tr.now.nodes && forall p :: p in tr.now.nodes[a].peers <==> p in {b, c, d, e}
  {
    GoodHasConfig(tr, -1, late);
    hide Good;
  }

  /** Then it proposes an entry and d takes both of its entries. */
  lemma ThirdTerm(a: NodeId, b: NodeId, c: NodeId, d: NodeId, e: NodeId, late: int) returns (tr: Trace)
    requires Distinct(a, b, c, d, e) && late >= 23
    ensures Good(tr, -1, late) && |tr.steps| == 26 && |tr.now.nodes| == 5 && Uncommitted(tr.now)
    ensures Leads(tr.now, a, 3, [F1, G2]) && CountsNone(tr.now.nodes[a].matchIndex, b, c, d, e)
    ensures Has(tr.now, b, 3, [E1, E2]) && Has(tr.now, c, 2, [F1]) && Has(tr.now, d, 3, [F1, G2]) && Has(tr.now, e, 2, [])
    ensures AppendReply(b, a, AppendResponse(1, true, 2)) in tr.now.net
    ensures AppendReply(d, a, AppendResponse(3, true, 2)) in tr.now.net
  {
    assert a != b && a != c && a != d && a != e && b != d && c != d && d != e;
    hide *;
    SecondLogs();
    CopiedLogs();
    var one := ThirdLeader(a, b, c, d, e, late);
    var two := Proposes(one, a, 3, [F1], -1, late);
    FourStay(one.now, two.now, a, b, c, d, e, 3, 2, 3, 2, [E1, E2], [F1], [], []);
    tr := Replicates(two, a, d, 3, [F1, G2], 3, [], 0, -1, late);
    LeadsHas(two.now, a, 3, [F1, G2]);
    FourStay(two.now, tr.now, d, a, b, c, e, 3, 3, 2, 2, [F1, G2], [E1, E2], [F1], []);
    NodeStays(two.now, tr.now, {d}, a, 3, [F1, G2]);
  }

  lemma NodeStays(s: Cluster, t: Cluster, moved: set<NodeId>, i: NodeId, term: nat, log: Log)
    requires Kept(s, t, moved) && i !in moved && Leads(s, i, term, log)
    ensures i in s.nodes && i in t.nodes && t.nodes[i] == s.nodes[i] && Leads(t, i, term, log)
  {
  }

  lemma LeaderFacts(tr: Trace, gap: int, late: int, a: NodeId, term: nat, log: Log)
    requires Good(tr, gap, late) && Leads(tr.now, a, term, log)
    ensures a in tr.now.nodes
    ensures var n := tr.now.nodes[a]; n.id == a && n.role == Leader && n.currentTerm == term && n.log == log
    ensures Uncommitted(tr.now) ==> tr.now.nodes[a].commitIndex == 0
  {
    GoodHasConfig(tr, gap, late);
    hide Good;
  }

  /** It counts the answer of d, which commits nothing. */
  lemma CountsTrueAck(a: NodeId, b: NodeId, c: NodeId, d: NodeId, e: NodeId) returns (tr: Trace)
    requires Distinct(a, b, c, d, e)
    ensures Good(tr, -1, 27) && |tr.steps| == 27 && |tr.now.nodes| == 5 && Uncommitted(tr.now)
    ensures Leads(tr.now, a, 3, [F1, G2]) && tr.now.nodes[a].matchIndex == map[b := 0, c := 0, d := 2, e := 0]
    ensures Has(tr.now, b, 3, [E1, E2]) && Has(tr.now, c, 2, [F1]) && Has(tr.now, d, 3, [F1, G2]) && Has(tr.now, e, 2, [])
    ensures AppendReply(b, a, AppendResponse(1, true, 2)) in tr.now.net
  {
    assert a != b && a != c && a != d && a != e;
    var ack := AppendResponse(3, true, 2);
    hide *;
    var one := ThirdTerm(a, b, c, d, e, 27);
    LeaderFacts(one, -1, 27, a, 3, [F1, G2]);
    OneAckCommitsNothing(one.now.nodes[a], b, c, d, e);
    tr := Counts(one, a, d, ack, 3, [F1, G2], -1, 27);
    FourStay(one.now, tr.now, a, b, c, d, e, 3, 2, 3, 2, [E1, E2], [F1], [F1, G2], []);
    SnocLength(one.steps, ReceiveSuccess(AppendReply(d, a, ack)));
    StillLeads(one.now, tr.now, {a}, a, 3, [F1, G2]);
  }

  lemma StillLeads(s: Cluster, t: Cluster, moved: set<NodeId>, a: NodeId, term: nat, log: Log)
    requires Kept(s, t, moved) && Leads(s, a, term, log)
    ensures a in t.nodes
    ensures var n := t.nodes[a]; n.role == Leader && n.currentTerm == term && n.log == log ==> Leads(t, a, term, log)
  {
  }

  /** It counts b's answer of term 1, in step 27, and commits. */
  lemma CountsLateAck(a: NodeId, b: NodeId, c: NodeId, d: NodeId, e: NodeId) returns (before: Trace, tr: Trace)
    requires Distinct(a, b, c, d, e)
    ensures Good(before, -1, 27) && |before.steps| == 27 && Leads(before.now, a, 3, [F1, G2]) && Uncommitted(before.now)
    ensures Good(tr, -1, 27) && |tr.steps| == 28 && |tr.now.nodes| == 5 && Extends(before, tr)
    ensures tr.steps == before.steps + [ReceiveSuccess(AppendReply(b, a, AppendResponse(1, true, 2)))]
    ensures Leads(tr.now, a, 3, [F1, G2]) && tr.now.nodes[a].commitIndex == 2
    ensures Has(tr.now, b, 3, [E1, E2]) && Has(tr.now, c, 2, [F1]) && Has(tr.now, d, 3, [F1, G2]) && Has(tr.now, e, 2, [])
  {
    assert a != b && a != c && a != d && a != e;
    hide *;
    var ack := AppendResponse(1, true, 2);
    before := CountsTrueAck(a, b, c, d, e);
    LeaderFacts(before, -1, 27, a, 3, [F1, G2]);
    TwoAcksCommit(before.now.nodes[a], b, c, d, e);
    tr := Counts(before, a, b, ack, 3, [F1, G2], -1, 27);
    FourStay(before.now, tr.now, a, b, c, d, e, 3, 2, 3, 2, [E1, E2], [F1], [F1, G2], []);
    SnocLength(before.steps, ReceiveSuccess(AppendReply(b, a, ack)));
    StillLeads(before.now, tr.now, {a}, a, 3, [F1, G2]);
  }

  /** Without asking that nothing is committed. */
  lemma ElectsLast(tr: Trace, b: NodeId, c: NodeId, e: NodeId) returns (longer: Trace)
    requires Good(tr, -1, 27) && |tr.now.nodes| == 5 && b != c && c != e && b != e
    requires Has(tr.now, b, 3, [E1, E2]) && Has(tr.now, c, 2, [F1]) && Has(tr.now, e, 2, [])
    ensures Good(longer, -1, 27) && Extends(tr, longer) && |longer.steps| == |tr.steps| + 6
    ensures Leads(longer.now, c, 4, [F1])
  {
    hide *;
    VoteFacts();
    var one := Campaigns(tr, c, 2, [F1], -1, 27);
    TwoStay(tr.now, one.now, {c}, b, e, 3, 2, [E1, E2], []);
    SizeStays(tr.now, one.now, {c});
    longer := Elects(one, c, b, e, 3, [F1], 3, [E1, E2], 2, [], -1, 27);
    ExtendsOn(tr, one, longer);
  }

  /** The last state of a run is one of the states of a run that extends it. */
  lemma NowStays(tr: Trace, longer: Trace, gap: int, late: int)
    requires Good(tr, gap, late) && Extends(tr, longer) && Good(longer, gap, late)
    ensures |tr.steps| < |longer.run| && longer.run[|tr.steps|] == tr.now && longer.run != []
    ensures |longer.run| == |longer.steps| + 1 && longer.run[|longer.steps|] == longer.now
  {
  }

  lemma StepStays(steps: seq<Step>, step: Step, longer: seq<Step>)
    requires steps + [step] <= longer
    ensures |steps| < |longer| && longer[|steps|] == step
  {
    assert (steps + [step])[|steps|] == step;
  }

  /** A late success breaks leader completeness: a run of any five nodes without a gap, in which
      (T) fails in step 27 only. There a, leader of term 3, counts b's success of term 1 and commits
      entry 2, which only a and d hold; the run ends with c leading term 4 without that entry. */
  lemma LateAckBreaksCompleteness(a: NodeId, b: NodeId, c: NodeId, d: NodeId, e: NodeId) returns (tr: Trace)
    requires Distinct(a, b, c, d, e)
    ensures Good(tr, -1, 27) && |tr.steps| == 34 && |tr.run| == 35
    ensures tr.steps[27] == ReceiveSuccess(AppendReply(b, a, AppendResponse(1, true, 2)))
    ensures RaftCompleteness.Commits(tr.run, tr.steps, 27, a)
    ensures Leads(tr.run[28], a, 3, [F1, G2]) && tr.run[28].nodes[a].commitIndex == 2
    ensures Has(tr.run[28], b, 3, [E1, E2]) && Has(tr.run[28], c, 2, [F1])
    ensures Has(tr.run[28], d, 3, [F1, G2]) && Has(tr.run[28], e, 2, [])
    ensures Leads(tr.run[34], c, 4, [F1])
    ensures !(RaftCompleteness.Committed(tr.run[28].nodes[a]) <= tr.run[34].nodes[c].log)
  {
    assert b != c && c != e && b != e;
    hide Good;
    hide Extends;
    hide Distinct;
    hide Uncommitted;
    var before, commit := CountsLateAck(a, b, c, d, e);
    tr := ElectsLast(commit, b, c, e);
    ExtendsOn(before, commit, tr);
    NowStays(before, tr, -1, 27);
    NowStays(commit, tr, -1, 27);
    LeaderFacts(before, -1, 27, a, 3, [F1, G2]);
    StepsOf(commit, tr);
    StepStays(before.steps, ReceiveSuccess(AppendReply(b, a, AppendResponse(1, true, 2))), tr.steps);
    RunOf(tr, -1, 27);
    assert RaftCompleteness.Committed(tr.run[28].nodes[a]) == [F1, G2];
  }

  lemma StepsOf(tr: Trace, longer: Trace)
    requires Extends(tr, longer)
    ensures tr.steps <= longer.steps
  {
  }

  lemma RunOf(tr: Trace, gap: int, late: int)
    requires Good(tr, gap, late)
    ensures Run(tr.run, tr.steps)
  {
  }
}
