/** What (C) excludes: a run of five nodes within (G) and (T) in which a heartbeat makes a follower
    commit an entry of its own that no leader has committed. */
module RaftCommitCounterexample {
  import opened RaftNodeSpec
  import opened RaftCluster
  import opened RaftCounterexamples
  import RaftCompleteness

  lemma Logs()
    ensures Proposed([], 1) == [E1] && Proposed([], 2) == [F1] && Merge([], [F1][0..]) == [F1]
  {
    assert [F1][0..] == [F1] && [F1][1..] == [] && MergeOne([], F1) == [F1];
    assert Merge([], [F1]) == Merge([F1], []);
  }

  /** Term 1: a is elected by b and d, and proposes an entry that it keeps to itself. */
  lemma Proposal(a: NodeId, b: NodeId, c: NodeId, d: NodeId, e: NodeId) returns (tr: Trace)
    requires Distinct(a, b, c, d, e)
    ensures Good(tr, -1, -1) && |tr.steps| == 6 && |tr.now.nodes| == 5 && Uncommitted(tr.now)
    ensures Has(tr.now, a, 1, [E1]) && Has(tr.now, b, 1, [])
    ensures Has(tr.now, d, 1, []) && Has(tr.now, c, 0, []) && Has(tr.now, e, 0, [])
  {
    assert a != b && a != c && a != d && a != e;
    hide *;
    Logs();
    var one := FirstLeader(a, b, c, d, e, -1, -1);
    tr := Proposes(one, a, 1, [], -1, -1);
    LeadsHas(tr.now, a, 1, [E1]);
    FourStay(one.now, tr.now, a, b, d, c, e, 1, 1, 0, 0, [], [], [], []);
  }

  /** Every node counts its peers, in a run within (G) and (T). */
  lemma CountsItsPeers(tr: Trace, i: NodeId)
    requires Good(tr, -1, -1) && i in tr.now.nodes
    ensures tr.now.nodes[i].matchIndex.Keys == set p | p in tr.now.nodes[i].peers
  {
    RaftCompleteness.RunKeepsKeepInv(tr.run, tr.steps, |tr.steps|);
    assert RaftCompleteness.MatchBacked(tr.now.net, tr.now.nodes[i]);
  }

  /** Term 2: c is elected by d and e and proposes another entry. */
  lemma SecondProposal(a: NodeId, b: NodeId, c: NodeId, d: NodeId, e: NodeId) returns (tr: Trace)
    requires Distinct(a, b, c, d, e)
    ensures Good(tr, -1, -1) && |tr.steps| == 13 && |tr.now.nodes| == 5 && Uncommitted(tr.now)
    ensures Leads(tr.now, c, 2, [F1]) && CountsNone(tr.now.nodes[c].matchIndex, a, b, d, e)
    ensures Has(tr.now, a, 1, [E1]) && Has(tr.now, b, 1, []) && Has(tr.now, d, 2, []) && Has(tr.now, e, 2, [])
  {
    assert c != a && c != b && c != d && c != e && Distinct(c, d, e, a, b) && Distinct(c, a, b, d, e);
    hide *;
    Logs();
    VoteFacts();
    var zero := Proposal(a, b, c, d, e);
    var one := Campaigns(zero, c, 0, [], -1, -1);
    FourStay(zero.now, one.now, c, a, b, d, e, 1, 1, 1, 0, [E1], [], [], []);
    AllPresent(one.now, c, a, b, d, e, 1, 1, 1, 1, 0, [], [E1], [], [], []);
    PeersAre(one, -1, c, a, b, d, e);
    CountsItsPeers(one, c);
    StartsCounting(one.now.nodes[c], a, b, d, e);
    var two := ElectsAmong(one, c, d, e, a, b, 1, [], 1, [], 0, [], 1, [E1], 1, [], -1, -1);
    tr := Proposes(two, c, 2, [], -1, -1);
    FourStay(two.now, tr.now, c, a, b, d, e, 1, 1, 2, 2, [E1], [], [], []);
  }

  /** Then d takes it. */
  lemma FirstReplication(a: NodeId, b: NodeId, c: NodeId, d: NodeId, e: NodeId) returns (tr: Trace)
    requires Distinct(a, b, c, d, e)
    ensures Good(tr, -1, -1) && |tr.steps| == 15 && |tr.now.nodes| == 5 && Uncommitted(tr.now)
    ensures Leads(tr.now, c, 2, [F1]) && CountsNone(tr.now.nodes[c].matchIndex, a, b, d, e)
    ensures Has(tr.now, a, 1, [E1]) && Has(tr.now, b, 1, []) && Has(tr.now, e, 2, [])
    ensures AppendReply(d, c, AppendResponse(2, true, 1)) in tr.now.net
  {
    assert c != d && d != a && d != e && d != b;
    hide *;
    Logs();
    var one := SecondProposal(a, b, c, d, e);
    tr := Replicates(one, c, d, 2, [F1], 2, [], 0, -1, -1);
    NodeStays(one.now, tr.now, {d}, c, 2, [F1]);
    LeadsHas(one.now, c, 2, [F1]);
    FourStay(one.now, tr.now, d, a, b, c, e, 1, 1, 2, 2, [E1], [], [F1], []);
  }

  /** Then e takes it too. */
  lemma Replication(a: NodeId, b: NodeId, c: NodeId, d: NodeId, e: NodeId) returns (tr: Trace)
    requires Distinct(a, b, c, d, e)
    ensures Good(tr, -1, -1) && |tr.steps| == 17 && |tr.now.nodes| == 5 && Uncommitted(tr.now)
    ensures Leads(tr.now, c, 2, [F1]) && CountsNone(tr.now.nodes[c].matchIndex, a, b, d, e)
    ensures Has(tr.now, a, 1, [E1])
    ensures AppendReply(d, c, AppendResponse(2, true, 1)) in tr.now.net
    ensures AppendReply(e, c, AppendResponse(2, true, 1)) in tr.now.net
  {
    assert c != a && c != e && e != a && e != b;
    hide *;
    Logs();
    var two := FirstReplication(a, b, c, d, e);
    tr := Replicates(two, c, e, 2, [F1], 2, [], 0, -1, -1);
    NodeStays(two.now, tr.now, {e}, c, 2, [F1]);
    TwoStay(two.now, tr.now, {e}, a, b, 1, 1, [E1], []);
    SizeStays(two.now, tr.now, {e});
  }

  /** One acknowledgement commits nothing. */
  lemma FirstAck(n: Node, a: NodeId, b: NodeId, d: NodeId, e: NodeId)
    requires Distinct(n.id, a, b, d, e) && CountsNone(n.matchIndex, a, b, d, e)
    requires n.role == Leader && n.currentTerm == 2 && n.log == [F1] && n.commitIndex == 0
    ensures var n' := RecordAppendSuccess(n, d, AppendResponse(2, true, 1));
            && n'.matchIndex == map[a := 0, b := 0, d := 1, e := 0] && n'.commitIndex == 0
            && n'.role == Leader && n'.currentTerm == 2 && n'.log == n.log && n'.id == n.id
  {
    var m := n.matchIndex[d := 1];
    assert m == map[a := 0, b := 0, d := 1, e := 0];
    assert |m| == |m.Keys| && m.Keys == {a, b, d, e} && |{a, b, d, e}| == 4;
    forall q: nat | q > 0 ensures 2 * MatchCount(m, 1, q) <= |m| + 1 {
      SubsetSize(set k | k in m && m[k] >= q, {d});
    }
  }

  lemma TwoMatchOne(acks: map<NodeId, nat>, a: NodeId, b: NodeId, d: NodeId, e: NodeId)
    requires a != b && a != d && a != e && b != d && b != e && d != e && acks == map[a := 0, b := 0, d := 1, e := 1]
    ensures IsQuorumMatch(acks, 1, 1)
  {
    assert |acks| == |acks.Keys| && acks.Keys == {a, b, d, e} && |{a, b, d, e}| == 4;
    assert (set k | k in acks && acks[k] >= 1) == {d, e};
    forall x: nat | x > 1 ensures MatchCount(acks, 1, x) == 0 {
      assert (set k | k in acks && acks[k] >= x) == {};
    }
  }

  /** A second one commits the entry. */
  lemma SecondAck(n: Node, a: NodeId, b: NodeId, d: NodeId, e: NodeId)
    requires Distinct(n.id, a, b, d, e) && n.matchIndex == map[a := 0, b := 0, d := 1, e := 0]
    requires n.role == Leader && n.currentTerm == 2 && n.log == [F1] && n.commitIndex == 0
    ensures var n' := RecordAppendSuccess(n, e, AppendResponse(2, true, 1));
            n'.commitIndex == 1 && n'.role == Leader && n'.currentTerm == 2 && n'.log == n.log && n'.id == n.id
  {
    hide IsQuorumMatch;
    hide RecordAppendSuccess;
    var acks := n.matchIndex[e := 1];
    assert acks == map[a := 0, b := 0, d := 1, e := 1];
    TwoMatchOne(acks, a, b, d, e);
    CommitsQuorum(n, e, AppendResponse(2, true, 1), 1);
  }

  lemma StaysUncommitted(s: Cluster, t: Cluster, moved: set<NodeId>, i: NodeId)
    requires Kept(s, t, moved) && i !in moved && Uncommitted(s) && i in s.nodes
    ensures i in t.nodes && t.nodes[i].commitIndex == 0
  {
  }

  /** And c counts both answers and commits it. */
  lemma Commit(a: NodeId, b: NodeId, c: NodeId, d: NodeId, e: NodeId) returns (tr: Trace)
    requires Distinct(a, b, c, d, e)
    ensures Good(tr, -1, -1) && |tr.steps| == 19 && |tr.now.nodes| == 5
    ensures Leads(tr.now, c, 2, [F1]) && tr.now.nodes[c].commitIndex == 1
    ensures Has(tr.now, a, 1, [E1]) && tr.now.nodes[a].commitIndex == 0
  {
    assert c != a && a != d && Distinct(c, a, b, d, e);
    var ack := AppendResponse(2, true, 1);
    hide *;
    var one := Replication(a, b, c, d, e);
    LeaderFacts(one, -1, -1, c, 2, [F1]);
    FirstAck(one.now.nodes[c], a, b, d, e);
    var two := Counts(one, c, d, ack, 2, [F1], -1, -1);
    SnocLength(one.steps, ReceiveSuccess(AppendReply(d, c, ack)));
    StillLeads(one.now, two.now, {c}, c, 2, [F1]);
    SizeStays(one.now, two.now, {c});
    TwoStay(one.now, two.now, {c}, a, a, 1, 1, [E1], [E1]);
    LeaderFacts(two, -1, -1, c, 2, [F1]);
    SecondAck(two.now.nodes[c], a, b, d, e);
    tr := Counts(two, c, e, ack, 2, [F1], -1, -1);
    SnocLength(two.steps, ReceiveSuccess(AppendReply(e, c, ack)));
    StillLeads(two.now, tr.now, {c}, c, 2, [F1]);
    SizeStays(two.now, tr.now, {c});
    TwoStay(two.now, tr.now, {c}, a, a, 1, 1, [E1], [E1]);
    HasNode(two.now, a, 1, [E1]);
    StaysUncommitted(two.now, tr.now, {c}, a);
  }

  lemma HasNode(s: Cluster, i: NodeId, term: nat, log: Log)
    requires Has(s, i, term, log)
    ensures i in s.nodes && s.nodes[i].currentTerm == term && s.nodes[i].log == log
  {
  }

  /** A request without entries that announces a commit. */
  lemma TakesAnnouncement(f: Node, leader: NodeId)
    requires f.currentTerm == 1 && f.log == [E1] && f.commitIndex == 0
    ensures var f' := HandleAppend(f, AppendRequest(2, leader, 0, 0, [], 1)).0;
            f'.currentTerm == 2 && f'.log == [E1] && f'.commitIndex == 1
  {
    assert Merge([E1], []) == [E1];
  }

  lemma EmptySlice(n: Node, c: NodeId)
    requires n.id == c && n.currentTerm == 2 && n.log == [F1] && n.commitIndex == 1
    ensures ReplicateRequest(n, 0, 0) == AppendRequest(2, c, 0, 0, [], 1)
  {
  }

  /** Then c sends a a request without entries. */
  lemma SendsAnnouncement(tr: Trace, a: NodeId, c: NodeId) returns (longer: Trace)
    requires Good(tr, -1, -1) && a != c && Leads(tr.now, c, 2, [F1]) && tr.now.nodes[c].commitIndex == 1
    requires Has(tr.now, a, 1, [E1]) && tr.now.nodes[a].commitIndex == 0
    ensures Good(longer, -1, -1) && |longer.steps| == |tr.steps| + 1
    ensures Leads(longer.now, c, 2, [F1]) && longer.now.nodes[c].commitIndex == 1
    ensures Has(longer.now, a, 1, [E1]) && longer.now.nodes[a].commitIndex == 0
    ensures AppendAsk(c, a, AppendRequest(2, c, 0, 0, [], 1)) in longer.now.net
  {
    GoodHasConfig(tr, -1, -1);
    hide Good;
    hide Extends;
    hide ReplicateRequest;
    longer := OneMoves(tr, SendEntries(c, a, 0, 0), -1, -1);
    EmptySlice(tr.now.nodes[c], c);
    assert longer.now.nodes[a] == tr.now.nodes[a];
  }

  /** It tells a that entry 1 is committed, and a commits the entry it has there. */
  lemma Announces(tr: Trace, a: NodeId, c: NodeId) returns (longer: Trace)
    requires Good(tr, -1, -1) && a != c && Leads(tr.now, c, 2, [F1]) && tr.now.nodes[c].commitIndex == 1
    requires Has(tr.now, a, 1, [E1]) && tr.now.nodes[a].commitIndex == 0
    requires AppendAsk(c, a, AppendRequest(2, c, 0, 0, [], 1)) in tr.now.net
    ensures Good(longer, -1, -1) && |longer.steps| == |tr.steps| + 1
    ensures Leads(longer.now, c, 2, [F1]) && longer.now.nodes[c].commitIndex == 1
    ensures Has(longer.now, a, 2, [E1]) && longer.now.nodes[a].commitIndex == 1
  {
    hide Good;
    hide Extends;
    hide HandleAppend;
    TakesAnnouncement(tr.now.nodes[a], c);
    longer := OneMoves(tr, ReceiveAppend(AppendAsk(c, a, AppendRequest(2, c, 0, 0, [], 1))), -1, -1);
  }

  /** A leader and its follower commit different entries: a run of any five nodes within (G) and (T),
      in which c as leader of term 2 commits its entry 1 and then a, told so by c, commits another. */
  lemma AnnouncementBreaksSafety(a: NodeId, b: NodeId, c: NodeId, d: NodeId, e: NodeId) returns (tr: Trace)
    requires Distinct(a, b, c, d, e)
    ensures Good(tr, -1, -1) && |tr.steps| == 21
    ensures Leads(tr.now, c, 2, [F1]) && Has(tr.now, a, 2, [E1])
    ensures RaftCompleteness.Committed(tr.now.nodes[c]) == [F1] && RaftCompleteness.Committed(tr.now.nodes[a]) == [E1]
    ensures !([F1] <= [E1]) && !([E1] <= [F1])
  {
    assert a != c;
    hide Good;
    hide Distinct;
    var one := Commit(a, b, c, d, e);
    var two := SendsAnnouncement(one, a, c);
    tr := Announces(two, a, c);
    assert [F1][0].term == 2 && [E1][0].term == 1;
  }
}
