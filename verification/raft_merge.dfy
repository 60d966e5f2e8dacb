/** What the merge loop of `handle_append_entries` does to a log, how its answer relates to
    the log, and where the handler departs from the rules of Raft's figure 2. */
module RaftMerge {
  import opened Options
  import opened RaftNodeSpec

  /** How many of the entries the log already holds after position `prev`, going by terms. */
  function Held(log: Log, prev: nat, entries: Log): (k: nat)
    ensures k <= |entries|
    decreases |entries|
  {
    if entries == [] || prev >= |log| || log[prev].term != entries[0].term then 0
    else 1 + Held(log, prev + 1, entries[1..])
  }

  /** Raft's receiver rules 3 and 4: delete from the first conflict on, append what is missing. */
  function PaperMerge(log: Log, prev: nat, entries: Log): Log
    requires prev <= |log|
  {
    var k := Held(log, prev, entries);
    if k == |entries| || prev + k > |log| then log else log[..prev + k] + entries[k..]
  }

  lemma {:induction false} HeldFits(log: Log, prev: nat, entries: Log)
    requires prev <= |log|
    ensures prev + Held(log, prev, entries) <= |log|
    decreases |entries|
  {
    if !(entries == [] || prev >= |log| || log[prev].term != entries[0].term) {
      HeldFits(log, prev + 1, entries[1..]);
    }
  }

  lemma {:induction false} AppendsAll(log: Log, prev: nat, entries: Log)
    requires Consecutive(entries, prev) && prev >= |log|
    ensures Merge(log, entries) == log + entries
    decreases |entries|
  {
    if entries == [] {
      assert log + entries == log;
    } else {
      AppendsAll(log + [entries[0]], prev + 1, entries[1..]);
      assert log + [entries[0]] + entries[1..] == log + entries;
    }
  }

  lemma PaperMergeStep(log: Log, prev: nat, entries: Log)
    requires entries != [] && prev < |log| && log[prev].term == entries[0].term
    ensures PaperMerge(log, prev, entries) == PaperMerge(log, prev + 1, entries[1..])
  {
    var k := Held(log, prev + 1, entries[1..]);
    assert entries[1..][k..] == entries[k + 1..];
  }

  /** Delivered without a gap, entries are merged exactly as Raft's receiver rules say. */
  lemma {:induction false} MergeFollowsPaper(log: Log, prev: nat, entries: Log)
    requires Consecutive(entries, prev) && prev <= |log|
    ensures Merge(log, entries) == PaperMerge(log, prev, entries)
    decreases |entries|
  {
    if entries == [] {
    } else if prev == |log| {
      AppendsAll(log, prev, entries);
      assert log[..prev] == log;
      assert entries[0..] == entries;
    } else if log[prev].term == entries[0].term {
      MergeFollowsPaper(log, prev + 1, entries[1..]);
      HeldFits(log, prev + 1, entries[1..]);
      PaperMergeStep(log, prev, entries);
    } else {
      var cut := log[..prev] + [entries[0]];
      AppendsAll(cut, prev + 1, entries[1..]);
      assert cut + entries[1..] == log[..prev] + entries;
      assert entries[0..] == entries;
    }
  }

  lemma {:induction false} HeldAll(log: Log, prev: nat, entries: Log)
    requires prev <= |log|
    ensures Held(log, prev, entries) == |entries| <==>
            prev + |entries| <= |log| && forall i | 0 <= i < |entries| :: log[prev + i].term == entries[i].term
    decreases |entries|
  {
    if entries != [] && prev < |log| && log[prev].term == entries[0].term {
      HeldAll(log, prev + 1, entries[1..]);
      assert forall i | 1 <= i < |entries| && prev + |entries| <= |log| ::
          log[prev + i].term == log[prev + 1 + (i - 1)].term && entries[i] == entries[1..][i - 1];
    }
  }

  /** Merging a slice of another log that agrees up to `prev`, when equal terms at a position
      mean equal entries, leaves either the same log or exactly the other log's prefix. */
  lemma MergeSlice(log: Log, other: Log, prev: nat, entries: Log)
    requires Consecutive(entries, prev)
    requires prev <= |log| && prev + |entries| <= |other|
    requires entries == other[prev..prev + |entries|] && log[..prev] == other[..prev]
    requires forall i | 0 <= i < |log| && i < |other| && log[i].term == other[i].term :: log[i] == other[i]
    ensures Merge(log, entries)
         == if other[..prev + |entries|] <= log then log else other[..prev + |entries|]
  {
    hide Merge;
    hide Held;
    var end := prev + |entries|;
    MergeFollowsPaper(log, prev, entries);
    HeldAll(log, prev, entries);
    HeldAgree(log, other, prev, entries);
    SplitSlice(other, prev, end, Held(log, prev, entries));
    if other[..end] <= log {
      forall i | 0 <= i < |entries| ensures log[prev + i].term == entries[i].term {
        assert log[prev + i] == other[..end][prev + i];
      }
    }
  }

  lemma SplitSlice(log: Log, lo: nat, hi: nat, k: nat)
    requires lo + k <= hi <= |log|
    ensures log[..lo + k] + log[lo..hi][k..] == log[..hi]
  {
  }

  lemma {:induction false} HeldAgree(log: Log, other: Log, prev: nat, entries: Log)
    requires prev <= |log| && prev + |entries| <= |other|
    requires entries == other[prev..prev + |entries|] && log[..prev] == other[..prev]
    requires forall i | 0 <= i < |log| && i < |other| && log[i].term == other[i].term :: log[i] == other[i]
    ensures prev + Held(log, prev, entries) <= |log|
    ensures log[..prev + Held(log, prev, entries)] == other[..prev + Held(log, prev, entries)]
    decreases |entries|
  {
    if !(entries == [] || prev >= |log| || log[prev].term != entries[0].term) {
      assert entries[0] == other[prev] && log[prev] == other[prev];
      assert log[..prev + 1] == log[..prev] + [log[prev]];
      assert other[..prev + 1] == other[..prev] + [other[prev]];
      assert entries[1..] == other[prev + 1..prev + 1 + |entries[1..]|];
      HeldAgree(log, other, prev + 1, entries[1..]);
    }
  }

  // ---------- Heartbeats ----------

  /** A heartbeat probes the follower's log at its previous index. Unless it is stale, it is
      accepted exactly when the logs have the same term there or the follower has no entry there;
      it is then acknowledged up to that index, and it never changes the log. */
  lemma HeartbeatProbes(n: Node, peer: NodeId, f: Node)
    ensures var prev, (f', ack) := HeartbeatFor(n, peer).prevLogIndex, HandleAppend(f, HeartbeatFor(n, peer));
      && (ack.success <==> f.currentTerm <= n.currentTerm
                           && (prev > |f.log| || TermAt(f.log, prev) == TermAt(n.log, prev)))
      && ack.matchIndex == (if ack.success then prev else 0)
      && f'.log == f.log && ack.term == f'.currentTerm
      && (if f.currentTerm > n.currentTerm then f' == f
          else f'.currentTerm == n.currentTerm && f'.leaderId == Some(n.id) && f'.role == Follower)
  {
    assert Merge(f.log, []) == f.log;
  }

  // ---------- Where the handler departs from Raft ----------

  /** The missing-entry case: an accepted request leaves positions and indices in step exactly
      when it carries nothing or its previous index is within the follower's log. */
  lemma AcceptedIndexedIffNoGap(n: Node, req: AppendRequest)
    requires Indexed(n.log) && Consecutive(req.entries, req.prevLogIndex)
    requires HandleAppend(n, req).1.success
    ensures Indexed(HandleAppend(n, req).0.log) <==> req.entries == [] || req.prevLogIndex <= |n.log|
  {
    var log: Log, prev: nat, entries: Log := n.log, req.prevLogIndex, req.entries;
    if prev > |log| {
      AppendsAll(log, prev, entries);
      if entries != [] {
        assert (log + entries)[|log|].index == prev + 1;
      }
    } else {
      MergeFollowsPaper(log, prev, entries);
      HeldFits(log, prev, entries);
    }
  }

  /** An accepted request, an empty one included, is acknowledged with no more entries than the
      follower then has exactly when its previous index is within the follower's log. */
  lemma AcknowledgesHeldIffNoGap(n: Node, req: AppendRequest)
    requires Consecutive(req.entries, req.prevLogIndex) && HandleAppend(n, req).1.success
    ensures HandleAppend(n, req).1.matchIndex <= |HandleAppend(n, req).0.log| <==> req.prevLogIndex <= |n.log|
  {
    if req.prevLogIndex > |n.log| {
      AppendsAll(n.log, req.prevLogIndex, req.entries);
    } else {
      MergeFollowsPaper(n.log, req.prevLogIndex, req.entries);
      HeldFits(n.log, req.prevLogIndex, req.entries);
      HeldAll(n.log, req.prevLogIndex, req.entries);
    }
  }

  /** A concrete delivery with a gap: entry 2 lands at position 1 of an empty log. */
  lemma GapMisplacesEntry(e: LogEntry, n: Node)
    requires e.index == 2 && n.log == [] && n.currentTerm == 0
    ensures HandleAppend(n, AppendRequest(1, "a", 1, 1, [e], 0)).1.success
    ensures HandleAppend(n, AppendRequest(1, "a", 1, 1, [e], 0)).0.log == [e]
    ensures !Indexed(HandleAppend(n, AppendRequest(1, "a", 1, 1, [e], 0)).0.log)
  {
    AppendsAll([], 1, [e]);
    assert [e][0].index == 2;
  }

  /** The index of the last new entry. */
  function LastNew(req: AppendRequest): nat {
    req.prevLogIndex + |req.entries|
  }

  /** Some entry of the request meets another one at its position. */
  predicate Conflicts(log: Log, prev: nat, entries: Log) {
    exists i | 0 <= i < |entries| && prev + i < |log| :: log[prev + i].term != entries[i].term
  }

  /** Raft caps a follower's commit index by the last new entry, the handler by the last entry.
      The two agree exactly when the leader's commit index lies within the request, or the log
      does, or a conflict cuts it off there. */
  lemma FollowerCommitIsPapersIff(n: Node, req: AppendRequest)
    requires HandleAppend(n, req).1.success && req.leaderCommit > n.commitIndex
    requires req.prevLogIndex <= |n.log| && Consecutive(req.entries, req.prevLogIndex)
    ensures HandleAppend(n, req).0.commitIndex == Min(req.leaderCommit, LastNew(req))
       <==> || req.leaderCommit <= LastNew(req) || |n.log| <= LastNew(req)
            || Conflicts(n.log, req.prevLogIndex, req.entries)
  {
    hide Merge;
    MergeFollowsPaper(n.log, req.prevLogIndex, req.entries);
    HeldFits(n.log, req.prevLogIndex, req.entries);
    HeldAll(n.log, req.prevLogIndex, req.entries);
  }

  /** A heartbeat about entry 1 makes a follower commit an entry 2 that it does not cover. */
  lemma FollowerCommitsUnconfirmed(n: Node, e: LogEntry, f: LogEntry)
    requires e.index == 1 && e.term == 1 && f.index == 2 && f.term == 1
    requires n.log == [e, f] && n.currentTerm == 2 && n.commitIndex == 0
    ensures var req := AppendRequest(2, "a", 1, 1, [], 2);
            && HandleAppend(n, req).1 == AppendResponse(2, true, 1)
            && HandleAppend(n, req).0.commitIndex == 2
  {
  }
}
