/** The change feed: an append-only log of numbered records and followers that poll it. */
module Replication {
  import opened Options
  import opened Bytes
  import WalFormat

  datatype Change = Change(sequence: nat, op: WalFormat.WalOp, id: string, payload: Data, timestamp: int)

  type Changes = seq<Change>

  /** "CRL1" and version 1. */
  const HEADER: Data := [67, 82, 76, 49, 1, 0]

  datatype FeedError = BadMagic | BadVersion | UnexpectedEof | Undecodable

  // ---------- Format ----------

  function Frame(c: Change, codec: Codec<Change>): Data {
    U32(|codec.encode(c)|) + codec.encode(c)
  }

  function EncodeChanges(cs: Changes, codec: Codec<Change>): Data {
    if cs == [] then [] else Frame(cs[0], codec) + EncodeChanges(cs[1..], codec)
  }

  function File(cs: Changes, codec: Codec<Change>): Data {
    HEADER + EncodeChanges(cs, codec)
  }

  ghost predicate Fit(cs: Changes, codec: Codec<Change>) {
    forall c | c in cs :: |codec.encode(c)| < U32_LIMIT
  }

  /** The reads of one record: less than four bytes are the end, a short body an error. */
  datatype FrameRead = NoFrame | CutFrame | Framed(body: Data, rest: Data)

  function ReadFrame(d: Data): (r: FrameRead)
    ensures r.Framed? ==> |r.rest| < |d|
  {
    if |d| < 4 then NoFrame
    else if |d[4..]| < Number(d[..4]) then CutFrame
    else Framed(d[4..][..Number(d[..4])], d[4..][Number(d[..4])..])
  }

  /** `ChangeIter` from a sequence number on, collected until its end or its first error. */
  function ChangesFrom(d: Data, start: nat, codec: Codec<Change>): (Changes, bool)
    decreases |d|
  {
    var f := ReadFrame(d);
    if f.NoFrame? then ([], true)
    else if f.CutFrame? || codec.decode(f.body).None? then ([], false)
    else
      var (rest, ok) := ChangesFrom(f.rest, start, codec);
      ((if codec.decode(f.body).value.sequence >= start then [codec.decode(f.body).value] else []) + rest, ok)
  }

  /** The largest sequence number in the log; records that do not decode are passed over. */
  function MaxSequence(d: Data, codec: Codec<Change>): Option<nat>
    decreases |d|
  {
    var f := ReadFrame(d);
    if f.NoFrame? then Some(0)
    else if f.CutFrame? then None
    else
      var rest := MaxSequence(f.rest, codec);
      if rest.None? then None
      else Some(Max(rest.value, if codec.decode(f.body).Some? then codec.decode(f.body).value.sequence else 0))
  }

  function Max(a: nat, b: nat): nat {
    if a >= b then a else b
  }

  // ---------- Reading what was written ----------

  lemma ReadFrameThere(c: Change, rest: Data, codec: Codec<Change>)
    requires |codec.encode(c)| < U32_LIMIT
    ensures ReadFrame(Frame(c, codec) + rest) == Framed(codec.encode(c), rest)
  {
    var body := codec.encode(c);
    U32RoundTrip(|body|);
    Associate(U32(|body|), body, rest);
    TakeDrop(U32(|body|), body + rest);
    TakeDrop(body, rest);
  }

  function Since(cs: Changes, start: nat): Changes {
    if cs == [] then []
    else (if cs[0].sequence >= start then [cs[0]] else []) + Since(cs[1..], start)
  }

  function Largest(cs: Changes): nat {
    if cs == [] then 0 else Max(Largest(cs[1..]), cs[0].sequence)
  }

  lemma {:induction false} ReadBack(cs: Changes, start: nat, codec: Codec<Change>)
    requires Fit(cs, codec) && Lawful(codec)
    ensures ChangesFrom(EncodeChanges(cs, codec), start, codec) == (Since(cs, start), true)
    ensures MaxSequence(EncodeChanges(cs, codec), codec) == Some(Largest(cs))
  {
    hide ReadFrame;
    hide Frame;
    if cs == [] {
      NothingToRead();
    } else {
      ReadFrameThere(cs[0], EncodeChanges(cs[1..], codec), codec);
      assert codec.decode(codec.encode(cs[0])) == Some(cs[0]);
      assert forall c | c in cs[1..] :: c in cs;
      ReadBack(cs[1..], start, codec);
    }
  }

  lemma NothingToRead()
    ensures ReadFrame([]) == NoFrame
  {
  }

  // ---------- Numbering ----------

  /** Records are numbered from `first` on without gaps. */
  ghost predicate NumberedFrom(cs: Changes, first: nat) {
    forall i | 0 <= i < |cs| :: cs[i].sequence == first + i
  }

  ghost predicate Numbered(cs: Changes) {
    NumberedFrom(cs, 1)
  }

  lemma {:induction false} SinceOfNumbered(cs: Changes, first: nat, start: nat)
    requires NumberedFrom(cs, first) && first <= start <= first + |cs|
    ensures Since(cs, start) == cs[start - first..]
  {
    if cs != [] {
      if start == first {
        assert NumberedFrom(cs[1..], first + 1);
        SinceAll(cs[1..], first + 1, start);
        assert cs == [cs[0]] + cs[1..];
      } else {
        SinceOfNumbered(cs[1..], first + 1, start);
      }
    }
  }

  lemma {:induction false} SinceAll(cs: Changes, first: nat, start: nat)
    requires NumberedFrom(cs, first) && start <= first
    ensures Since(cs, start) == cs
  {
    if cs != [] {
      SinceAll(cs[1..], first + 1, start);
    }
  }

  lemma {:induction false} LargestOfNumbered(cs: Changes, first: nat)
    requires NumberedFrom(cs, first)
    ensures cs != [] ==> Largest(cs) == first + |cs| - 1
  {
    if |cs| > 1 {
      LargestOfNumbered(cs[1..], first + 1);
    }
  }

  // ---------- The log and the follower ----------

  class ReplicationLog {
    const codec: Codec<Change>
    var file: Data
    var nextSequence: nat
    ghost var changes: Changes

    ghost predicate Valid()
      reads this
    {
      && Lawful(codec) && Fit(changes, codec) && Numbered(changes)
      && file == File(changes, codec) && nextSequence == |changes| + 1
    }

    constructor (file: Data, nextSequence: nat, codec: Codec<Change>, ghost changes: Changes)
      ensures this.file == file && this.nextSequence == nextSequence && this.codec == codec && this.changes == changes
    {
      this.file, this.nextSequence, this.codec, this.changes := file, nextSequence, codec, changes;
    }

    /** `ReplicationLog::open` on a file with the given contents: the next sequence number is
        found by reading the whole log. */
    static method Open(contents: Data, codec: Codec<Change>, ghost held: Changes)
      returns (r: Result<ReplicationLog, FeedError>)
      ensures contents == [] && Lawful(codec) ==> r.Ok? && r.value.Valid() && r.value.changes == []
      ensures contents == File(held, codec) && Lawful(codec) && Fit(held, codec) && Numbered(held) ==>
        r.Ok? && r.value.Valid() && r.value.changes == held
      ensures r.Ok? <==> contents == [] || (HEADER <= contents && MaxSequence(contents[6..], codec).Some?)
      ensures r.Err? ==> r.error != Undecodable
      ensures r == Err(BadMagic) <==> |contents| >= 4 && contents[..4] != HEADER[..4]
      ensures r == Err(BadVersion) <==> |contents| >= 6 && contents[..4] == HEADER[..4] && contents[4..6] != HEADER[4..]
      ensures r.Ok? && contents != [] ==> r.value.nextSequence == MaxSequence(contents[6..], codec).value + 1
      ensures r.Ok? ==> fresh(r.value) && r.value.codec == codec && |r.value.file| >= 6
                        && r.value.file == if contents == [] then HEADER else contents
    {
      hide MaxSequence;
      hide ChangesFrom;
      hide ReadFrame;
      hide Frame;
      if contents == [] {
        var log := new ReplicationLog(HEADER, 1, codec, []);
        assert File([], codec) == HEADER;
        return Ok(log);
      }
      TakeDrop(HEADER, EncodeChanges(held, codec));
      if Lawful(codec) && Fit(held, codec) {
        ReadBack(held, 0, codec);
        LargestOfNumberedLog(held);
      }
      if |contents| < 4 {
        return Err(UnexpectedEof);
      }
      if contents[..4] != HEADER[..4] {
        return Err(BadMagic);
      }
      if |contents| < 6 {
        return Err(UnexpectedEof);
      }
      if contents[4..6] != HEADER[4..] {
        return Err(BadVersion);
      }
      assert contents[..6] == contents[..4] + contents[4..6] && HEADER == HEADER[..4] + HEADER[4..];
      var max := MaxSequence(contents[6..], codec);
      if max.None? {
        return Err(UnexpectedEof);
      }
      var log := new ReplicationLog(contents, max.value + 1, codec, held);
      return Ok(log);
    }

    /** Appends a record under the next sequence number, behind whatever the file holds. A
        well-formed log stays one when the record's length fits its length field. */
    method Append(op: WalFormat.WalOp, id: string, payload: Data, timestamp: int) returns (sequence: nat)
      modifies this
      ensures sequence == old(nextSequence) && nextSequence == sequence + 1
      ensures file == old(file) + Frame(Change(sequence, op, id, payload, timestamp), codec)
      ensures changes == old(changes) + [Change(sequence, op, id, payload, timestamp)]
      ensures old(Valid()) && |codec.encode(Change(sequence, op, id, payload, timestamp))| < U32_LIMIT ==> Valid()
    {
      sequence := nextSequence;
      var record := Change(sequence, op, id, payload, timestamp);
      var bytes := codec.encode(record);
      AppendEncoded(changes, record, codec);
      file := file + U32(|bytes|);
      file := file + bytes;
      Associate(old(file), U32(|bytes|), bytes);
      nextSequence := nextSequence + 1;
      changes := changes + [record];
    }

    /** `reset`: truncates the log to its header. */
    method Reset()
      requires Valid()
      modifies this
      ensures Valid() && changes == []
    {
      file := file[..6];
      assert file == File([], codec);
      nextSequence := 1;
      changes := [];
    }
  }

  lemma LargestOfNumberedLog(cs: Changes)
    ensures Numbered(cs) ==> Largest(cs) == |cs|
  {
    if Numbered(cs) {
      LargestOfNumbered(cs, 1);
    }
  }

  /** A follower that has seen the first `last` records of a log reads the others. */
  lemma NewRecords(log: Changes, last: nat, codec: Codec<Change>)
    requires Lawful(codec) && Fit(log, codec) && Numbered(log) && last <= |log|
    ensures ChangesFrom(File(log, codec)[|HEADER|..], last + 1, codec) == (log[last..], true)
  {
    hide ChangesFrom;
    TakeDrop(HEADER, EncodeChanges(log, codec));
    ReadBack(log, last + 1, codec);
    SinceOfNumbered(log, 1, last + 1);
  }

  lemma AppendEncoded(cs: Changes, c: Change, codec: Codec<Change>)
    ensures File(cs, codec) + Frame(c, codec) == File(cs + [c], codec)
  {
    hide Frame;
    EncodeJoin(cs, [c], codec);
    assert [c][1..] == [] && EncodeChanges([], codec) == [];
    assert EncodeChanges([c], codec) == Frame(c, codec) + [] == Frame(c, codec);
    Associate(HEADER, EncodeChanges(cs, codec), Frame(c, codec));
  }

  lemma {:induction false} EncodeJoin(a: Changes, b: Changes, codec: Codec<Change>)
    ensures EncodeChanges(a + b, codec) == EncodeChanges(a, codec) + EncodeChanges(b, codec)
  {
    hide Frame;
    if a == [] {
      assert a + b == b;
    } else {
      EncodeJoin(a[1..], b, codec);
      assert (a + b)[1..] == a[1..] + b && (a + b)[0] == a[0];
      Associate(Frame(a[0], codec), EncodeChanges(a[1..], codec), EncodeChanges(b, codec));
    }
  }

  class Follower {
    const codec: Codec<Change>
    var lastSequence: nat
    /** Everything polled so far. */
    ghost var polled: Changes

    constructor (codec: Codec<Change>)
      ensures lastSequence == 0 && polled == [] && this.codec == codec
    {
      this.codec, lastSequence, polled := codec, 0, [];
    }

    /** What has been polled is the first `lastSequence` records of a log. */
    ghost predicate Behind(changes: Changes)
      reads this
    {
      lastSequence <= |changes| && polled == changes[..lastSequence]
    }

    /** `Follower::poll`: opens the log and reads the records after the last one seen. A record
        that does not decode loses the ones read before it: they are not returned, but
        `lastSequence` has moved past them. */
    method Poll(contents: Data, ghost changes: Changes) returns (r: Result<Changes, FeedError>)
      modifies this
      ensures && Lawful(codec) && Fit(changes, codec) && Numbered(changes) && contents == File(changes, codec)
              && old(Behind(changes)) ==>
                && r == Ok(changes[old(lastSequence)..])
                && Behind(changes) && lastSequence == |changes| && polled == changes
      ensures polled == old(polled) + if r.Ok? then r.value else []
      ensures |contents| >= 6 && (r.Ok? || r.error == Undecodable) ==>
                var (records, ok) := ChangesFrom(contents[6..], old(lastSequence) + 1, codec);
                && r == (if ok then Ok(records) else Err(Undecodable))
                && lastSequence == LastOf(records, old(lastSequence))
    {
      hide ChangesFrom;
      hide MaxSequence;
      hide EncodeChanges;
      ghost var good := && Lawful(codec) && Fit(changes, codec) && Numbered(changes)
                        && contents == File(changes, codec) && Behind(changes);
      ghost var seen := lastSequence;
      if good {
        NewRecords(changes, lastSequence, codec);
        assert changes[..seen] + changes[seen..] == changes == changes[..|changes|];
      }
      var log := ReplicationLog.Open(contents, codec, changes);
      if log.Err? {
        return Err(log.error);
      }
      var (records, ok) := ChangesFrom(log.value.file[6..], lastSequence + 1, codec);
      for i := 0 to |records|
        invariant lastSequence == LastOf(records[..i], seen) && polled == old(polled)
      {
        lastSequence := records[i].sequence;
      }
      assert records[..|records|] == records;
      if !ok {
        return Err(Undecodable);
      }
      polled := polled + records;
      return Ok(records);
    }
  }

  // ---------- Over runs ----------

  /** A writer, its log file, and a follower that has polled some of it. */
  datatype Feed = Feed(file: Data, next: nat, last: nat, polled: Changes)

  datatype FeedStep = Write(op: WalFormat.WalOp, id: string, payload: Data, timestamp: int) | ReopenWriter | PollLog

  const START := Feed(HEADER, 1, 0, [])

  function LastOf(cs: Changes, otherwise: nat): nat {
    if cs == [] then otherwise else cs[|cs| - 1].sequence
  }

  function FeedNext(s: Feed, step: FeedStep, codec: Codec<Change>): Feed
    requires |s.file| >= 6
  {
    match step
    case Write(op, id, payload, time) =>
      s.(file := s.file + Frame(Change(s.next, op, id, payload, time), codec), next := s.next + 1)
    case ReopenWriter =>
      var max := MaxSequence(s.file[6..], codec);
      if max.Some? then s.(next := max.value + 1) else s
    case PollLog =>
      var records := ChangesFrom(s.file[6..], s.last + 1, codec).0;
      s.(last := LastOf(records, s.last), polled := s.polled + records)
  }

  function FeedRun(steps: seq<FeedStep>, codec: Codec<Change>): (s: Feed)
    ensures |s.file| >= 6
  {
    if steps == [] then START else FeedNext(FeedRun(steps[..|steps| - 1], codec), steps[|steps| - 1], codec)
  }

  /** The records a run writes, numbered in order. */
  function Written(steps: seq<FeedStep>): Changes {
    if steps == [] then []
    else
      var before := Written(steps[..|steps| - 1]);
      match steps[|steps| - 1]
      case Write(op, id, payload, time) => before + [Change(|before| + 1, op, id, payload, time)]
      case _ => before
  }

  /** The follower is at `last`, has polled that many records, and the writer is at the end. */
  ghost predicate FeedInv(s: Feed, log: Changes, codec: Codec<Change>) {
    && Numbered(log) && s.file == File(log, codec) && s.next == |log| + 1
    && s.last <= |log| && s.polled == log[..s.last]
  }

  lemma WriteKeeps(s: Feed, log: Changes, step: FeedStep, codec: Codec<Change>)
    requires FeedInv(s, log, codec) && step.Write?
    ensures var c := Change(|log| + 1, step.op, step.id, step.payload, step.timestamp);
            FeedInv(FeedNext(s, step, codec), log + [c], codec)
  {
    hide Frame;
    hide EncodeChanges;
    var c := Change(|log| + 1, step.op, step.id, step.payload, step.timestamp);
    AppendEncoded(log, c, codec);
    assert (log + [c])[..s.last] == log[..s.last];
  }

  lemma ReopenKeeps(s: Feed, log: Changes, codec: Codec<Change>)
    requires Lawful(codec) && Fit(log, codec) && FeedInv(s, log, codec)
    ensures FeedNext(s, ReopenWriter, codec) == s
  {
    hide MaxSequence;
    hide ChangesFrom;
    hide EncodeChanges;
    TakeDrop(HEADER, EncodeChanges(log, codec));
    ReadBack(log, 0, codec);
    LargestOfNumberedLog(log);
  }

  lemma PollCatchesUp(s: Feed, log: Changes, codec: Codec<Change>)
    requires Lawful(codec) && Fit(log, codec) && FeedInv(s, log, codec)
    ensures FeedNext(s, PollLog, codec) == s.(last := |log|, polled := log)
  {
    hide MaxSequence;
    hide ChangesFrom;
    hide EncodeChanges;
    NewRecords(log, s.last, codec);
    assert log[..s.last] + log[s.last..] == log;
  }

  /** Exactly once, in order: whatever the run of writes, reopens and polls, what the follower has
      polled is a prefix of the log, whose records are numbered 1 to n; a poll catches up. */
  lemma {:induction false} PolledIsPrefix(steps: seq<FeedStep>, codec: Codec<Change>)
    requires Lawful(codec) && Fit(Written(steps), codec)
    ensures var s, log := FeedRun(steps, codec), Written(steps);
      && Numbered(log) && s.file == File(log, codec) && s.next == |log| + 1
      && s.last <= |log| && s.polled == log[..s.last]
      && (steps != [] && steps[|steps| - 1].PollLog? ==> s.polled == log)
  {
    hide FeedNext;
    if steps == [] {
      assert File([], codec) == HEADER;
    } else {
      var init, step := steps[..|steps| - 1], steps[|steps| - 1];
      var s, log := FeedRun(init, codec), Written(init);
      assert forall c | c in log :: c in Written(steps);
      PolledIsPrefix(init, codec);
      assert FeedInv(s, log, codec);
      match step {
        case Write(op, id, payload, time) =>
          WriteKeeps(s, log, step, codec);
        case ReopenWriter =>
          ReopenKeeps(s, log, codec);
        case PollLog =>
          PollCatchesUp(s, log, codec);
      }
    }
  }
}
