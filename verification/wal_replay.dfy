/** Transaction replay: which entries of a log reach the callback of `Wal::replay`. */
module WalReplay {
  import opened Options
  import opened Bytes
  import opened WalFormat
  import opened Json

  datatype WalEntry =
    | Begin(txId: nat)
    | Insert(txId: nat, collection: string, doc: Value)
    | Update(txId: nat, collection: string, id: string, doc: Value)
    | Delete(txId: nat, collection: string, id: string)
    | Commit(txId: nat)
    | Abort(txId: nat)

  type Entries = seq<WalEntry>

  predicate Control(e: WalEntry) {
    e.Begin? || e.Commit? || e.Abort?
  }

  // ---------- The loop's state ----------

  datatype Replay = Replay(current: Option<nat>, pending: Entries, delivered: Entries)

  function Step(r: Replay, e: WalEntry): Replay {
    match e
    case Begin(t) => Replay(Some(t), [], r.delivered)
    case Commit(t) => Replay(None, [], if r.current == Some(t) then r.delivered + r.pending else r.delivered)
    case Abort(_) => Replay(None, [], r.delivered)
    case _ =>
      if r.current.Some? then r.(pending := r.pending + [e]) else r.(delivered := r.delivered + [e])
  }

  function Run(log: Entries): Replay {
    if log == [] then Replay(None, [], []) else Step(Run(log[..|log| - 1]), log[|log| - 1])
  }

  // ---------- What should be delivered ----------

  /** The last control entry before position i. */
  function LastControl(log: Entries, i: nat): Option<WalEntry>
    requires i <= |log|
  {
    if i == 0 then None else if Control(log[i - 1]) then Some(log[i - 1]) else LastControl(log, i - 1)
  }

  /** The first control entry at position i or after it. */
  function NextControl(log: Entries, i: nat): Option<WalEntry>
    requires i <= |log|
    decreases |log| - i
  {
    if i == |log| then None else if Control(log[i]) then Some(log[i]) else NextControl(log, i + 1)
  }

  /** A data entry counts if no transaction is open before it, or if one is and the next
      control entry commits that very transaction. */
  predicate Effective(log: Entries, i: nat)
    requires i < |log|
  {
    !Control(log[i]) && Counts(LastControl(log, i), NextControl(log, i + 1))
  }

  predicate Counts(last: Option<WalEntry>, next: Option<WalEntry>) {
    last.Some? && last.value.Begin? ==> next == Some(Commit(last.value.txId))
  }

  /** The effective entries before position n, in log order. */
  function Selected(log: Entries, n: nat): Entries
    requires n <= |log|
  {
    if n == 0 then [] else Selected(log, n - 1) + (if Effective(log, n - 1) then [log[n - 1]] else [])
  }

  // ---------- The two agree ----------

  /** Length of the part of the log up to and including its last control entry. */
  function Settled(log: Entries): (k: nat)
    ensures k <= |log|
    ensures k > 0 ==> Control(log[k - 1])
    ensures forall i | k <= i < |log| :: !Control(log[i])
  {
    if log == [] then 0 else if Control(log[|log| - 1]) then |log| else Settled(log[..|log| - 1])
  }

  lemma {:induction false} LastControlOfTail(log: Entries, i: nat)
    requires Settled(log) <= i <= |log|
    ensures LastControl(log, i) == if Settled(log) == 0 then None else Some(log[Settled(log) - 1])
    decreases i
  {
    if i > Settled(log) {
      LastControlOfTail(log, i - 1);
    }
  }

  lemma {:induction false} LastControlOfPrefix(log: Entries, n: nat, i: nat)
    requires i <= n <= |log|
    ensures LastControl(log[..n], i) == LastControl(log, i)
    decreases i
  {
    if i > 0 && !Control(log[i - 1]) {
      LastControlOfPrefix(log, n, i - 1);
    }
  }

  /** A later entry does not change the next control entry of a settled position, and is the
      next one of a later position if it is a control entry. */
  lemma {:induction false} NextControlOfPrefix(log: Entries, e: WalEntry, i: nat)
    requires i <= |log|
    ensures NextControl(log + [e], i)
         == if NextControl(log, i).Some? then NextControl(log, i) else if Control(e) then Some(e) else None
    decreases |log| - i
  {
    if i < |log| && !Control(log[i]) {
      NextControlOfPrefix(log, e, i + 1);
    }
  }

  lemma {:induction false} NextControlSettled(log: Entries, i: nat)
    requires i <= |log|
    ensures NextControl(log, i).Some? <==> i < Settled(log)
    decreases |log| - i
  {
    if i < |log| && !Control(log[i]) {
      NextControlSettled(log, i + 1);
    }
  }

  /** A data entry between these control entries. */
  lemma EffectiveOfAppended(log: Entries, e: WalEntry, i: nat)
    requires i < |log|
    ensures Effective(log + [e], i)
       <==> !Control(log[i]) && Counts(LastControl(log, i), Following(NextControl(log, i + 1), e))
  {
    hide LastControl;
    hide NextControl;
    hide Counts;
    LastControlOfAppended(log, e, i);
    NextControlOfPrefix(log, e, i + 1);
    assert (log + [e])[i] == log[i];
  }

  function Following(next: Option<WalEntry>, e: WalEntry): Option<WalEntry> {
    if next.Some? then next else if Control(e) then Some(e) else None
  }

  lemma EffectiveStays(log: Entries, e: WalEntry, i: nat)
    requires i < |log| && (i < Settled(log) || !Control(e))
    ensures Effective(log + [e], i) <==> Effective(log, i)
  {
    EffectiveOfAppended(log, e, i);
    NextControlSettled(log, i + 1);
    hide Settled;
    hide LastControl;
    hide NextControl;
    hide Counts;
    hide Control;
    assert i + 1 == Settled(log) ==> Control(log[i]);
  }

  lemma EffectiveReleased(log: Entries, e: WalEntry, i: nat)
    requires Settled(log) <= i < |log| && Control(e)
    ensures Effective(log + [e], i) <==> Releases(log, e)
  {
    hide *;
    EffectiveOfAppended(log, e, i);
    ReleasedNow(log, e, i);
  }

  lemma ReleasedNow(log: Entries, e: WalEntry, i: nat)
    requires Settled(log) <= i < |log| && Control(e)
    ensures !Control(log[i])
    ensures Counts(LastControl(log, i), Following(NextControl(log, i + 1), e)) <==> Releases(log, e)
  {
    hide Settled;
    hide LastControl;
    hide NextControl;
    NextControlSettled(log, i + 1);
    LastControlOfTail(log, i);
    assert Following(NextControl(log, i + 1), e) == Some(e);
  }

  lemma EffectiveOfPrefix(log: Entries, e: WalEntry, i: nat)
    requires i < |log|
    ensures i < Settled(log) || !Control(e) ==> (Effective(log + [e], i) <==> Effective(log, i))
    ensures i >= Settled(log) && Control(e) ==> (Effective(log + [e], i) <==> Releases(log, e))
  {
    hide *;
    if i < Settled(log) || !Control(e) {
      EffectiveStays(log, e, i);
    } else {
      EffectiveReleased(log, e, i);
    }
  }

  lemma LastControlOfAppended(log: Entries, e: WalEntry, i: nat)
    requires i <= |log|
    ensures LastControl(log + [e], i) == LastControl(log, i)
  {
    LastControlOfPrefix(log + [e], |log|, i);
    assert (log + [e])[..|log|] == log;
  }

  /** Data entries after the last control entry that no open transaction holds back. */
  predicate Open(log: Entries) {
    Settled(log) > 0 && log[Settled(log) - 1].Begin?
  }

  lemma {:induction false} SelectedSame(log: Entries, e: WalEntry, n: nat)
    requires n <= |log|
    requires forall i | 0 <= i < n :: Effective(log + [e], i) <==> Effective(log, i)
    ensures Selected(log + [e], n) == Selected(log, n)
  {
    if n > 0 {
      SelectedSame(log, e, n - 1);
    }
  }

  /** A stretch of effective entries is selected whole, a stretch of others not at all. */
  lemma {:induction false} SelectedStretch(log: Entries, from: nat, n: nat, all: bool)
    requires from <= n <= |log|
    requires forall i | from <= i < n :: Effective(log, i) <==> all
    ensures Selected(log, n) == Selected(log, from) + if all then log[from..n] else []
  {
    if n > from {
      SelectedStretch(log, from, n - 1, all);
      if all {
        assert log[from..n] == log[from..n - 1] + [log[n - 1]];
      }
    }
  }

  /** What the loop holds after a log: the open transaction, its data entries so far, and
      the effective entries. */
  ghost predicate Holds(log: Entries, r: Replay) {
    && r.delivered == Selected(log, |log|)
    && r.current == (if Open(log) then Some(log[Settled(log) - 1].txId) else None)
    && r.pending == if Open(log) then log[Settled(log)..] else []
  }

  /** Without a control entry after it, a data entry counts unless a transaction is open. */
  lemma EffectiveInTail(log: Entries, i: nat)
    requires Settled(log) <= i < |log|
    ensures Effective(log, i) <==> !Open(log)
  {
    LastControlOfTail(log, i);
    NextControlSettled(log, i + 1);
  }

  lemma SelectedSettled(log: Entries)
    ensures Selected(log, |log|) == Selected(log, Settled(log)) + if Open(log) then [] else log[Settled(log)..]
  {
    hide *;
    var k := Settled(log);
    forall i | k <= i < |log| ensures Effective(log, i) <==> !Open(log) {
      EffectiveInTail(log, i);
    }
    SelectedStretch(log, k, |log|, !Open(log));
    assert log[k..|log|] == log[k..];
  }

  predicate Releases(log: Entries, e: WalEntry) {
    !Open(log) || e == Commit(log[Settled(log) - 1].txId)
  }

  /** A control entry decides the data entries after the last one. */
  lemma SelectedAfterControl(log: Entries, e: WalEntry)
    requires Control(e)
    ensures Selected(log + [e], |log|) == Selected(log, Settled(log)) + if Releases(log, e) then log[Settled(log)..] else []
  {
    var log', k := log + [e], Settled(log);
    forall i | 0 <= i < k ensures Effective(log', i) <==> Effective(log, i) {
      EffectiveOfPrefix(log, e, i);
    }
    SelectedSame(log, e, k);
    forall i | k <= i < |log| ensures Effective(log', i) <==> Releases(log, e) {
      EffectiveOfPrefix(log, e, i);
    }
    SelectedStretch(log', k, |log|, Releases(log, e));
    assert log'[k..|log|] == log[k..];
  }

  lemma AppendedData(log: Entries, e: WalEntry)
    requires !Control(e)
    ensures Settled(log + [e]) == Settled(log)
    ensures Open(log + [e]) == Open(log) && (log + [e])[Settled(log)..] == log[Settled(log)..] + [e]
  {
    assert (log + [e])[..|log|] == log;
  }

  lemma SelectedData(log: Entries, e: WalEntry)
    requires !Control(e)
    ensures Selected(log + [e], |log| + 1) == Selected(log, |log|) + if Open(log) then [] else [e]
  {
    forall i | 0 <= i < |log| ensures Effective(log + [e], i) <==> Effective(log, i) {
      EffectiveOfPrefix(log, e, i);
    }
    SelectedSame(log, e, |log|);
    AppendedData(log, e);
    EffectiveInTail(log + [e], |log|);
  }

  lemma StepData(log: Entries, e: WalEntry, r: Replay)
    requires Holds(log, r) && !Control(e)
    ensures Holds(log + [e], Step(r, e))
  {
    AppendedData(log, e);
    SelectedData(log, e);
    assert Selected(log, |log|) + [] == Selected(log, |log|);
  }

  lemma AppendedControl(log: Entries, e: WalEntry)
    requires Control(e)
    ensures Settled(log + [e]) == |log| + 1 && (log + [e])[|log| + 1..] == []
    ensures Selected(log + [e], |log| + 1) == Selected(log + [e], |log|)
  {
  }

  lemma StepControl(log: Entries, e: WalEntry, r: Replay)
    requires Holds(log, r) && Control(e)
    ensures Holds(log + [e], Step(r, e))
  {
    AppendedControl(log, e);
    SelectedSettled(log);
    SelectedAfterControl(log, e);
    assert Selected(log, Settled(log)) + [] == Selected(log, Settled(log));
  }

  lemma {:induction false} RunHolds(log: Entries)
    ensures Holds(log, Run(log))
  {
    if log != [] {
      var init, e := log[..|log| - 1], log[|log| - 1];
      RunHolds(init);
      assert log == init + [e];
      if Control(e) { StepControl(init, e, Run(init)); } else { StepData(init, e, Run(init)); }
    }
  }

  /** The replay delivers exactly the effective entries, once each and in log order, whatever
      the log, interleaved transactions included. */
  lemma ReplayIsEffective(log: Entries)
    ensures Run(log).delivered == Selected(log, |log|)
  {
    RunHolds(log);
  }

  // ---------- The method ----------

  /** The transaction entries of a file that decode, from `at` on, and whether the file ends
      at a record boundary. */
  function TxEntries(d: Data, codec: Codec<WalEntry>): (Entries, bool)
    decreases |d|
  {
    var raw := ReadRaw(d);
    if raw.Eof? then ([], true)
    else if raw.Torn? then ([], false)
    else
      var (rest, clean) := TxEntries(raw.rest, codec);
      (Decoded(raw, codec) + rest, clean)
  }

  /** The entry of a transaction record, if its payload decodes; its flag is not looked at. */
  function Decoded(raw: RawRead, codec: Codec<WalEntry>): (entry: Entries)
    requires raw.Raw?
    ensures |entry| <= 1
  {
    if raw.op == 4 && codec.decode(raw.payload).Some? then [codec.decode(raw.payload).value] else []
  }

  /** The loop's treatment of one entry. */
  method Feed(current: Option<nat>, pending: Entries, delivered: Entries, e: WalEntry)
    returns (current': Option<nat>, pending': Entries, delivered': Entries)
    ensures Replay(current', pending', delivered') == Step(Replay(current, pending, delivered), e)
  {
    current', pending', delivered' := current, pending, delivered;
    match e {
      case Begin(t) =>
        current', pending' := Some(t), [];
      case Commit(t) =>
        if current == Some(t) {
          delivered' := delivered + pending;
        }
        current', pending' := None, [];
      case Abort(_) =>
        current', pending' := None, [];
      case _ =>
        if current.Some? {
          pending' := pending + [e];
        } else {
          delivered' := delivered + [e];
        }
    }
  }

  /** `Wal::replay` with a callback that records what it is given: reads the file record by
      record and feeds each transaction entry to the loop. */
  method ReplayFile(file: Data, codec: Codec<WalEntry>) returns (delivered: Entries, clean: bool)
    requires |file| >= 6
    ensures clean == TxEntries(file[6..], codec).1
    ensures delivered == Selected(TxEntries(file[6..], codec).0, |TxEntries(file[6..], codec).0|)
  {
    delivered := [];
    var current: Option<nat>, pending: Entries := None, [];
    var reader := file[6..];
    ghost var seen: Entries := [];
    ghost var all := TxEntries(reader, codec);
    assert all.0 == seen + all.0;
    var raw := ReadRaw(reader);
    while raw.Raw?
      invariant raw == ReadRaw(reader)
      invariant Run(seen) == Replay(current, pending, delivered)
      invariant all == (seen + TxEntries(reader, codec).0, TxEntries(reader, codec).1)
      decreases |reader|
    {
      var entry := Decoded(raw, codec);
      JoinEntries(seen, entry, TxEntries(raw.rest, codec).0);
      RunOn(seen, entry);
      if entry != [] {
        current, pending, delivered := Feed(current, pending, delivered, entry[0]);
      }
      seen := seen + entry;
      reader := raw.rest;
      raw := ReadRaw(reader);
    }
    clean := raw.Eof?;
    assert seen + [] == seen;
    ReplayIsEffective(seen);
  }

  lemma JoinEntries(a: Entries, b: Entries, c: Entries)
    ensures a + (b + c) == a + b + c
  {
  }

  lemma RunOn(log: Entries, entry: Entries)
    requires |entry| <= 1
    ensures Run(log + entry) == if entry == [] then Run(log) else Step(Run(log), entry[0])
  {
    if entry == [] {
      assert log + entry == log;
    } else {
      assert (log + entry)[..|log + entry| - 1] == log;
    }
  }

  // ---------- What a log file replays ----------

  /** The transaction entries of a log, flagged or not, that decode. */
  function EntriesOf(rs: seq<Framed>, codec: Codec<WalEntry>): Entries {
    if rs == [] then []
    else
      (if rs[0].op == TxEntry && codec.decode(rs[0].payload).Some? then [codec.decode(rs[0].payload).value] else [])
      + EntriesOf(rs[1..], codec)
  }

  /** A log followed by a part of one more record: reading finds the entries of the whole records,
      and an error if and only if there is such a part. */
  lemma {:induction false} ReplayReads(rs: seq<Framed>, r: Framed, n: nat, crc: Checksum, codec: Codec<WalEntry>)
    requires AllFit(rs) && Fits(r) && n < |Encode(r, crc)|
    ensures TxEntries(EncodeAll(rs, crc) + Encode(r, crc)[..n], codec) == (EntriesOf(rs, codec), n == 0)
  {
    hide Encode;
    var tail := Encode(r, crc)[..n];
    if rs == [] {
      assert EncodeAll(rs, crc) + tail == tail;
      ReadCut(r, tail, crc);
    } else {
      var rest := EncodeAll(rs[1..], crc) + tail;
      Associate(Encode(rs[0], crc), EncodeAll(rs[1..], crc), tail);
      ReadEncoded(rs[0], rest, crc);
      assert forall x | x in rs[1..] :: x in rs;
      ReplayReads(rs[1..], r, n, crc, codec);
      hide ReadRaw;
      hide EncodeAll;
      OpByteIsFour(rs[0].op);
    }
  }

  lemma OpByteIsFour(op: WalOp)
    ensures OpByte(op) == 4 <==> op == TxEntry
  {
  }
}
