/** The engine's state as a value: live documents and index, write-ahead log and change feed;
    what its operations do to it, and what recovery makes of the log. */
module EngineStore {
  import opened Options
  import opened Bytes
  import opened Json
  import opened Documents
  import Index
  import WalFormat
  import Replication

  type Docs = map<string, Document>

  /** The libraries: UTF-8, whose reading replaces what is malformed, the JSON form of documents,
      and the tokeniser. */
  datatype Library = Library(
    utf8: string -> Data, fromUtf8: Data -> string, json: Codec<Document>, tokenize: Index.Tokenizer)

  ghost predicate LawfulLibrary(lib: Library) {
    (forall s :: lib.fromUtf8(lib.utf8(s)) == s) && Lawful(lib.json)
  }

  // ---------- Documents and their index ----------

  function TokensOf(d: Document, lib: Library): set<Index.Token> {
    Index.Tokens(d.data, lib.tokenize)
  }

  /** Exactly the tokens of the documents that are there. */
  ghost function IndexOf(docs: Docs, lib: Library): Index.Pairs {
    set id, t | id in docs && t in TokensOf(docs[id], lib) :: (t, id)
  }

  ghost predicate Keyed(docs: Docs) {
    forall id | id in docs :: docs[id].id == id
  }

  /** The pairs of the document under a key, if there is one. */
  function PairsAt(docs: Docs, id: string, lib: Library): Index.Pairs {
    if id in docs then Index.PairsOf(TokensOf(docs[id], lib), id) else {}
  }

  lemma IndexHas(docs: Docs, lib: Library, t: Index.Token, id: string)
    ensures (t, id) in IndexOf(docs, lib) <==> id in docs && t in TokensOf(docs[id], lib)
  {
  }

  /** Replacing a document after taking out its old pairs. */
  lemma IndexReplace(docs: Docs, d: Document, lib: Library)
    ensures IndexOf(docs[d.id := d], lib)
         == IndexOf(docs, lib) - PairsAt(docs, d.id, lib) + Index.PairsOf(TokensOf(d, lib), d.id)
  {
    var docs' := docs[d.id := d];
    forall t, id
      ensures (t, id) in IndexOf(docs', lib)
         <==> (t, id) in IndexOf(docs, lib) - PairsAt(docs, d.id, lib) + Index.PairsOf(TokensOf(d, lib), d.id)
    {
      IndexHas(docs, lib, t, id);
      IndexHas(docs', lib, t, id);
    }
  }

  lemma IndexRemove(docs: Docs, id: string, lib: Library)
    ensures IndexOf(docs - {id}, lib) == IndexOf(docs, lib) - PairsAt(docs, id, lib)
  {
    forall t, i
      ensures (t, i) in IndexOf(docs - {id}, lib) <==> (t, i) in IndexOf(docs, lib) - PairsAt(docs, id, lib)
    {
      IndexHas(docs, lib, t, i);
      IndexHas(docs - {id}, lib, t, i);
    }
  }

  // ---------- Recovery ----------

  datatype View = View(docs: Docs, pairs: Index.Pairs)

  datatype RecoveryError = BadLog | BadDocument

  /** One committed record in the loop of `open`. */
  function RecoverStep(v: View, r: WalFormat.WalRecord, lib: Library): Result<View, RecoveryError> {
    match r.op
    case TxEntry => Ok(v)
    case Delete =>
      var id := lib.fromUtf8(r.id);
      if id in v.docs then Ok(View(v.docs - {id}, v.pairs - PairsAt(v.docs, id, lib))) else Ok(v)
    case _ =>
      var doc := lib.json.decode(r.payload);
      if doc.None? then Err(BadDocument)
      else
        var d := doc.value;
        Ok(View(v.docs[d.id := d], v.pairs - PairsAt(v.docs, d.id, lib) + Index.PairsOf(TokensOf(d, lib), d.id)))
  }

  function Recover(rs: seq<WalFormat.WalRecord>, lib: Library): Result<View, RecoveryError> {
    if rs == [] then Ok(View(map[], {}))
    else
      var before := Recover(rs[..|rs| - 1], lib);
      if before.Err? then before else RecoverStep(before.value, rs[|rs| - 1], lib)
  }

  /** Whatever the log holds, what is recovered is keyed by id and has exactly its documents' tokens
      in its index. */
  lemma {:induction false} RecoveredIsExact(rs: seq<WalFormat.WalRecord>, lib: Library)
    requires Recover(rs, lib).Ok?
    ensures var v := Recover(rs, lib).value; Keyed(v.docs) && v.pairs == IndexOf(v.docs, lib)
  {
    if rs == [] {
      assert IndexOf(map[], lib) == {};
    } else {
      RecoveredIsExact(rs[..|rs| - 1], lib);
      var v, r := Recover(rs[..|rs| - 1], lib).value, rs[|rs| - 1];
      var doc := lib.json.decode(r.payload);
      IndexRemove(v.docs, lib.fromUtf8(r.id), lib);
      if doc.Some? {
        IndexReplace(v.docs, doc.value, lib);
      }
    }
  }

  // ---------- Operations ----------

  /** Live documents and index, the log with its commit flags, and the feed. */
  datatype Store = Store(docs: Docs, pairs: Index.Pairs, log: seq<WalFormat.Framed>, feed: Replication.Changes)

  datatype Op =
    | Insert(doc: Document, newId: string, time: int)
    | Update(id: string, data: Value, time: int)
    | Delete(id: string, time: int)
    | Reopen
    | Crash(unfinished: WalFormat.WalOp, id: string, payload: Data)

  const EMPTY := Store(map[], {}, [], [])

  /** A document without an id is replaced by a new one with a generated id and no metadata. */
  function Stored(doc: Document, newId: string): Document {
    if doc.id == "" then Document(newId, doc.data, map[]) else doc
  }

  function Committed(op: WalFormat.WalOp, id: string, payload: Data, lib: Library): WalFormat.Framed {
    WalFormat.Framed(op, lib.utf8(id), payload, true)
  }

  function Published(feed: Replication.Changes, op: WalFormat.WalOp, id: string, payload: Data, time: int)
    : Replication.Changes
  {
    feed + [Replication.Change(|feed| + 1, op, id, payload, time)]
  }

  /** `insert` adds the new tokens and does not take out those of a document it overwrites. */
  function InsertDoc(s: Store, doc: Document, newId: string, time: int, lib: Library): Store {
    var d := Stored(doc, newId);
    Store(s.docs[d.id := d],
          s.pairs + Index.PairsOf(TokensOf(d, lib), d.id),
          s.log + [Committed(WalFormat.Insert, d.id, lib.json.encode(d), lib)],
          Published(s.feed, WalFormat.Insert, d.id, lib.json.encode(d), time))
  }

  function UpdateDoc(s: Store, id: string, data: Value, time: int, lib: Library): Store
    requires id in s.docs
  {
    var d := s.docs[id].(data := data);
    Store(s.docs[id := d],
          s.pairs - PairsAt(s.docs, id, lib) + Index.PairsOf(TokensOf(d, lib), id),
          s.log + [Committed(WalFormat.Update, id, lib.json.encode(d), lib)],
          Published(s.feed, WalFormat.Update, id, lib.json.encode(d), time))
  }

  function DeleteDoc(s: Store, id: string, time: int, lib: Library): Store
    requires id in s.docs
  {
    Store(s.docs - {id},
          s.pairs - PairsAt(s.docs, id, lib),
          s.log + [Committed(WalFormat.Delete, id, [], lib)],
          Published(s.feed, WalFormat.Delete, id, [], time))
  }

  /** `open` on the store's log. */
  function Reopened(s: Store, lib: Library): Store {
    var v := Recover(WalFormat.Visible(s.log), lib);
    if v.Ok? then s.(docs := v.value.docs, pairs := v.value.pairs) else s
  }

  /** A record appended and not committed. */
  function Unfinished(op: WalFormat.WalOp, id: string, payload: Data, lib: Library): WalFormat.Framed {
    WalFormat.Framed(op, lib.utf8(id), payload, false)
  }

  /** A crash comes after an append and before its commit, and the store is opened again. */
  function Apply(s: Store, op: Op, lib: Library): Store {
    match op
    case Insert(doc, newId, time) => InsertDoc(s, doc, newId, time, lib)
    case Update(id, data, time) => if id in s.docs then UpdateDoc(s, id, data, time, lib) else s
    case Delete(id, time) => if id in s.docs then DeleteDoc(s, id, time, lib) else s
    case Reopen => Reopened(s, lib)
    case Crash(op, id, payload) => Reopened(s.(log := s.log + [Unfinished(op, id, payload, lib)]), lib)
  }

  function Run(ops: seq<Op>, lib: Library): Store {
    if ops == [] then EMPTY else Apply(Run(ops[..|ops| - 1], lib), ops[|ops| - 1], lib)
  }

  /** The insert does not overwrite a document that has a token the new one has not. */
  predicate Clean(s: Store, op: Op, lib: Library) {
    op.Insert? ==>
      var d := Stored(op.doc, op.newId);
      d.id in s.docs ==> TokensOf(s.docs[d.id], lib) <= TokensOf(d, lib)
  }

  predicate CleanRun(ops: seq<Op>, lib: Library) {
    ops == [] || (CleanRun(ops[..|ops| - 1], lib) && Clean(Run(ops[..|ops| - 1], lib), ops[|ops| - 1], lib))
  }

  // ---------- The feed ----------

  /** A follower's documents after one change. */
  function FollowStep(docs: Docs, c: Replication.Change, lib: Library): Docs {
    match c.op
    case Delete => docs - {c.id}
    case TxEntry => docs
    case _ =>
      var doc := lib.json.decode(c.payload);
      if doc.None? then docs else docs[doc.value.id := doc.value]
  }

  function Follow(cs: Replication.Changes, lib: Library): Docs {
    if cs == [] then map[] else FollowStep(Follow(cs[..|cs| - 1], lib), cs[|cs| - 1], lib)
  }

  // ---------- What every operation keeps ----------

  ghost predicate Sound(s: Store, lib: Library) {
    && Keyed(s.docs)
    && Recover(WalFormat.Visible(s.log), lib) == Ok(View(s.docs, IndexOf(s.docs, lib)))
    && Follow(s.feed, lib) == s.docs && Replication.Numbered(s.feed)
    && IndexOf(s.docs, lib) <= s.pairs
  }

  lemma VisibleSnoc(log: seq<WalFormat.Framed>, r: WalFormat.Framed)
    ensures WalFormat.Visible(log + [r]) == WalFormat.Visible(log) + WalFormat.Showing(r)
  {
    WalFormat.VisibleJoin(log, [r]);
    assert [r][1..] == [] && WalFormat.Visible([r]) == WalFormat.Showing(r) + WalFormat.Visible([r][1..]);
    assert WalFormat.Showing(r) + [] == WalFormat.Showing(r);
  }

  lemma RecoverSnoc(rs: seq<WalFormat.WalRecord>, r: WalFormat.WalRecord, lib: Library)
    requires Recover(rs, lib).Ok?
    ensures Recover(rs + [r], lib) == RecoverStep(Recover(rs, lib).value, r, lib)
  {
    assert (rs + [r])[..|rs|] == rs;
  }

  /** Recovery after one more committed record. */
  lemma RecoverCommitted(s: Store, op: WalFormat.WalOp, id: string, payload: Data, lib: Library)
    requires LawfulLibrary(lib) && Sound(s, lib) && op != WalFormat.TxEntry
    ensures Recover(WalFormat.Visible(s.log + [Committed(op, id, payload, lib)]), lib)
         == RecoverStep(View(s.docs, IndexOf(s.docs, lib)), WalFormat.WalRecord(op, lib.utf8(id), payload), lib)
  {
    hide Follow;
    hide RecoverStep;
    hide IndexOf;
    VisibleSnoc(s.log, Committed(op, id, payload, lib));
    RecoverSnoc(WalFormat.Visible(s.log), WalFormat.WalRecord(op, lib.utf8(id), payload), lib);
  }

  lemma FollowPublished(s: Store, op: WalFormat.WalOp, id: string, payload: Data, time: int, lib: Library)
    requires Sound(s, lib)
    ensures var feed := Published(s.feed, op, id, payload, time);
            && Replication.Numbered(feed)
            && Follow(feed, lib) == FollowStep(s.docs, feed[|s.feed|], lib)
  {
    hide Recover;
    var feed := Published(s.feed, op, id, payload, time);
    assert feed[..|s.feed|] == s.feed;
  }

  lemma InsertKeeps(s: Store, doc: Document, newId: string, time: int, lib: Library)
    requires LawfulLibrary(lib) && Sound(s, lib)
    ensures Sound(InsertDoc(s, doc, newId, time, lib), lib)
  {
    hide Recover;
    hide Follow;
    hide IndexOf;
    var d := Stored(doc, newId);
    RecoverCommitted(s, WalFormat.Insert, d.id, lib.json.encode(d), lib);
    FollowPublished(s, WalFormat.Insert, d.id, lib.json.encode(d), time, lib);
    IndexReplace(s.docs, d, lib);
  }

  lemma UpdateKeeps(s: Store, id: string, data: Value, time: int, lib: Library)
    requires LawfulLibrary(lib) && Sound(s, lib) && id in s.docs
    ensures Sound(UpdateDoc(s, id, data, time, lib), lib)
  {
    hide Recover;
    hide Follow;
    hide IndexOf;
    var d := s.docs[id].(data := data);
    RecoverCommitted(s, WalFormat.Update, id, lib.json.encode(d), lib);
    FollowPublished(s, WalFormat.Update, id, lib.json.encode(d), time, lib);
    IndexReplace(s.docs, d, lib);
  }

  lemma DeleteKeeps(s: Store, id: string, time: int, lib: Library)
    requires LawfulLibrary(lib) && Sound(s, lib) && id in s.docs
    ensures Sound(DeleteDoc(s, id, time, lib), lib)
  {
    hide Recover;
    hide Follow;
    hide IndexOf;
    RecoverCommitted(s, WalFormat.Delete, id, [], lib);
    FollowPublished(s, WalFormat.Delete, id, [], time, lib);
    IndexRemove(s.docs, id, lib);
  }

  /** The index is exact: no more than the documents' tokens. */
  ghost predicate Exact(s: Store, lib: Library) {
    s.pairs == IndexOf(s.docs, lib)
  }

  /** Reopening, after a crash or not, gives the documents there were and an exact index. */
  lemma ReopenKeeps(s: Store, op: Op, lib: Library)
    requires Sound(s, lib) && (op.Reopen? || op.Crash?)
    ensures Sound(Apply(s, op, lib), lib) && Exact(Apply(s, op, lib), lib) && Apply(s, op, lib).docs == s.docs
  {
    hide Recover;
    hide Follow;
    hide IndexOf;
    if op.Crash? {
      VisibleSnoc(s.log, Unfinished(op.unfinished, op.id, op.payload, lib));
      assert WalFormat.Visible(s.log) + [] == WalFormat.Visible(s.log);
    }
  }

  lemma ApplyKeeps(s: Store, op: Op, lib: Library)
    requires LawfulLibrary(lib) && Sound(s, lib)
    ensures Sound(Apply(s, op, lib), lib)
  {
    match op {
      case Insert(doc, newId, time) => InsertKeeps(s, doc, newId, time, lib);
      case Update(id, data, time) => if id in s.docs { UpdateKeeps(s, id, data, time, lib); }
      case Delete(id, time) => if id in s.docs { DeleteKeeps(s, id, time, lib); }
      case _ => ReopenKeeps(s, op, lib);
    }
  }

  /** An insert into a store with an exact index leaves it exact if and only if the overwritten
      document, if any, has no token that the new one lacks. */
  lemma InsertExactIff(s: Store, doc: Document, newId: string, time: int, lib: Library)
    requires Exact(s, lib)
    ensures Exact(InsertDoc(s, doc, newId, time, lib), lib) <==> Clean(s, Insert(doc, newId, time), lib)
  {
    var d := Stored(doc, newId);
    var s' := InsertDoc(s, doc, newId, time, lib);
    IndexReplace(s.docs, d, lib);
    forall t ensures (t, d.id) in IndexOf(s'.docs, lib) <==> t in TokensOf(d, lib) {
      IndexHas(s'.docs, lib, t, d.id);
    }
    if d.id in s.docs && !(TokensOf(s.docs[d.id], lib) <= TokensOf(d, lib)) {
      var t :| t in TokensOf(s.docs[d.id], lib) && t !in TokensOf(d, lib);
      IndexHas(s.docs, lib, t, d.id);
      assert (t, d.id) in s'.pairs;
    } else {
      assert PairsAt(s.docs, d.id, lib) <= Index.PairsOf(TokensOf(d, lib), d.id);
    }
  }

  lemma ApplyExact(s: Store, op: Op, lib: Library)
    requires Sound(s, lib) && Exact(s, lib) && Clean(s, op, lib)
    ensures Exact(Apply(s, op, lib), lib)
  {
    hide Recover;
    hide IndexOf;
    match op {
      case Insert(doc, newId, time) => InsertExactIff(s, doc, newId, time, lib);
      case Update(id, data, time) =>
        if id in s.docs {
          IndexReplace(s.docs, s.docs[id].(data := data), lib);
        }
      case Delete(id, time) => IndexRemove(s.docs, id, lib);
      case _ => ReopenKeeps(s, op, lib);
    }
  }

  /** A crash after the commit of an operation and before its publication: the operation is
      recovered, and followers agree with the store if and only if it changed no document. */
  lemma UnpublishedIsLost(s: Store, op: Op, lib: Library)
    requires LawfulLibrary(lib) && Sound(s, lib) && (op.Insert? || op.Update? || op.Delete?)
    ensures var t := Apply(s, op, lib).(feed := s.feed);
      && Recover(WalFormat.Visible(t.log), lib) == Ok(View(t.docs, IndexOf(t.docs, lib)))
      && Reopened(t, lib).docs == t.docs
      && (Follow(t.feed, lib) == t.docs <==> t.docs == s.docs)
  {
    hide Recover;
    hide Follow;
    hide IndexOf;
    hide Apply;
    ApplyKeeps(s, op, lib);
  }

  /** Over every run of inserts, updates, deletes, crashes and reopens: recovery from the log gives exactly
      the live documents and the index of their tokens; the live index has at least those tokens;
      a follower that replays the feed has the same documents. */
  lemma {:induction false} RecoveryIsLive(ops: seq<Op>, lib: Library)
    requires LawfulLibrary(lib)
    ensures var s := Run(ops, lib);
      && Recover(WalFormat.Visible(s.log), lib) == Ok(View(s.docs, IndexOf(s.docs, lib)))
      && IndexOf(s.docs, lib) <= s.pairs && Keyed(s.docs)
      && Follow(s.feed, lib) == s.docs && Replication.Numbered(s.feed)
  {
    hide Recover;
    hide IndexOf;
    hide Apply;
    if ops == [] {
      EmptySound(lib);
    } else {
      RecoveryIsLive(ops[..|ops| - 1], lib);
      ApplyKeeps(Run(ops[..|ops| - 1], lib), ops[|ops| - 1], lib);
    }
  }

  lemma EmptySound(lib: Library)
    ensures Sound(EMPTY, lib) && Exact(EMPTY, lib)
  {
    assert IndexOf(map[], lib) == {};
  }

  /** When no insert overwrites tokens, recovery gives exactly the live index too. */
  lemma {:induction false} RecoveryIsLiveIndex(ops: seq<Op>, lib: Library)
    requires LawfulLibrary(lib) && CleanRun(ops, lib)
    ensures var s := Run(ops, lib);
      && s.pairs == IndexOf(s.docs, lib)
      && Recover(WalFormat.Visible(s.log), lib) == Ok(View(s.docs, s.pairs))
  {
    hide Recover;
    hide IndexOf;
    hide Apply;
    RecoveryIsLive(ops, lib);
    if ops == [] {
      EmptySound(lib);
    } else {
      var init := ops[..|ops| - 1];
      RecoveryIsLive(init, lib);
      RecoveryIsLiveIndex(init, lib);
      ApplyExact(Run(init, lib), ops[|ops| - 1], lib);
    }
  }

  // ---------- Log files ----------

  /** What the first part of `open` makes of the bytes of the log file. */
  function OpenLog(contents: Data, lib: Library): Result<View, RecoveryError> {
    if contents == [] then Ok(View(map[], {}))
    else if !(WalFormat.HEADER <= contents) then Err(BadLog)
    else
      var (items, clean) := WalFormat.Scan(contents[|WalFormat.HEADER|..]);
      var v := Recover(items, lib);
      if v.Ok? && !clean then Err(BadLog) else v
  }

  function LogFile(log: seq<WalFormat.Framed>, crc: WalFormat.Checksum): Data {
    WalFormat.HEADER + WalFormat.EncodeAll(log, crc)
  }

  /** A log file cut anywhere after its header: on the boundary after record k the first k records
      are recovered, anywhere else `open` fails. */
  lemma OpenCutLog(log: seq<WalFormat.Framed>, crc: WalFormat.Checksum, cut: nat, lib: Library) returns (k: nat)
    requires WalFormat.AllFit(log) && |WalFormat.HEADER| <= cut <= |LogFile(log, crc)|
    ensures WalFormat.CutsIn(log, crc, cut - |WalFormat.HEADER|, k)
    ensures var r := OpenLog(LogFile(log, crc)[..cut], lib);
            if cut == WalFormat.Offset(log, crc, k) then r == Recover(WalFormat.Visible(log[..k]), lib) else r.Err?
  {
    hide Recover;
    hide OpenLog;
    hide WalFormat.CutsIn;
    hide WalFormat.Visible;
    hide WalFormat.EncodeAll;
    k := WalFormat.CutsSomewhere(log, crc, cut - |WalFormat.HEADER|);
    OpenCutIn(log, crc, cut, k, lib);
  }

  lemma OpenCutIn(log: seq<WalFormat.Framed>, crc: WalFormat.Checksum, cut: nat, k: nat, lib: Library)
    requires WalFormat.AllFit(log) && |WalFormat.HEADER| <= cut <= |LogFile(log, crc)|
    requires WalFormat.CutsIn(log, crc, cut - |WalFormat.HEADER|, k)
    ensures var r := OpenLog(LogFile(log, crc)[..cut], lib);
            if cut == WalFormat.Offset(log, crc, k) then r == Recover(WalFormat.Visible(log[..k]), lib) else r.Err?
  {
    hide Recover;
    hide WalFormat.Scan;
    hide WalFormat.Visible;
    hide WalFormat.EncodeAll;
    WalFormat.ScanCutIn(log, crc, cut, k);
    HeaderStays(WalFormat.HEADER, WalFormat.EncodeAll(log, crc), cut);
  }

  lemma HeaderStays(header: Data, rest: Data, cut: nat)
    requires |header| <= cut <= |header + rest|
    ensures header <= (header + rest)[..cut]
  {
  }

  /** Reading a whole log file recovers its visible records. */
  lemma OpenWholeLog(log: seq<WalFormat.Framed>, crc: WalFormat.Checksum, lib: Library)
    requires WalFormat.AllFit(log)
    ensures OpenLog(LogFile(log, crc), lib) == Recover(WalFormat.Visible(log), lib)
  {
    hide Recover;
    hide WalFormat.Scan;
    hide WalFormat.Visible;
    var f := LogFile(log, crc);
    assert f[..|f|] == f && log[..|log|] == log;
    OpenCutIn(log, crc, |f|, |log|, lib);
  }

  lemma LastRecord(log: seq<WalFormat.Framed>, r: WalFormat.Framed, crc: WalFormat.Checksum)
    ensures var all := log + [r];
      && all[..|log|] == log && all[..|log| + 1] == all
      && |LogFile(all, crc)| == |LogFile(log, crc)| + |WalFormat.Encode(r, crc)|
  {
    hide WalFormat.Encode;
    WalFormat.AppendEncoded(log, r, crc);
    assert (log + [r])[..|log| + 1] == log + [r];
  }

  /** A crash while a record is being appended, or after that and before its commit: on reopening
      the state is the one before the operation, or `open` fails because a part of the record
      was written. */
  lemma CrashBeforeCommit(log: seq<WalFormat.Framed>, r: WalFormat.Framed, crc: WalFormat.Checksum, cut: nat, lib: Library)
    requires WalFormat.AllFit(log + [r]) && !r.flag && Recover(WalFormat.Visible(log), lib).Ok?
    requires |LogFile(log, crc)| <= cut <= |LogFile(log + [r], crc)|
    ensures var reopened := OpenLog(LogFile(log + [r], crc)[..cut], lib);
      && (reopened.Ok? ==> reopened == Recover(WalFormat.Visible(log), lib))
      && (reopened.Ok? <==> cut == |LogFile(log, crc)| || cut == |LogFile(log + [r], crc)|)
  {
    hide Recover;
    hide OpenLog;
    hide WalFormat.EncodeAll;
    hide WalFormat.Encode;
    var all := log + [r];
    LastRecord(log, r, crc);
    VisibleSnoc(log, r);
    assert WalFormat.Visible(log) + [] == WalFormat.Visible(log);
    OpenCutIn(all, crc, cut, if cut == |LogFile(all, crc)| then |log| + 1 else |log|, lib);
  }
}
