/** The engine object: log, main file, index, feed and documents, kept in step. Compaction is not
    part of it, so the main file holds only its header page. */
module Engine {
  import opened Options
  import opened Bytes
  import opened Json
  import opened Documents
  import opened Queries
  import opened EngineStore
  import Index
  import WalFormat
  import PageStorage
  import Replication

  datatype EngineError = LogRejected | RecordRejected | MainFileRejected | FeedRejected | NotFound

  datatype QueryResult = QueryResult(documents: seq<Document>, count: nat)

  /** The store without a feed when there is none. */
  ghost function Fed(s: Store, feeding: bool): Store {
    if feeding then s else s.(feed := [])
  }

  /** The documents of the store that are wanted, each once and in any order, and no others. */
  ghost predicate Lists(found: seq<Document>, docs: Docs, wanted: Document -> bool) {
    forall d :: multiset(found)[d] == if Holds(docs, d) && wanted(d) then 1 else 0
  }

  predicate Holds(docs: Docs, d: Document) {
    d.id in docs && docs[d.id] == d
  }

  /** The documents in some order. */
  method ListDocs(docs: Docs) returns (all: seq<Document>)
    requires Keyed(docs)
    ensures Lists(all, docs, (d: Document) => true)
  {
    all := [];
    var left := docs.Keys;
    while left != {}
      invariant left <= docs.Keys
      invariant forall d :: multiset(all)[d] == if Holds(docs, d) && d.id !in left then 1 else 0
      decreases |left|
    {
      var id :| id in left;
      all, left := all + [docs[id]], left - {id};
    }
  }

  /** Runs a query on all documents, in some order, with an index. If that lists exactly the
      documents' tokens, the result is exactly the documents that satisfy the query, each once. */
  method RunQuery(q: Query, docs: Docs, postings: Index.Postings, lib: Library, toFloat: ToFloat) returns (r: QueryResult)
    requires Keyed(docs)
    ensures r.count == |r.documents|
    ensures Index.Relation(postings) == IndexOf(docs, lib) ==>
              Lists(r.documents, docs, (d: Document) => Satisfies(q, d.data, lib.tokenize, toFloat))
  {
    hide IndexOf;
    hide Execute;
    hide Satisfies;
    hide Index.Relation;
    var all := ListDocs(docs);
    var found := Execute(q, all, postings, lib.tokenize, toFloat);
    if Index.Relation(postings) == IndexOf(docs, lib) {
      forall d | d in all ensures ListedExactly(postings, d, lib.tokenize) {
        assert multiset(all)[d] > 0;
        ExactLists(docs, postings, d, lib);
      }
      forall d: Document
        ensures multiset(found)[d] == if Satisfies(q, d.data, lib.tokenize, toFloat) then multiset(all)[d] else 0
      {
        ExecuteIsMeaning(q, all, postings, lib.tokenize, toFloat, d);
      }
    }
    return QueryResult(found, |found|);
  }

  /** The document count moved by this much, as far as 32 bits allow. */
  predicate CountMoved(before: int, after: int, step: int) {
    if step == 0 then after == before
    else after == if before + step < 0 then 0 else if before + step >= U32_LIMIT then U32_LIMIT - 1 else before + step
  }

  /** Files that hold these records and these changes, or are still empty. */
  ghost predicate WellFormed(log: Data, feedFile: Data, feeding: bool, lib: Library, crc: WalFormat.Checksum,
                             changeCodec: Codec<Replication.Change>,
                             records: seq<WalFormat.Framed>, changes: Replication.Changes)
  {
    && LawfulLibrary(lib) && Lawful(changeCodec) && WalFormat.AllFit(records)
    && (if log == [] then records == [] else log == LogFile(records, crc))
    && (feeding ==> FeedFile(feedFile, changeCodec, changes))
  }

  ghost predicate FeedFile(file: Data, codec: Codec<Replication.Change>, changes: Replication.Changes) {
    if file == [] then changes == []
    else file == Replication.File(changes, codec) && Replication.Fit(changes, codec) && Replication.Numbered(changes)
  }

  /** Reading the log as `open` does, once an empty file has got its header. */
  lemma OpenReads(log: Data, file: Data, lib: Library)
    requires log == [] || WalFormat.HEADER <= log
    requires file == if log == [] then WalFormat.HEADER else log
    ensures |file| >= 6
    ensures var (items, clean) := WalFormat.Scan(file[6..]);
            var v := Recover(items, lib);
            OpenLog(log, lib) == if v.Ok? && !clean then Err(BadLog) else v
  {
    if log == [] {
      WalFormat.ScanNothing();
      assert WalFormat.HEADER[6..] == [];
    }
  }

  lemma WholeLogRead(log: Data, records: seq<WalFormat.Framed>, crc: WalFormat.Checksum, lib: Library)
    requires WalFormat.AllFit(records) && if log == [] then records == [] else log == LogFile(records, crc)
    ensures OpenLog(log, lib) == Recover(WalFormat.Visible(records), lib)
  {
    if log != [] {
      OpenWholeLog(records, crc, lib);
    }
  }

  lemma CountFits(storage: PageStorage.Storage)
    requires storage.Valid()
    ensures storage.header.docCount < U32_LIMIT
  {
  }

  class CassetteEngine {
    const lib: Library
    const toFloat: ToFloat
    const wal: WalFormat.Wal
    const storage: PageStorage.Storage
    const index: Index.InvertedIndex
    const feed: Replication.ReplicationLog?
    var docs: Docs

    ghost predicate Valid()
      reads this, wal, storage, index, feed
    {
      && LawfulLibrary(lib) && wal.Valid() && WalFormat.AllFit(wal.records)
      && storage.Valid() && storage.free == [] && storage.used == {}
      && index.tokenize == lib.tokenize && Index.NoEmptySet(index.postings)
      && (feed != null ==> feed.Valid())
    }

    ghost function State(): Store
      reads this, wal, index, feed
    {
      Store(docs, Index.Relation(index.postings), wal.records, if feed == null then [] else feed.changes)
    }

    constructor (lib: Library, toFloat: ToFloat, wal: WalFormat.Wal, storage: PageStorage.Storage,
                 index: Index.InvertedIndex, feed: Replication.ReplicationLog?, docs: Docs)
      ensures this.lib == lib && this.toFloat == toFloat && this.wal == wal && this.storage == storage
      ensures this.index == index && this.feed == feed && this.docs == docs
    {
      this.lib, this.toFloat, this.wal, this.storage := lib, toFloat, wal, storage;
      this.index, this.feed, this.docs := index, feed, docs;
    }

    /** One record of the recovery loop. */
    static method RecoverRecord(docs: Docs, index: Index.InvertedIndex, r: WalFormat.WalRecord, lib: Library)
      returns (res: Result<Docs, RecoveryError>)
      requires index.tokenize == lib.tokenize && Index.NoEmptySet(index.postings)
      modifies index
      ensures Index.NoEmptySet(index.postings)
      ensures var step := RecoverStep(View(docs, old(Index.Relation(index.postings))), r, lib);
              && res.Ok? == step.Ok?
              && (res.Ok? ==> step.value == View(res.value, Index.Relation(index.postings)))
              && (res.Err? ==> res.error == step.error)
    {
      match r.op {
        case TxEntry =>
          return Ok(docs);
        case Delete =>
          var id := lib.fromUtf8(r.id);
          if id in docs {
            index.RemoveDocument(id, docs[id].data);
            return Ok(docs - {id});
          }
          return Ok(docs);
        case _ =>
          var doc := lib.json.decode(r.payload);
          if doc.None? {
            return Err(BadDocument);
          }
          var d := doc.value;
          if d.id in docs {
            index.RemoveDocument(d.id, docs[d.id].data);
          }
          index.IndexDocument(d.id, d.data);
          return Ok(docs[d.id := d]);
      }
    }

    /** The recovery loop over the committed records. */
    static method RecoverDocs(records: seq<WalFormat.WalRecord>, index: Index.InvertedIndex, lib: Library)
      returns (res: Result<Docs, RecoveryError>)
      requires index.tokenize == lib.tokenize && index.postings == map[]
      modifies index
      ensures Index.NoEmptySet(index.postings)
      ensures var v := Recover(records, lib);
              && res.Ok? == v.Ok?
              && (res.Ok? ==> v.value == View(res.value, Index.Relation(index.postings)))
    {
      hide RecoverStep;
      var docs: Docs := map[];
      assert Index.Relation(map[]) == {};
      for i := 0 to |records|
        invariant Index.NoEmptySet(index.postings)
        invariant Recover(records[..i], lib) == Ok(View(docs, Index.Relation(index.postings)))
      {
        assert records[..i + 1][..i] == records[..i];
        var next := RecoverRecord(docs, index, records[i], lib);
        if next.Err? {
          RecoverFails(records, i + 1, lib);
          return next;
        }
        docs := next.value;
      }
      assert records[..|records|] == records;
      return Ok(docs);
    }

    /** Opens the feed if there is to be one. */
    static method OpenFeed(feedFile: Data, feeding: bool, codec: Codec<Replication.Change>, ghost changes: Replication.Changes)
      returns (r: Result<Replication.ReplicationLog?, EngineError>)
      ensures r.Ok? ==> (r.value != null <==> feeding) && (feeding ==> fresh(r.value))
      ensures feeding && Lawful(codec) && FeedFile(feedFile, codec, changes) ==>
        r.Ok? && r.value != null && r.value.Valid() && r.value.changes == changes
      ensures !feeding ==> r == Ok(null)
    {
      if !feeding {
        return Ok(null);
      }
      var feed := Replication.ReplicationLog.Open(feedFile, codec, changes);
      if feed.Err? {
        return Err(FeedRejected);
      }
      return Ok(feed.value);
    }

    /** `open` on a log, a main file that holds at most its header page, and a feed file if
        `feeding`. Whatever the log holds, the documents and index are what its records give.
        The ghost arguments say what well-formed files hold. */
    static method Open(log: Data, main: seq<Data>, feedFile: Data, feeding: bool,
                       lib: Library, toFloat: ToFloat, crc: WalFormat.Checksum, changeCodec: Codec<Replication.Change>,
                       ghost records: seq<WalFormat.Framed>, ghost changes: Replication.Changes,
                       ghost header: PageStorage.Header)
      returns (r: Result<CassetteEngine, EngineError>)
      requires main == [] || PageStorage.FreeListOk(main, header, [], {})
      ensures r.Ok? ==>
        && fresh(r.value) && r.value.lib == lib && r.value.toFloat == toFloat
        && (r.value.feed != null <==> feeding)
        && OpenLog(log, lib) == Ok(View(r.value.docs, Index.Relation(r.value.index.postings)))
      ensures WellFormed(log, feedFile, feeding, lib, crc, changeCodec, records, changes) ==>
        && (r.Ok? <==> Recover(WalFormat.Visible(records), lib).Ok?)
        && (r.Ok? ==>
              && r.value.Valid()
              && r.value.State() == Fed(Apply(Store(map[], {}, records, changes), Reopen, lib), feeding))
    {
      hide PageStorage.FreeListOk;
      hide Recover;
      hide WalFormat.Scan;
      hide WalFormat.EncodeAll;
      hide FeedFile;
      hide Replication.MaxSequence;
      ghost var good := WellFormed(log, feedFile, feeding, lib, crc, changeCodec, records, changes);
      var wal := WalFormat.Wal.Open(log, records, crc);
      if wal.Err? {
        return Err(LogRejected);
      }
      var storage := PageStorage.Storage.Open(main, [], {}, header);
      if storage.Err? {
        return Err(MainFileRejected);
      }
      OpenReads(log, wal.value.file, lib);
      if good {
        WholeLogRead(log, records, crc, lib);
      }
      var items, clean := wal.value.IterCommitted();
      var index := new Index.InvertedIndex(lib.tokenize);
      var docs := RecoverDocs(items, index, lib);
      if docs.Err? || !clean {
        return Err(RecordRejected);
      }
      var feed := OpenFeed(feedFile, feeding, changeCodec, changes);
      if feed.Err? {
        return Err(feed.error);
      }
      var engine := new CassetteEngine(lib, toFloat, wal.value, storage.value, index, feed.value, docs.value);
      return Ok(engine);
    }

    /** The record's lengths fit their fields, in the log and in the feed. */
    ghost predicate CanLog(op: WalFormat.WalOp, id: string, payload: Data, time: int)
      reads feed
    {
      && WalFormat.Fits(Committed(op, id, payload, lib))
      && (feed != null ==>
            |feed.codec.encode(Replication.Change(feed.nextSequence, op, id, payload, time))| < U32_LIMIT)
    }

    /** Appends a record to the log and commits it. */
    method LogCommitted(op: WalFormat.WalOp, id: string, payload: Data) returns (ok: bool)
      requires Valid()
      modifies wal
      ensures WalFormat.Fits(Committed(op, id, payload, lib)) ==>
        && ok && wal.Valid() && WalFormat.AllFit(wal.records)
        && wal.records == old(wal.records) + [Committed(op, id, payload, lib)]
    {
      assert wal.Valid() && WalFormat.AllFit(wal.records);
      hide PageStorage.FreeListOk;
      hide WalFormat.Encode;
      hide WalFormat.EncodeAll;
      hide WalFormat.Body;
      hide WalFormat.FlagPosition;
      hide WalFormat.WriteByte;
      hide LawfulLibrary;
      hide Index.NoEmptySet;
      var offset := wal.AppendRecord(op, lib.utf8(id), payload);
      ghost var k := |wal.records| - 1;
      ok := wal.CommitRecord(offset, k);
      assert WalFormat.Fits(Committed(op, id, payload, lib)) ==>
          wal.records == old(wal.records) + [Committed(op, id, payload, lib)];
    }

    method Publish(op: WalFormat.WalOp, id: string, payload: Data, time: int)
      requires feed != null ==> feed.Valid()
      modifies feed
      ensures feed != null ==> feed.changes == Published(old(feed.changes), op, id, payload, time)
      ensures feed != null && old(CanLog(op, id, payload, time)) ==> feed.Valid()
    {
      if feed != null {
        var sequence := feed.Append(op, id, payload, time);
      }
    }

    /** With a record that fits, log, index, documents and feed all take the insert. Otherwise the
        commit may fail, and then documents and index stay as they were. */
    method Insert(doc: Document, newId: string, time: int) returns (r: Result<string, EngineError>)
      requires Valid()
      modifies this, wal, storage, index, feed
      ensures var d := Stored(doc, newId);
        old(CanLog(WalFormat.Insert, d.id, lib.json.encode(d), time)) ==>
          && Valid() && r == Ok(d.id) && State() == Fed(InsertDoc(old(State()), doc, newId, time, lib), feed != null)
      ensures var d := Stored(doc, newId);
        if r.Ok? then
          && docs == old(docs)[d.id := d] && r.value == d.id
          && Index.Relation(index.postings) == old(Index.Relation(index.postings)) + Index.PairsOf(TokensOf(d, lib), d.id)
        else docs == old(docs) && index.postings == old(index.postings)
      ensures CountMoved(old(storage.header.docCount), storage.header.docCount, if r.Ok? then 1 else 0)
      ensures r.Ok? && old(storage.header.docCount) == |old(docs)| < U32_LIMIT - 1 ==>
        (storage.header.docCount == |docs| <==> Stored(doc, newId).id !in old(docs))
    {
      hide PageStorage.FreeListOk;
      hide LawfulLibrary;
      hide Index.NoEmptySet;
      var d := if doc.id == "" then Document(newId, doc.data, map[]) else doc;
      var payload := lib.json.encode(d);
      var ok := LogCommitted(WalFormat.Insert, d.id, payload);
      if !ok {
        return Err(LogRejected);
      }
      index.IndexDocument(d.id, d.data);
      docs := docs[d.id := d];
      storage.IncrementDocCount(1);
      Publish(WalFormat.Insert, d.id, payload, time);
      return Ok(d.id);
    }

    method Update(id: string, data: Value, time: int) returns (r: Option<EngineError>)
      requires Valid()
      modifies this, wal, index, feed
      ensures r == Some(NotFound) <==> id !in old(docs)
      ensures id !in old(docs) || old(CanLog(WalFormat.Update, id, lib.json.encode(docs[id].(data := data)), time)) ==>
        && Valid() && (r == None <==> id in old(docs))
        && State() == Fed(Apply(old(State()), EngineStore.Update(id, data, time), lib), feed != null)
      ensures docs == if r == None then old(docs)[id := old(docs)[id].(data := data)] else old(docs)
      ensures r != None ==> index.postings == old(index.postings)
    {
      if id !in docs {
        return Some(NotFound);
      }
      var stale := docs[id];
      var doc := stale.(data := data);
      var payload := lib.json.encode(doc);
      var ok := LogCommitted(WalFormat.Update, id, payload);
      if !ok {
        return Some(LogRejected);
      }
      index.RemoveDocument(id, stale.data);
      index.IndexDocument(id, doc.data);
      docs := docs[id := doc];
      Publish(WalFormat.Update, id, payload, time);
      return None;
    }

    /** The document leaves the map before the delete is logged, so a failed commit loses it from
        memory and leaves it in the index. */
    method Delete(id: string, time: int) returns (r: Option<EngineError>)
      requires Valid()
      modifies this, wal, storage, index, feed
      ensures r == Some(NotFound) <==> id !in old(docs)
      ensures id !in old(docs) || old(CanLog(WalFormat.Delete, id, [], time)) ==>
        && Valid() && (r == None <==> id in old(docs))
        && State() == Fed(Apply(old(State()), EngineStore.Delete(id, time), lib), feed != null)
      ensures docs == old(docs) - {id} && (r != None ==> index.postings == old(index.postings))
      ensures CountMoved(old(storage.header.docCount), storage.header.docCount, if r == None then -1 else 0)
      ensures r == None && old(storage.header.docCount) == |old(docs)| ==> storage.header.docCount == |docs|
    {
      hide PageStorage.FreeListOk;
      hide LawfulLibrary;
      hide Index.NoEmptySet;
      CountFits(storage);
      if id !in docs {
        return Some(NotFound);
      }
      var stale := docs[id];
      docs := docs - {id};
      var ok := LogCommitted(WalFormat.Delete, id, []);
      if !ok {
        return Some(LogRejected);
      }
      index.RemoveDocument(id, stale.data);
      storage.IncrementDocCount(-1);
      Publish(WalFormat.Delete, id, [], time);
      return None;
    }

    /** With an exact index the result is exactly the documents that satisfy the query. */
    method Query(q: Query) returns (r: QueryResult)
      requires Valid() && Keyed(docs)
      ensures r.count == |r.documents|
      ensures Exact(State(), lib) ==>
                Lists(r.documents, docs, (d: Document) => Satisfies(q, d.data, lib.tokenize, toFloat))
    {
      r := RunQuery(q, docs, index.postings, lib, toFloat);
    }

    /** Full-text search: the documents the index names that are still there. */
    method Search(term: string) returns (found: seq<Document>)
      requires Valid() && Keyed(docs)
      ensures Lists(found, docs, var ids := Index.Matching(index.postings, lib.tokenize(term)); (d: Document) => d.id in ids)
      ensures Exact(State(), lib) ==>
                Lists(found, docs, (d: Document) => Satisfies(Queries.Search(term), d.data, lib.tokenize, toFloat))
    {
      hide PageStorage.FreeListOk;
      hide LawfulLibrary;
      hide Index.NoEmptySet;
      var ids := index.Search(term);
      found := [];
      var left := ids;
      while left != {}
        invariant left <= ids
        invariant forall d :: multiset(found)[d] == if Holds(docs, d) && d.id in ids && d.id !in left then 1 else 0
        decreases |left|
      {
        var id :| id in left;
        left := left - {id};
        if id in docs {
          found := found + [docs[id]];
        }
      }
      if Exact(State(), lib) {
        forall d | Holds(docs, d)
          ensures d.id in ids <==> Satisfies(Queries.Search(term), d.data, lib.tokenize, toFloat)
        {
          ExactLists(docs, index.postings, d, lib);
          SearchIsContainment(term, d, index.postings, lib.tokenize);
        }
      }
    }
  }

  /** An exact index lists every live document exactly. */
  lemma ExactLists(docs: Docs, postings: Index.Postings, d: Document, lib: Library)
    requires Index.Relation(postings) == IndexOf(docs, lib) && Holds(docs, d)
    ensures ListedExactly(postings, d, lib.tokenize)
  {
    forall t ensures (t in postings && d.id in postings[t]) <==> t in TokensOf(d, lib) {
      IndexHas(docs, lib, t, d.id);
      assert (t, d.id) in Index.Relation(postings) <==> t in postings && d.id in postings[t];
    }
  }

  lemma {:induction false} RecoverFails(records: seq<WalFormat.WalRecord>, n: nat, lib: Library)
    requires n <= |records| && Recover(records[..n], lib).Err?
    ensures Recover(records, lib).Err?
    decreases |records|
  {
    hide RecoverStep;
    if n < |records| {
      assert records[..|records| - 1][..n] == records[..n];
      RecoverFails(records[..|records| - 1], n, lib);
    } else {
      assert records[..n] == records;
    }
  }
}
