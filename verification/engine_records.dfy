/** What the engine's operations store, log and publish, as a reader of the files finds it. */
module EngineRecords {
  import opened Options
  import opened Bytes
  import opened Json
  import opened Documents
  import opened EngineStore
  import WalFormat
  import Index

  /** An insert stores the document given; without an id, a new one with the generated id, the data
      given and no metadata. It changes no other document. */
  lemma InsertStores(s: Store, doc: Document, newId: string, time: int, lib: Library)
    ensures var id, t := if doc.id == "" then newId else doc.id, InsertDoc(s, doc, newId, time, lib);
      && id in t.docs && t.docs[id].id == id && t.docs[id].data == doc.data
      && t.docs[id].meta == (if doc.id == "" then map[] else doc.meta)
      && t.docs - {id} == s.docs - {id}
  {
  }

  /** An update changes the data of one document and no other document. */
  lemma UpdateStores(s: Store, id: string, data: Value, time: int, lib: Library)
    requires id in s.docs
    ensures var t := UpdateDoc(s, id, data, time, lib);
      && t.docs.Keys == s.docs.Keys && t.docs[id].data == data
      && t.docs[id].id == s.docs[id].id && t.docs[id].meta == s.docs[id].meta && t.docs - {id} == s.docs - {id}
  {
  }

  /** The last record of a log and of a feed, as a reader makes them out: a committed operation with
      this id and this document, none for a deletion. */
  ghost predicate Recorded(before: Store, after: Store, op: WalFormat.WalOp, id: string, doc: Option<Document>,
                           time: int, lib: Library)
  {
    && |after.log| == |before.log| + 1 && before.log <= after.log
    && |after.feed| == |before.feed| + 1 && before.feed <= after.feed
    && var r, c := after.log[|before.log|], after.feed[|before.feed|];
    && r.flag && r.op == op && lib.fromUtf8(r.id) == id
    && c.sequence == |after.feed| && c.op == op && c.id == id && c.timestamp == time
    && (if doc.Some? then lib.json.decode(r.payload) == doc && lib.json.decode(c.payload) == doc
        else r.payload == [] && c.payload == [])
  }

  /** Each operation is recorded as what it was: an insert as an insert of the stored document, an
      update as an update to the new document, a delete as a delete of the id; reads as they are. */
  lemma OperationsAreRecorded(s: Store, op: Op, lib: Library)
    requires LawfulLibrary(lib)
    ensures var t := Apply(s, op, lib);
      match op
      case Insert(doc, newId, time) =>
        var id := if doc.id == "" then newId else doc.id;
        id in t.docs && Recorded(s, t, WalFormat.Insert, id, Some(t.docs[id]), time, lib)
      case Update(id, data, time) =>
        if id in s.docs then id in t.docs && Recorded(s, t, WalFormat.Update, id, Some(t.docs[id]), time, lib) else t == s
      case Delete(id, time) =>
        if id in s.docs then Recorded(s, t, WalFormat.Delete, id, None, time, lib) else t == s
      case Reopen => t.log == s.log && t.feed == s.feed
      case Crash(unfinished, id, payload) =>
        && t.feed == s.feed && |t.log| == |s.log| + 1 && s.log <= t.log
        && !t.log[|s.log|].flag && t.log[|s.log|].op == unfinished
  {
    hide Recover;
    hide Index.Tokens;
  }
}
