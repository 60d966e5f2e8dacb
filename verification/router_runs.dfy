/** Runs of calls to a router, and the one map they amount to. */
module RouterRuns {
  import opened Json
  import opened Documents
  import opened Queries
  import opened EngineStore
  import opened ShardRing
  import opened ShardRouter
  import Engine

  /** Inserts carry an id; one without gets a generated id, which may belong to another shard. */
  datatype Call =
    | InsertCall(doc: Document, time: int)
    | UpdateCall(id: string, data: Value, time: int)
    | DeleteCall(id: string, time: int)

  predicate HasId(c: Call) {
    c.InsertCall? ==> c.doc.id != ""
  }

  /** The same call to one map, which takes inserts when there is a shard. */
  function Called(docs: Docs, c: Call, sharded: bool): Docs {
    match c
    case InsertCall(doc, _) => if sharded then docs[doc.id := doc] else docs
    case UpdateCall(id, data, _) => if id in docs then docs[id := docs[id].(data := data)] else docs
    case DeleteCall(id, _) => docs - {id}
  }

  function CalledAll(calls: seq<Call>, sharded: bool): Docs {
    if calls == [] then map[] else Called(CalledAll(calls[..|calls| - 1], sharded), calls[|calls| - 1], sharded)
  }

  /** The call overwrites no document with a token the new one lacks. */
  predicate KeepsTokens(docs: Docs, c: Call, lib: Library) {
    c.InsertCall? && c.doc.id in docs ==> TokensOf(docs[c.doc.id], lib) <= TokensOf(c.doc, lib)
  }

  predicate AllKeepTokens(calls: seq<Call>, sharded: bool, lib: Library) {
    forall i | 0 <= i < |calls| :: KeepsTokens(CalledAll(calls[..i], sharded), calls[i], lib)
  }

  method Serve(router: Router, c: Call)
    requires router.Valid() && HasId(c)
    modifies router
    ensures router.Valid() && router.ring == old(router.ring)
    ensures router.contents == Called(old(router.contents), c, router.ring != map[])
    ensures old(router.Indexed()) && KeepsTokens(old(router.contents), c, router.lib) ==> router.Indexed()
  {
    hide TokensOf;
    match c {
      case InsertCall(doc, time) =>
        var r := router.Insert(doc, doc.id, time);
      case UpdateCall(id, data, time) =>
        var r := router.Update(id, data, time);
      case DeleteCall(id, time) =>
        var r := router.Delete(id, time);
    }
  }

  /** A new router on no files serves the calls in turn. */
  method Serving(shards: set<ShardId>, nodes: nat, hash: Hash, lib: Library, toFloat: ToFloat, calls: seq<Call>)
    returns (router: Router)
    requires LawfulLibrary(lib) && forall c | c in calls :: HasId(c)
    ensures fresh(router) && router.Valid() && router.lib == lib && router.toFloat == toFloat
    ensures var sharded := shards != {} && nodes > 0;
      && router.contents == CalledAll(calls, sharded)
      && (AllKeepTokens(calls, sharded, lib) ==> router.Indexed())
  {
    assert StoresOk(map[], lib);
    router := new Router(shards, nodes, hash, lib, toFloat, map[], map[]);
    hide *;
    ghost var sharded := shards != {} && nodes > 0;
    RingNotEmpty(router.ring, shards, nodes, hash);
    CalledNone(sharded);
    assert calls[..0] == [];
    for i := 0 to |calls|
      invariant fresh(router) && router.Valid() && (router.ring != map[] <==> sharded)
      invariant router.lib == lib && router.toFloat == toFloat
      invariant router.contents == CalledAll(calls[..i], sharded)
      invariant AllKeepTokens(calls, sharded, lib) ==> router.Indexed()
    {
      CalledNext(calls, i, sharded, lib);
      assert calls[i] in calls;
      Serve(router, calls[i]);
    }
    assert calls[..|calls|] == calls;
  }

  /** After any run of calls to a new router, a query of all shards lists the documents that
      satisfy it in the one map of the same calls, each once, sorted by id. */
  method QueryAfter(shards: set<ShardId>, nodes: nat, hash: Hash, lib: Library, toFloat: ToFloat,
                    calls: seq<Call>, q: Query)
    returns (r: Engine.QueryResult)
    requires LawfulLibrary(lib) && forall c | c in calls :: HasId(c)
    ensures r.count == |r.documents| && SortedById(r.documents)
    ensures var sharded := shards != {} && nodes > 0;
      AllKeepTokens(calls, sharded, lib) ==>
        Engine.Lists(r.documents, CalledAll(calls, sharded), (d: Document) => Satisfies(q, d.data, lib.tokenize, toFloat))
  {
    hide *;
    var router := Serving(shards, nodes, hash, lib, toFloat, calls);
    r := router.QueryAll(q);
  }

  lemma CalledNone(sharded: bool)
    ensures CalledAll([], sharded) == map[]
  {
  }

  lemma CalledNext(calls: seq<Call>, i: nat, sharded: bool, lib: Library)
    requires i < |calls|
    ensures CalledAll(calls[..i + 1], sharded) == Called(CalledAll(calls[..i], sharded), calls[i], sharded)
    ensures AllKeepTokens(calls, sharded, lib) ==> KeepsTokens(CalledAll(calls[..i], sharded), calls[i], lib)
  {
    assert calls[..i + 1][..i] == calls[..i];
  }

  lemma RingNotEmpty(ring: Ring, shards: set<ShardId>, nodes: nat, hash: Hash)
    requires RingOf(ring, shards, nodes, hash)
    ensures ring != map[] <==> shards != {} && nodes > 0
  {
    if s :| s in shards && nodes > 0 {
      assert HasPoint(s, nodes, hash, Point(s, 0, hash));
    }
    if ring != map[] {
      var p :| p in ring;
      assert HasPoint(ring[p], nodes, hash, p);
    }
  }
}
