/** The shard router: one store per shard, and documents routed by the ring. The stores are the
    values of EngineStore; what is open is a subset of what is on disk. */
module ShardRouter {
  import opened Options
  import opened Json
  import opened Documents
  import opened Queries
  import opened EngineStore
  import opened ShardMoves
  import opened ShardRing
  import opened StringOrder
  import Engine
  import Index

  type Stores = map<ShardId, Store>

  datatype RouterError = NoShards | NotOpen | NotFound | SourceMissing

  ghost predicate StoresOk(stores: Stores, lib: Library) {
    forall s | s in stores :: StoreOk(stores[s], lib)
  }

  /** The indexes of some shards list exactly the tokens of their documents. */
  ghost predicate ExactOn(stores: Stores, open: set<ShardId>, lib: Library) {
    forall s | s in open && s in stores :: Exact(stores[s], lib)
  }

  /** Every document is in the shard the ring names for it. */
  ghost predicate Placed(stores: Stores, open: set<ShardId>, ring: Ring, hash: Hash) {
    forall s, id | s in open && s in stores && id in stores[s].docs :: Target(ring, hash(id)) == Some(s)
  }

  ghost predicate HeldBy(stores: Stores, open: set<ShardId>, d: Document) {
    exists s | s in open && s in stores :: Engine.Holds(stores[s].docs, d)
  }

  /** One map with the documents of all open shards. */
  ghost predicate Joins(stores: Stores, open: set<ShardId>, contents: Docs) {
    Keyed(contents) && forall d :: Engine.Holds(contents, d) <==> HeldBy(stores, open, d)
  }

  function DocsAt(stores: Stores, s: ShardId): Docs {
    if s in stores then stores[s].docs else map[]
  }

  // ---------- One store changes ----------

  /** Where a document is placed, it is nowhere else. */
  lemma OnlyAtHome(stores: Stores, open: set<ShardId>, ring: Ring, hash: Hash, contents: Docs, s: ShardId, id: string)
    requires Placed(stores, open, ring, hash) && Joins(stores, open, contents)
    requires Target(ring, hash(id)) == Some(s) && s in open && s in stores
    requires forall t | t in stores :: Keyed(stores[t].docs)
    ensures id in contents <==> id in stores[s].docs
    ensures id in contents ==> contents[id] == stores[s].docs[id]
  {
    if id in stores[s].docs {
      assert Engine.Holds(stores[s].docs, stores[s].docs[id]);
      assert HeldBy(stores, open, stores[s].docs[id]);
      assert Engine.Holds(contents, stores[s].docs[id]);
    }
    if id in contents {
      assert Engine.Holds(contents, contents[id]);
      var t :| t in open && t in stores && Engine.Holds(stores[t].docs, contents[id]);
    }
  }

  lemma KeyedStores(stores: Stores, lib: Library)
    requires StoresOk(stores, lib)
    ensures forall s | s in stores :: Keyed(stores[s].docs)
  {
  }

  lemma StoreKept(stores: Stores, s: ShardId, op: EngineStore.Op, lib: Library)
    requires LawfulLibrary(lib) && StoresOk(stores, lib) && s in stores
    requires op.Insert? ==> op.newId != ""
    ensures StoresOk(stores[s := Apply(stores[s], op, lib)], lib)
  {
    hide StoreOk;
    hide Apply;
    OneStoreKept(stores[s], op, lib);
  }

  /** One more operation on an open shard keeps the indexes exact if and only if it overwrites no
      document with a token the new one lacks. */
  lemma ExactKept(stores: Stores, open: set<ShardId>, s: ShardId, op: EngineStore.Op, lib: Library)
    requires StoresOk(stores, lib) && s in stores && s in open && !op.Reopen? && !op.Crash?
    ensures ExactOn(stores, open, lib) ==>
      (ExactOn(stores[s := Apply(stores[s], op, lib)], open, lib) <==> Clean(stores[s], op, lib))
  {
    hide Clean;
    hide Sound;
    hide Exact;
    var after := stores[s := Apply(stores[s], op, lib)];
    if ExactOn(stores, open, lib) {
      assert StoreOk(stores[s], lib) && Exact(stores[s], lib);
      OneExactKept(stores[s], op, lib);
      assert forall t | t in open && t in after && t != s :: Exact(after[t], lib);
      assert after[s] == Apply(stores[s], op, lib);
    }
  }

  lemma OneExactKept(st: Store, op: EngineStore.Op, lib: Library)
    requires StoreOk(st, lib) && Exact(st, lib) && !op.Reopen? && !op.Crash?
    ensures Exact(Apply(st, op, lib), lib) <==> Clean(st, op, lib)
  {
    hide Recover;
    hide Follow;
    hide IndexOf;
    if op.Insert? {
      InsertExactIff(st, op.doc, op.newId, op.time, lib);
    } else {
      ApplyExact(st, op, lib);
    }
  }

  /** Putting a document in its shard puts it in the joined map. */
  lemma PutKeeps(stores: Stores, open: set<ShardId>, ring: Ring, hash: Hash, contents: Docs,
                 s: ShardId, d: Document, next: Store, lib: Library)
    requires Placed(stores, open, ring, hash) && Joins(stores, open, contents) && StoresOk(stores, lib)
    requires s in open && s in stores && Target(ring, hash(d.id)) == Some(s)
    requires next.docs == stores[s].docs[d.id := d]
    ensures Placed(stores[s := next], open, ring, hash) && Joins(stores[s := next], open, contents[d.id := d])
  {
    hide Placed;
    hide Joins;
    KeyedStores(stores, lib);
    PutDocs(stores, stores[s := next], open, ring, hash, contents, s, d);
  }

  lemma PutDocs(stores: Stores, after: Stores, open: set<ShardId>, ring: Ring, hash: Hash, contents: Docs,
                s: ShardId, d: Document)
    requires Placed(stores, open, ring, hash) && Joins(stores, open, contents)
    requires forall t | t in stores :: Keyed(stores[t].docs)
    requires s in open && s in stores && after.Keys == stores.Keys && Target(ring, hash(d.id)) == Some(s)
    requires after[s].docs == stores[s].docs[d.id := d]
    requires forall t | t in stores && t != s :: after[t] == stores[t]
    ensures Placed(after, open, ring, hash) && Joins(after, open, contents[d.id := d])
  {
    forall e ensures Engine.Holds(contents[d.id := d], e) <==> HeldBy(after, open, e) {
      if HeldBy(after, open, e) {
        var t :| t in open && t in after && Engine.Holds(after[t].docs, e);
        if e != d {
          assert Engine.Holds(stores[t].docs, e) && HeldBy(stores, open, e) && Engine.Holds(contents, e);
          assert Target(ring, hash(e.id)) == Some(t);
          assert e.id != d.id;
        }
      }
      if Engine.Holds(contents[d.id := d], e) {
        if e == d {
          assert Engine.Holds(after[s].docs, d);
        } else {
          assert Engine.Holds(contents, e) && HeldBy(stores, open, e);
          var t :| t in open && t in stores && Engine.Holds(stores[t].docs, e);
          assert Engine.Holds(after[t].docs, e);
        }
      }
    }
  }

  /** Removing a document from its shard removes it from the joined map. */
  lemma DropKeeps(stores: Stores, open: set<ShardId>, ring: Ring, hash: Hash, contents: Docs,
                  s: ShardId, id: string, next: Store, lib: Library)
    requires Placed(stores, open, ring, hash) && Joins(stores, open, contents) && StoresOk(stores, lib)
    requires s in open && s in stores && Target(ring, hash(id)) == Some(s)
    requires next.docs == stores[s].docs - {id}
    ensures Placed(stores[s := next], open, ring, hash) && Joins(stores[s := next], open, contents - {id})
  {
    hide Placed;
    hide Joins;
    KeyedStores(stores, lib);
    DropDocs(stores, stores[s := next], open, ring, hash, contents, s, id);
  }

  lemma DropDocs(stores: Stores, after: Stores, open: set<ShardId>, ring: Ring, hash: Hash, contents: Docs,
                s: ShardId, id: string)
    requires Placed(stores, open, ring, hash) && Joins(stores, open, contents)
    requires forall t | t in stores :: Keyed(stores[t].docs)
    requires s in open && s in stores && after.Keys == stores.Keys && Target(ring, hash(id)) == Some(s)
    requires after[s].docs == stores[s].docs - {id}
    requires forall t | t in stores && t != s :: after[t] == stores[t]
    ensures Placed(after, open, ring, hash) && Joins(after, open, contents - {id})
  {
    forall e ensures Engine.Holds(contents - {id}, e) <==> HeldBy(after, open, e) {
      if HeldBy(after, open, e) {
        var t :| t in open && t in after && Engine.Holds(after[t].docs, e);
        assert Engine.Holds(stores[t].docs, e) && HeldBy(stores, open, e) && Engine.Holds(contents, e);
        assert Target(ring, hash(e.id)) == Some(t);
        assert e.id != id;
      }
      if Engine.Holds(contents - {id}, e) {
        assert Engine.Holds(contents, e) && HeldBy(stores, open, e);
        var t :| t in open && t in stores && Engine.Holds(stores[t].docs, e);
        assert Engine.Holds(after[t].docs, e);
      }
    }
  }

  // ---------- Moving to a new shard ----------

  /** The open shards hold one map; every document is where the ring names it, or in one of the
      shards `pending` and on its way to the target. */
  ghost predicate Drifting(stores: Stores, open: set<ShardId>, ring: Ring, hash: Hash, contents: Docs,
                           target: ShardId, pending: set<ShardId>)
  {
    && Joins(stores, open, contents) && target in open && target !in pending && pending <= open
    && forall s, id | s in open && id in DocsAt(stores, s) ::
         AtHomeOrDue(ring, hash, s, id, target, pending)
  }

  ghost predicate AtHomeOrDue(ring: Ring, hash: Hash, s: ShardId, id: string, target: ShardId, pending: set<ShardId>) {
    Target(ring, hash(id)) == Some(s) || (s in pending && Target(ring, hash(id)) == Some(target))
  }

  lemma HeldAt(stores: Stores, open: set<ShardId>, d: Document)
    ensures HeldBy(stores, open, d) <==> exists s | s in open :: Engine.Holds(DocsAt(stores, s), d)
  {
    if HeldBy(stores, open, d) {
      var s :| s in open && s in stores && Engine.Holds(stores[s].docs, d);
      assert Engine.Holds(DocsAt(stores, s), d);
    }
    if s :| s in open && Engine.Holds(DocsAt(stores, s), d) {
      assert Engine.Holds(stores[s].docs, d);
    }
  }

  /** Files placed by a ring are, on the ring of one more shard that has no document yet, placed or
      on their way to it. */
  lemma GrownDrifts(files: Stores, stores: Stores, old': Ring, ring: Ring, shards: set<ShardId>, target: ShardId,
                    nodes: nat, hash: Hash, contents: Docs)
    requires target !in shards && RingOf(old', shards, nodes, hash) && RingOf(ring, shards + {target}, nodes, hash)
    requires Placed(files, shards, old', hash) && Joins(files, shards, contents) && DocsAt(files, target) == map[]
    requires SameDocs(stores, files) && forall s | s in files :: s in stores
    ensures Drifting(stores, shards + {target}, ring, hash, contents, target, shards)
  {
    forall s ensures DocsAt(stores, s) == DocsAt(files, s) {
    }
    forall d ensures HeldBy(stores, shards + {target}, d) <==> HeldBy(files, shards, d) {
      HeldAt(stores, shards + {target}, d);
      HeldAt(files, shards, d);
    }
    hide RingOf;
    forall s, id | s in shards + {target} && id in DocsAt(stores, s)
      ensures AtHomeOrDue(ring, hash, s, id, target, shards)
    {
      assert s in shards && s in files && id in files[s].docs;
      AddingMovesOnlyToNew(old', ring, shards, target, nodes, hash, hash(id));
    }
  }

  lemma RebalanceKeepsMap(stores: Stores, after: Stores, open: set<ShardId>, ring: Ring, hash: Hash, contents: Docs,
                          source: ShardId, target: ShardId, moved: nat, lib: Library)
    requires StoresOk(stores, lib) && source in open && target in open && source != target
    requires Joins(stores, open, contents) && Rebalances(stores, after, source, target, ring, hash, moved)
    ensures Joins(after, open, contents)
  {
    KeyedDocs(stores, lib);
    hide StoresOk;
    hide DocsAt;
    hide HeldBy;
    var moving := Moving(DocsAt(stores, source), ring, hash, target);
    forall d ensures HeldBy(after, open, d) <==> HeldBy(stores, open, d) {
      HeldAt(stores, open, d);
      HeldAt(after, open, d);
      MovedHeld(stores, after, open, contents, source, target, moving, d);
    }
  }

  /** Rebalancing one pending shard leaves one fewer, and the map as it was. */
  lemma RebalanceSettles(stores: Stores, after: Stores, open: set<ShardId>, ring: Ring, hash: Hash, contents: Docs,
                         source: ShardId, target: ShardId, pending: set<ShardId>, moved: nat, lib: Library)
    requires StoresOk(stores, lib) && source in pending && source != target
    requires Drifting(stores, open, ring, hash, contents, target, pending)
    requires Rebalances(stores, after, source, target, ring, hash, moved)
    ensures Drifting(after, open, ring, hash, contents, target, pending - {source})
    ensures open + {target} == open
  {
    hide StoresOk;
    hide DocsAt;
    hide Joins;
    RebalanceKeepsMap(stores, after, open, ring, hash, contents, source, target, moved, lib);
    var s := DocsAt(stores, source);
    var moving := Moving(s, ring, hash, target);
    forall u, id | u in open && id in DocsAt(after, u)
      ensures AtHomeOrDue(ring, hash, u, id, target, pending - {source})
    {
      if u == source {
        assert id in s && AtHomeOrDue(ring, hash, source, id, target, pending);
      } else if u != target {
        assert AtHomeOrDue(ring, hash, u, id, target, pending);
      } else if id !in moving {
        assert AtHomeOrDue(ring, hash, target, id, target, pending);
      }
    }
  }

  lemma KeyedDocs(stores: Stores, lib: Library)
    requires StoresOk(stores, lib)
    ensures forall u, id | id in DocsAt(stores, u) :: DocsAt(stores, u)[id].id == id
  {
    KeyedStores(stores, lib);
  }

  /** What is held before a move is held after it, and nothing else. */
  lemma MovedHeld(stores: Stores, after: Stores, open: set<ShardId>, contents: Docs, source: ShardId, target: ShardId,
                  moving: set<string>, d: Document)
    requires Joins(stores, open, contents) && source in open && target in open && source != target
    requires forall u, id | id in DocsAt(stores, u) :: DocsAt(stores, u)[id].id == id
    requires DocsAt(after, source) == DocsAt(stores, source) - moving
    requires Overlaid(DocsAt(after, target), DocsAt(stores, target), DocsAt(stores, source), moving)
    requires forall u | u != source && u != target :: DocsAt(after, u) == DocsAt(stores, u)
    ensures (exists u | u in open :: Engine.Holds(DocsAt(after, u), d))
       <==> (exists u | u in open :: Engine.Holds(DocsAt(stores, u), d))
  {
    hide DocsAt;
    var s, t := DocsAt(stores, source), DocsAt(stores, target);
    if u :| u in open && Engine.Holds(DocsAt(after, u), d) {
      if u == target && d.id in moving {
        assert Engine.Holds(s, d);
      } else {
        assert Engine.Holds(DocsAt(stores, u), d);
      }
    }
    if u :| u in open && Engine.Holds(DocsAt(stores, u), d) {
      if u == source && d.id in moving {
        assert Engine.Holds(DocsAt(after, target), d);
      } else if u == target && d.id in moving {
        HeldAt(stores, open, d);
        HeldAt(stores, open, s[d.id]);
        assert Engine.Holds(s, s[d.id]);
        assert Engine.Holds(contents, d) && Engine.Holds(contents, s[d.id]);
        assert Engine.Holds(DocsAt(after, target), d);
      } else {
        assert Engine.Holds(DocsAt(after, u), d);
      }
    }
  }

  /** With nothing pending, every document is at home. */
  lemma SettledIsPlaced(stores: Stores, open: set<ShardId>, ring: Ring, hash: Hash, contents: Docs, target: ShardId)
    requires Drifting(stores, open, ring, hash, contents, target, {})
    ensures Placed(stores, open, ring, hash) && Joins(stores, open, contents)
  {
    forall s, id | s in open && s in stores && id in stores[s].docs ensures Target(ring, hash(id)) == Some(s) {
      assert id in DocsAt(stores, s) && AtHomeOrDue(ring, hash, s, id, target, {});
    }
  }

  // ---------- Queries over all shards ----------

  function TokensIn(pairs: Index.Pairs): (r: set<Index.Token>)
    ensures forall t, id | (t, id) in pairs :: t in r
    ensures forall t | t in r :: exists id :: (t, id) in pairs
  {
    var r := set p | p in pairs :: p.0;
    assert forall p | p in pairs :: p == (p.0, p.1);
    r
  }

  function IdsFor(pairs: Index.Pairs, t: Index.Token): (r: set<Index.DocId>)
    ensures forall id :: id in r <==> (t, id) in pairs
  {
    var r := set p | p in pairs && p.0 == t :: p.1;
    assert forall id | (t, id) in pairs :: (t, id).1 in r;
    r
  }

  /** The index map of a relation. */
  function PostingsOf(pairs: Index.Pairs): Index.Postings {
    map t | t in TokensIn(pairs) :: IdsFor(pairs, t)
  }

  /** It is the only one without empty sets. */
  lemma PostingsRelation(pairs: Index.Pairs)
    ensures Index.Relation(PostingsOf(pairs)) == pairs && Index.NoEmptySet(PostingsOf(pairs))
  {
    var m := PostingsOf(pairs);
    forall t, id ensures (t, id) in Index.Relation(m) <==> (t, id) in pairs {
      assert (t, id) in Index.Relation(m) <==> t in m && id in m[t];
    }
    forall x ensures x in Index.Relation(m) <==> x in pairs {
      assert x == (x.0, x.1);
    }
  }

  ghost predicate SortedById(docs: seq<Document>) {
    forall i, j | 0 <= i < j < |docs| :: AtMost(docs[i].id, docs[j].id)
  }

  /** Sorting by id, by insertion. */
  method SortById(docs: seq<Document>) returns (r: seq<Document>)
    ensures multiset(r) == multiset(docs) && SortedById(r)
  {
    r := [];
    assert docs[..0] == [];
    for i := 0 to |docs|
      invariant multiset(r) == multiset(docs[..i]) && SortedById(r)
    {
      assert docs[..i + 1] == docs[..i] + [docs[i]];
      r := InsertSorted(r, docs[i]);
    }
    assert docs[..|docs|] == docs;
  }

  method InsertSorted(docs: seq<Document>, d: Document) returns (r: seq<Document>)
    requires SortedById(docs)
    ensures multiset(r) == multiset(docs) + multiset{d} && SortedById(r)
  {
    var k := |docs|;
    while k > 0 && Before(d.id, docs[k - 1].id)
      invariant 0 <= k <= |docs|
      invariant forall j | k <= j < |docs| :: Before(d.id, docs[j].id)
    {
      k := k - 1;
    }
    if k > 0 {
      Trichotomy(d.id, docs[k - 1].id);
      BelowAll(docs, k, d);
    }
    InsertedSorted(docs, k, d);
    r := docs[..k] + [d] + docs[k..];
  }

  lemma InsertedSorted(docs: seq<Document>, k: nat, d: Document)
    requires SortedById(docs) && k <= |docs|
    requires forall i | 0 <= i < k :: AtMost(docs[i].id, d.id)
    requires forall i | k <= i < |docs| :: AtMost(d.id, docs[i].id)
    ensures var r := docs[..k] + [d] + docs[k..];
            multiset(r) == multiset(docs) + multiset{d} && SortedById(r)
  {
    var r := docs[..k] + [d] + docs[k..];
    assert docs == docs[..k] + docs[k..];
    forall i, j | 0 <= i < j < |r| ensures AtMost(r[i].id, r[j].id) {
      if i < k && j > k {
        assert AtMost(docs[i].id, docs[j - 1].id);
      }
    }
  }

  lemma BelowAll(docs: seq<Document>, k: nat, d: Document)
    requires SortedById(docs) && 0 < k <= |docs| && AtMost(docs[k - 1].id, d.id)
    ensures forall i | 0 <= i < k :: AtMost(docs[i].id, d.id)
  {
    forall i | 0 <= i < k ensures AtMost(docs[i].id, d.id) {
      if i < k - 1 && docs[i].id != docs[k - 1].id && docs[k - 1].id != d.id {
        Transitive(docs[i].id, docs[k - 1].id, d.id);
      }
    }
  }

  /** The documents of some shards that satisfy a query, each once. */
  ghost predicate ListsHeld(found: seq<Document>, stores: Stores, done: set<ShardId>, q: Query,
                            lib: Library, toFloat: ToFloat)
  {
    forall d ::
      multiset(found)[d] == if HeldBy(stores, done, d) && Satisfies(q, d.data, lib.tokenize, toFloat) then 1 else 0
  }

  lemma HeldStep(stores: Stores, open: set<ShardId>, ring: Ring, hash: Hash, done: set<ShardId>, s: ShardId, d: Document)
    requires Placed(stores, open, ring, hash) && done + {s} <= open && s !in done && s in stores
    ensures HeldBy(stores, done + {s}, d) <==> HeldBy(stores, done, d) || Engine.Holds(stores[s].docs, d)
    ensures !(HeldBy(stores, done, d) && Engine.Holds(stores[s].docs, d))
  {
    if HeldBy(stores, done + {s}, d) {
      var t :| t in done + {s} && t in stores && Engine.Holds(stores[t].docs, d);
      assert t in done ==> HeldBy(stores, done, d);
    }
    if Engine.Holds(stores[s].docs, d) {
      assert s in done + {s};
      assert Target(ring, hash(d.id)) == Some(s);
      assert HeldBy(stores, done + {s}, d);
    }
    if HeldBy(stores, done, d) {
      var t :| t in done && t in stores && Engine.Holds(stores[t].docs, d);
      assert Target(ring, hash(d.id)) == Some(t);
      assert HeldBy(stores, done + {s}, d);
    }
  }

  lemma ListsStep(all: seq<Document>, found: seq<Document>, stores: Stores, open: set<ShardId>, ring: Ring, hash: Hash,
                  done: set<ShardId>, s: ShardId, q: Query, lib: Library, toFloat: ToFloat)
    requires Placed(stores, open, ring, hash) && done + {s} <= open && s !in done && s in stores
    requires ListsHeld(all, stores, done, q, lib, toFloat)
    requires Engine.Lists(found, stores[s].docs, (d: Document) => Satisfies(q, d.data, lib.tokenize, toFloat))
    ensures ListsHeld(all + found, stores, done + {s}, q, lib, toFloat)
  {
    hide Satisfies;
    forall d
      ensures HeldBy(stores, done + {s}, d) <==> HeldBy(stores, done, d) || Engine.Holds(stores[s].docs, d)
      ensures !(HeldBy(stores, done, d) && Engine.Holds(stores[s].docs, d))
    {
      HeldStep(stores, open, ring, hash, done, s, d);
    }
    hide HeldBy;
    hide Engine.Holds;
  }

  lemma NothingHeld(stores: Stores, ids: seq<ShardId>, q: Query, lib: Library, toFloat: ToFloat)
    ensures ListsHeld([], stores, Listed(ids[..0]), q, lib, toFloat)
  {
    assert Listed(ids[..0]) == {};
  }

  lemma ListedIs(ids: seq<ShardId>, open: set<ShardId>)
    requires forall x :: x in ids <==> x in open
    ensures Listed(ids) == open
  {
  }

  lemma ListedAt(ids: seq<ShardId>, open: set<ShardId>, i: nat)
    requires Listed(ids) == open && i < |ids|
    ensures ids[i] in open
  {
  }

  lemma ExactAt(stores: Stores, open: set<ShardId>, s: ShardId, lib: Library)
    requires ExactOn(stores, open, lib) && s in open && s in stores
    ensures stores[s].pairs == IndexOf(stores[s].docs, lib)
  {
    hide IndexOf;
  }

  lemma ListsNext(all: seq<Document>, found: seq<Document>, stores: Stores, open: set<ShardId>, ring: Ring, hash: Hash,
                  ids: seq<ShardId>, i: nat, q: Query, lib: Library, toFloat: ToFloat)
    requires Placed(stores, open, ring, hash) && Ascending(ids) && Listed(ids) == open && i < |ids| && ids[i] in stores
    requires ListsHeld(all, stores, Listed(ids[..i]), q, lib, toFloat)
    requires Engine.Lists(found, stores[ids[i]].docs, (d: Document) => Satisfies(q, d.data, lib.tokenize, toFloat))
    ensures ListsHeld(all + found, stores, Listed(ids[..i + 1]), q, lib, toFloat)
  {
    ListedSnoc(ids, i);
    assert forall t | t in ids[..i] :: t in ids;
    assert Listed(ids[..i]) + {ids[i]} <= open;
    hide *;
    ListsStep(all, found, stores, open, ring, hash, Listed(ids[..i]), ids[i], q, lib, toFloat);
  }

  /** What all open shards hold is what the one map holds. */
  lemma ListsJoined(all: seq<Document>, sorted: seq<Document>, stores: Stores, open: set<ShardId>, contents: Docs,
                    q: Query, lib: Library, toFloat: ToFloat)
    requires ListsHeld(all, stores, open, q, lib, toFloat) && Joins(stores, open, contents)
    requires multiset(sorted) == multiset(all)
    ensures Engine.Lists(sorted, contents, (d: Document) => Satisfies(q, d.data, lib.tokenize, toFloat))
  {
    hide Satisfies;
    hide HeldBy;
    hide Engine.Holds;
  }

  lemma ListedSnoc(ids: seq<ShardId>, i: nat)
    requires Ascending(ids) && i < |ids|
    ensures Listed(ids[..i + 1]) == Listed(ids[..i]) + {ids[i]} && ids[i] !in Listed(ids[..i])
  {
    assert ids[..i + 1] == ids[..i] + [ids[i]];
    Trichotomy(ids[i], ids[i]);
  }

  /** What opening a shard's files gives. */
  function Opened(files: Stores, s: ShardId, lib: Library): Store {
    if s in files then Apply(files[s], Reopen, lib) else EMPTY
  }

  lemma OpenedKeepsDocs(files: Stores, s: ShardId, lib: Library)
    requires StoresOk(files, lib)
    ensures var r := Opened(files, s, lib);
            StoreOk(r, lib) && Exact(r, lib) && r.docs == DocsAt(files, s)
  {
    hide Recover;
    hide Follow;
    EmptySound(lib);
  }

  /** Some shards have been opened, each with its documents and an exact index. */
  ghost predicate OpenedSome(stores: Stores, files: Stores, done: set<ShardId>, lib: Library) {
    && StoresOk(stores, lib) && SameDocs(stores, files) && ExactOn(stores, done, lib)
    && forall s :: s in stores <==> s in files || s in done
  }

  /** `open_engines`: opens every shard's files. */
  method OpenAll(files: Stores, shards: set<ShardId>, lib: Library) returns (stores: Stores)
    requires StoresOk(files, lib)
    ensures OpenedSome(stores, files, shards, lib)
  {
    assert OpenedSome(files, files, {}, lib);
    hide *;
    stores := files;
    var left := shards;
    ghost var done: set<ShardId> := {};
    while left != {}
      invariant done + left == shards && OpenedSome(stores, files, done, lib)
      decreases |left|
    {
      var s :| s in left;
      OpenStep(stores, files, done, s, lib);
      stores := stores[s := Opened(stores, s, lib)];
      left, done := left - {s}, done + {s};
    }
  }

  /** Every shard has the documents that its files had. */
  ghost predicate SameDocs(stores: Stores, files: Stores) {
    forall s | s in stores :: stores[s].docs == DocsAt(files, s)
  }

  lemma OpenStep(stores: Stores, files: Stores, done: set<ShardId>, s: ShardId, lib: Library)
    requires OpenedSome(stores, files, done, lib)
    ensures OpenedSome(stores[s := Opened(stores, s, lib)], files, done + {s}, lib)
  {
    hide Exact;
    hide Sound;
    hide Opened;
    OpenedKeepsDocs(stores, s, lib);
  }

  class Router {
    const shards: set<ShardId>
    const nodes: nat
    const hash: Hash
    const lib: Library
    const toFloat: ToFloat
    var ring: Ring
    /** Every shard's store on disk, and which shards have an open engine. */
    var stores: Stores
    var engines: set<ShardId>
    /** The documents of all open shards, as one map. */
    ghost var contents: Docs

    ghost predicate Open()
      reads this
    {
      && LawfulLibrary(lib) && StoresOk(stores, lib)
      && shards <= engines <= stores.Keys && RingOf(ring, shards, nodes, hash)
    }

    ghost predicate Valid()
      reads this
    {
      Open() && Placed(stores, engines, ring, hash) && Joins(stores, engines, contents)
    }

    /** Every open shard's index is exact. */
    ghost predicate Indexed()
      reads this
    {
      ExactOn(stores, engines, lib)
    }

    /** Builds the ring and opens every shard; the files may come from earlier runs. */
    constructor (shards: set<ShardId>, nodes: nat, hash: Hash, lib: Library, toFloat: ToFloat, files: Stores,
                 ghost held: Docs)
      requires LawfulLibrary(lib) && StoresOk(files, lib)
      ensures this.shards == shards && this.nodes == nodes && this.hash == hash && this.lib == lib
      ensures this.toFloat == toFloat
      ensures Open() && engines == shards && contents == held
      ensures SameDocs(stores, files) && forall s :: s in stores <==> s in files || s in shards
      ensures files == map[] && held == map[] ==> Valid()
      ensures Indexed()
    {
      var built := BuildRing(shards, nodes, hash);
      var opened' := OpenAll(files, shards, lib);
      this.shards, this.nodes, this.hash, this.lib, this.toFloat := shards, nodes, hash, lib, toFloat;
      ring, stores, engines, contents := built, opened', shards, held;
    }

    /** The ring names an open shard, and what that holds under the id is what the one map holds. */
    lemma AtHome(id: string)
      requires Valid() && ring != map[]
      ensures var home := Target(ring, hash(id));
        && home.Some? && home.value in engines && home.value in stores
        && (id in contents <==> id in stores[home.value].docs)
        && (id in contents ==> contents[id] == stores[home.value].docs[id])
    {
      SuccessorExists(ring, hash(id));
      var s := Target(ring, hash(id)).value;
      OnlyAtHome(stores, engines, ring, hash, contents, s, id);
    }

    /** In the shard named for the given id, the insert overwrites tokens if and only if it overwrites
        the one map's. */
    lemma CleanAtHome(doc: Document, newId: string, time: int)
      requires Valid() && ring != map[] && Target(ring, hash(doc.id)).Some?
      requires var s := Target(ring, hash(doc.id)).value; s in stores && s in engines
      ensures var s, d := Target(ring, hash(doc.id)).value, Stored(doc, newId);
        Clean(stores[s], EngineStore.Insert(doc, newId, time), lib)
        <==> (Target(ring, hash(d.id)) == Some(s) && d.id in contents ==>
                TokensOf(contents[d.id], lib) <= TokensOf(d, lib))
    {
      var s, d := Target(ring, hash(doc.id)).value, Stored(doc, newId);
      if Target(ring, hash(d.id)) == Some(s) {
        AtHome(d.id);
      } else {
        assert d.id !in stores[s].docs;
      }
    }

    /** Inserts into the shard named for the id given, even when that is empty and a new id is
        generated. The document is where the ring names it if and only if its id was given or the
        generated id goes to the same shard as the empty one. */
    method Insert(doc: Document, newId: string, time: int) returns (r: Result<string, RouterError>)
      requires Valid() && newId != ""
      modifies this
      ensures Open() && ring == old(ring) && engines == old(engines)
      ensures r.Err? <==> ring == map[]
      ensures r.Err? ==> Valid() && contents == old(contents) && stores == old(stores)
      ensures r.Ok? ==>
        && r.value == Stored(doc, newId).id
        && (Placed(stores, engines, ring, hash) <==> doc.id != "" || Target(ring, hash(newId)) == Target(ring, hash("")))
        && (Placed(stores, engines, ring, hash) ==>
              Valid() && contents == old(contents)[r.value := Stored(doc, newId)])
      ensures r.Err? && old(Indexed()) ==> Indexed()
      ensures r.Ok? && old(Indexed()) ==>
        (Indexed() <==> (Placed(stores, engines, ring, hash) && r.value in old(contents) ==>
                           TokensOf(old(contents)[r.value], lib) <= TokensOf(Stored(doc, newId), lib)))
    {
      hide Sound;
      hide RingOf;
      hide StoresOk;
      hide Placed;
      hide Joins;
      hide ExactOn;
      hide Clean;
      hide TokensOf;
      var home := ShardFor(ring, doc.id, hash);
      if home.None? {
        return Err(NoShards);
      }
      AtHome(doc.id);
      if home.value !in engines {
        return Err(NotOpen);
      }
      var s := home.value;
      ghost var d := Stored(doc, newId);
      StoreKept(stores, s, EngineStore.Insert(doc, newId, time), lib);
      ExactKept(stores, engines, s, EngineStore.Insert(doc, newId, time), lib);
      CleanAtHome(doc, newId, time);
      var next := InsertDoc(stores[s], doc, newId, time, lib);
      if Target(ring, hash(d.id)) == Some(s) {
        PutKeeps(stores, engines, ring, hash, contents, s, d, next, lib);
      } else {
        Misplaced(stores[s := next], engines, ring, hash, s, d.id);
      }
      stores := stores[s := next];
      contents := contents[d.id := d];
      return Ok(if doc.id == "" then newId else doc.id);
    }

    /** The same as looking the id up in one map. */
    method Get(id: string) returns (r: Option<Document>)
      requires Valid()
      ensures r == if id in contents then Some(contents[id]) else None
    {
      hide Sound;
      hide RingOf;
      hide StoresOk;
      hide Placed;
      hide Joins;
      var home := ShardFor(ring, id, hash);
      if home.None? {
        NothingWithoutRing();
        return None;
      }
      AtHome(id);
      if home.value !in engines || id !in stores[home.value].docs {
        return None;
      }
      return Some(stores[home.value].docs[id]);
    }

    lemma NothingWithoutRing()
      requires Valid() && ring == map[]
      ensures contents == map[]
    {
      forall id ensures id !in contents {
        if id in contents {
          HomeExists(id);
        }
      }
    }

    lemma HomeExists(id: string)
      requires Valid() && id in contents
      ensures Target(ring, hash(id)).Some?
    {
      hide RingOf;
      hide StoresOk;
      assert Engine.Holds(contents, contents[id]);
      var s :| s in engines && s in stores && Engine.Holds(stores[s].docs, contents[id]);
    }

    /** The same as updating one map. */
    method Update(id: string, data: Value, time: int) returns (r: Option<RouterError>)
      requires Valid()
      modifies this
      ensures Valid() && ring == old(ring) && engines == old(engines)
      ensures r == if ring == map[] then Some(NoShards) else if id in old(contents) then None else Some(NotFound)
      ensures contents == if id in old(contents) then old(contents)[id := old(contents)[id].(data := data)]
                          else old(contents)
      ensures old(Indexed()) ==> Indexed()
    {
      hide Sound;
      hide RingOf;
      hide StoresOk;
      hide Placed;
      hide Joins;
      var home := ShardFor(ring, id, hash);
      if home.None? {
        NothingWithoutRing();
        return Some(NoShards);
      }
      AtHome(id);
      if home.value !in engines {
        return Some(NotOpen);
      }
      var s := home.value;
      if id !in stores[s].docs {
        return Some(NotFound);
      }
      StoreKept(stores, s, EngineStore.Update(id, data, time), lib);
      ExactKept(stores, engines, s, EngineStore.Update(id, data, time), lib);
      var next := UpdateDoc(stores[s], id, data, time, lib);
      ghost var d := stores[s].docs[id].(data := data);
      KeyedStores(stores, lib);
      PutKeeps(stores, engines, ring, hash, contents, s, d, next, lib);
      stores := stores[s := next];
      contents := contents[id := d];
      return None;
    }

    /** The same as removing from one map. */
    method Delete(id: string, time: int) returns (r: Option<RouterError>)
      requires Valid()
      modifies this
      ensures Valid() && ring == old(ring) && engines == old(engines)
      ensures r == if ring == map[] then Some(NoShards) else if id in old(contents) then None else Some(NotFound)
      ensures contents == old(contents) - {id}
      ensures old(Indexed()) ==> Indexed()
    {
      hide Sound;
      hide RingOf;
      hide StoresOk;
      hide Placed;
      hide Joins;
      var home := ShardFor(ring, id, hash);
      if home.None? {
        NothingWithoutRing();
        return Some(NoShards);
      }
      AtHome(id);
      if home.value !in engines {
        return Some(NotOpen);
      }
      var s := home.value;
      if id !in stores[s].docs {
        return Some(NotFound);
      }
      StoreKept(stores, s, EngineStore.Delete(id, time), lib);
      ExactKept(stores, engines, s, EngineStore.Delete(id, time), lib);
      var next := DeleteDoc(stores[s], id, time, lib);
      DropKeeps(stores, engines, ring, hash, contents, s, id, next, lib);
      stores := stores[s := next];
      contents := contents - {id};
      return None;
    }

    /** When every shard's index is exact: the documents of the one map that satisfy the query,
        each once, sorted by id. */
    method QueryAll(q: Query) returns (r: Engine.QueryResult)
      requires Valid()
      ensures r.count == |r.documents| && SortedById(r.documents)
      ensures Indexed() ==>
                Engine.Lists(r.documents, contents, (d: Document) => Satisfies(q, d.data, lib.tokenize, toFloat))
    {
      hide Sound;
      hide Satisfies;
      hide PostingsOf;
      hide RingOf;
      hide Placed;
      hide Joins;
      hide IndexOf;
      hide ExactOn;
      hide ListsHeld;
      hide Engine.Lists;
      hide SortedById;
      hide Listed;
      var all: seq<Document> := [];
      var ids := Sorted(engines);
      ghost var exact := Indexed();
      ListedIs(ids, engines);
      NothingHeld(stores, ids, q, lib, toFloat);
      for i := 0 to |ids|
        invariant exact ==> ListsHeld(all, stores, Listed(ids[..i]), q, lib, toFloat)
      {
        var s := ids[i];
        ListedAt(ids, engines, i);
        KeyedStores(stores, lib);
        PostingsRelation(stores[s].pairs);
        var found := Engine.RunQuery(q, stores[s].docs, PostingsOf(stores[s].pairs), lib, toFloat);
        if exact {
          ExactAt(stores, engines, s, lib);
          ListsNext(all, found.documents, stores, engines, ring, hash, ids, i, q, lib, toFloat);
        }
        all := all + found.documents;
      }
      assert ids[..|ids|] == ids;
      var sorted := SortById(all);
      if exact {
        ListsJoined(all, sorted, stores, engines, contents, q, lib, toFloat);
      }
      return Engine.QueryResult(sorted, |sorted|);
    }

    /** Documents are at home, or pending and due at the target. */
    ghost predicate Settling(target: ShardId, pending: set<ShardId>)
      reads this
    {
      Open() && Drifting(stores, engines, ring, hash, contents, target, pending)
    }

    /** When no shard is pending any more, the router is placed again. */
    lemma Settled(target: ShardId)
      requires Settling(target, {})
      ensures Valid()
    {
      SettledIsPlaced(stores, engines, ring, hash, contents, target);
    }

    /** Moves the documents of one shard that the ring sends to another; fails if and only if the
        source has no files. From a router whose shards `pending` have documents due at the target,
        it settles the source and keeps the one map. */
    method Rebalance(source: ShardId, target: ShardId, time: int, ghost pending: set<ShardId>)
      returns (r: Result<nat, RouterError>)
      requires Open() && source != target
      modifies this
      ensures Open() && ring == old(ring) && contents == old(contents)
      ensures r.Err? <==> source !in old(stores)
      ensures r.Err? ==> stores == old(stores) && engines == old(engines)
      ensures r.Ok? ==> Rebalances(old(stores), stores, source, target, ring, hash, r.value)
      ensures r.Ok? ==> engines == old(engines) + if r.value > 0 then {target} else {}
      ensures old(Settling(target, pending)) && source in pending && r.Ok? ==> Settling(target, pending - {source})
      ensures r.Ok? && old(Indexed()) ==>
        var s, t := DocsAt(old(stores), source), DocsAt(old(stores), target);
        Indexed() <==> NoTokenLost(t, s, Moving(s, ring, hash, target), lib)
    {
      hide ExactOn;
      hide Exact;
      hide NoTokenLost;
      hide MovedPairs;
      hide LawfulLibrary;
      hide Moving;
      hide RingOf;
      hide StoreOk;
      hide StoresOk;
      hide Apply;
      hide Opened;
      hide Overlaid;
      hide Drifting;
      hide Rebalances;
      if source !in stores {
        return Err(SourceMissing);
      }
      OpenedKeepsDocs(stores, source, lib);
      OpenedKeepsDocs(stores, target, lib);
      StoreAt(stores, target, lib);
      var from := Opened(stores, source, lib);
      var ready := if target in engines then stores[target] else Opened(stores, target, lib);
      var src, tgt, moved := MoveDocs(from, ready, ring, hash, target, time, lib);
      ReopenKeepsDocs(src, lib);
      var kept := if source in engines then Apply(src, Reopen, lib) else src;
      var after := Rebalanced(stores, source, target, kept, tgt, moved);
      RebalancedOk(stores, source, target, kept, tgt, moved, lib);
      RebalanceResult(stores, source, target, kept, tgt, moved, ring, hash);
      hide Rebalanced;
      ghost var s := DocsAt(stores, source);
      ghost var moving := Moving(s, ring, hash, target);
      assert ready.docs == DocsAt(stores, target) && (target in engines ==> ready == stores[target]);
      hide DocsAt;
      RebalanceIndexIff(stores, engines, source, target, ready, kept, tgt, s, moving, lib);
      if Settling(target, pending) && source in pending {
        RebalanceSettles(stores, after, engines, ring, hash, contents, source, target, pending, moved, lib);
      }
      stores := after;
      if moved > 0 {
        engines := engines + {target};
      }
      return Ok(moved);
    }
  }

  lemma StoreAt(stores: Stores, s: ShardId, lib: Library)
    requires StoresOk(stores, lib)
    ensures s in stores ==> StoreOk(stores[s], lib)
  {
  }

  /** After a rebalance the open shards' indexes are exact when the source's and the target's are. */
  lemma RebalancedExact(stores: Stores, open: set<ShardId>, source: ShardId, target: ShardId, kept: Store, tgt: Store,
                        moved: nat, lost: bool, lib: Library)
    requires ExactOn(stores, open, lib) && source != target && (source in open ==> Exact(kept, lib))
    requires moved > 0 ==> (Exact(tgt, lib) <==> !lost)
    requires moved == 0 ==> !lost
    ensures var open' := open + if moved > 0 then {target} else {};
      ExactOn(Rebalanced(stores, source, target, kept, tgt, moved), open', lib) <==> !lost
  {
    hide Exact;
    var after := Rebalanced(stores, source, target, kept, tgt, moved);
    if moved > 0 {
      assert after[target] == tgt && target in after;
    }
  }

  /** The target of a rebalance that moves documents into it. */
  lemma TargetExactIff(ready: Store, tgt: Store, source: Docs, moving: set<string>, lib: Library)
    requires Exact(ready, lib) && Overlaid(tgt.docs, ready.docs, source, moving)
    requires tgt.pairs == ready.pairs + MovedPairs(source, moving, lib)
    ensures Exact(tgt, lib) <==> NoTokenLost(ready.docs, source, moving, lib)
    ensures moving == {} ==> NoTokenLost(ready.docs, source, moving, lib)
  {
    hide IndexOf;
    MovedExactIff(ready.docs, tgt.docs, source, moving, lib);
  }

  lemma RebalanceIndexIff(stores: Stores, open: set<ShardId>, source: ShardId, target: ShardId, ready: Store,
                          kept: Store, tgt: Store, s: Docs, moving: set<string>, lib: Library)
    requires source != target && open <= stores.Keys && (source in open ==> Exact(kept, lib))
    requires if target in open then ready == stores[target] else Exact(ready, lib)
    requires Overlaid(tgt.docs, ready.docs, s, moving)
    requires tgt.pairs == ready.pairs + MovedPairs(s, moving, lib)
    ensures ExactOn(stores, open, lib) ==>
      (ExactOn(Rebalanced(stores, source, target, kept, tgt, |moving|), open + (if |moving| > 0 then {target} else {}), lib)
       <==> NoTokenLost(ready.docs, s, moving, lib))
  {
    hide Exact;
    if ExactOn(stores, open, lib) {
      hide Rebalanced;
      hide MovedPairs;
      hide NoTokenLost;
      TargetExactIff(ready, tgt, s, moving, lib);
      assert |moving| == 0 ==> moving == {};
      RebalancedExact(stores, open, source, target, kept, tgt, |moving|, !NoTokenLost(ready.docs, s, moving, lib), lib);
    }
  }

  /** The target is opened with the first document it gets. */
  function Rebalanced(stores: Stores, source: ShardId, target: ShardId, kept: Store, tgt: Store, moved: nat): Stores {
    (if moved > 0 then stores[target := tgt] else stores)[source := kept]
  }

  lemma RebalancedOk(stores: Stores, source: ShardId, target: ShardId, kept: Store, tgt: Store, moved: nat, lib: Library)
    requires StoresOk(stores, lib) && StoreOk(kept, lib) && StoreOk(tgt, lib)
    ensures var after := Rebalanced(stores, source, target, kept, tgt, moved);
            && StoresOk(after, lib) && (moved > 0 ==> target in after) && forall u | u in stores :: u in after
  {
    hide StoreOk;
  }

  lemma RebalancedAt(stores: Stores, source: ShardId, target: ShardId, kept: Store, tgt: Store, moved: nat, u: ShardId)
    requires source != target
    ensures DocsAt(Rebalanced(stores, source, target, kept, tgt, moved), u)
         == if u == source then kept.docs else if u == target && moved > 0 then tgt.docs else DocsAt(stores, u)
  {
  }

  lemma RebalancedDocs(s: Docs, t: Docs, kept: Docs, tgt: Docs, moved: nat, ring: Ring, hash: Hash, target: ShardId)
    requires var moving := Moving(s, ring, hash, target);
             moved == |moving| && kept == s - moving && Overlaid(tgt, t, s, moving)
    ensures Overlaid(if moved > 0 then tgt else t, t, s, Moving(s, ring, hash, target))
    ensures moved > 0 <==> Moving(s, ring, hash, target) != {}
    ensures forall id | id in kept :: Target(ring, hash(id)) != Some(target)
  {
    hide Overlaid;
    assert moved > 0 <==> Moving(s, ring, hash, target) != {};
    OverlaidNothing(s, t);
  }

  /** What the shards hold after a rebalance: the documents the ring sends from the source to the
      target have moved there, over what the target had under their ids, and nothing else changed. */
  ghost predicate Rebalances(before: Stores, after: Stores, source: ShardId, target: ShardId,
                             ring: Ring, hash: Hash, moved: nat)
  {
    var s, t := DocsAt(before, source), DocsAt(before, target);
    var moving := Moving(s, ring, hash, target);
    && moved == |moving|
    && DocsAt(after, source) == s - moving
    && Overlaid(DocsAt(after, target), t, s, moving)
    && (forall id | id in DocsAt(after, source) :: Target(ring, hash(id)) != Some(target))
    && (forall u | u != source && u != target :: DocsAt(after, u) == DocsAt(before, u))
  }

  lemma RebalanceResult(stores: Stores, source: ShardId, target: ShardId, kept: Store, tgt: Store, moved: nat,
                        ring: Ring, hash: Hash)
    requires source != target
    requires var s, t := DocsAt(stores, source), DocsAt(stores, target);
             var moving := Moving(s, ring, hash, target);
             moved == |moving| && kept.docs == s - moving && Overlaid(tgt.docs, t, s, moving)
    ensures Rebalances(stores, Rebalanced(stores, source, target, kept, tgt, moved), source, target, ring, hash, moved)
  {
    hide Rebalanced;
    hide Overlaid;
    hide DocsAt;
    RebalancedDocs(DocsAt(stores, source), DocsAt(stores, target), kept.docs, tgt.docs, moved, ring, hash, target);
    forall u
      ensures DocsAt(Rebalanced(stores, source, target, kept, tgt, moved), u)
           == if u == source then kept.docs else if u == target && moved > 0 then tgt.docs else DocsAt(stores, u)
    {
      RebalancedAt(stores, source, target, kept, tgt, moved, u);
    }
    hide Moving;
  }

  lemma OverlaidNothing(s: Docs, t: Docs)
    ensures Overlaid(t, t, s, {})
  {
  }

  lemma ReopenKeepsDocs(st: Store, lib: Library)
    requires StoreOk(st, lib)
    ensures var r := Apply(st, Reopen, lib); StoreOk(r, lib) && Exact(r, lib) && r.docs == st.docs
  {
    hide Recover;
    hide Follow;
  }

  lemma Misplaced(stores: Stores, open: set<ShardId>, ring: Ring, hash: Hash, s: ShardId, id: string)
    requires s in open && s in stores && id in stores[s].docs && Target(ring, hash(id)) != Some(s)
    ensures !Placed(stores, open, ring, hash)
  {
  }
}
