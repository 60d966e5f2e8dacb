/** What a rebalance does to the documents and the indexes of two shards. */
module ShardMoves {
  import opened Options
  import opened Documents
  import opened EngineStore
  import opened ShardRing
  import Index

  /** A store that a run of its engine reaches, without a document under the empty id. */
  ghost predicate StoreOk(st: Store, lib: Library) {
    Sound(st, lib) && "" !in st.docs
  }

  /** A store whose engine ran one more operation, which leaves no document under the empty id. */
  lemma OneStoreKept(st: Store, op: EngineStore.Op, lib: Library)
    requires LawfulLibrary(lib) && StoreOk(st, lib)
    requires op.Insert? ==> Stored(op.doc, op.newId).id != ""
    ensures StoreOk(Apply(st, op, lib), lib)
  {
    hide Recover;
    hide Follow;
    hide IndexOf;
    ApplyKeeps(st, op, lib);
  }

  // ---------- Rebalancing ----------

  /** The documents of a shard that the ring now sends to another. */
  ghost function Moving(docs: Docs, ring: Ring, hash: Hash, target: ShardId): set<string> {
    set id | id in docs && Target(ring, hash(id)) == Some(target)
  }

  /** `after` is `before` overlaid with those documents of `from` whose ids are in `moved`. */
  ghost predicate Overlaid(after: Docs, before: Docs, source: Docs, moved: set<string>) {
    && after.Keys == before.Keys + moved && moved <= source.Keys
    && (forall id | id in moved :: after[id] == source[id])
    && (forall id | id in before && id !in moved :: after[id] == before[id])
  }

  /** Two shards before and after moving documents keep their number of documents if and only if
      the target held none of the moved ids; they keep the same documents if and only if the
      target held no other document under a moved id. */
  lemma ConservedIff(s: Docs, t: Docs, s': Docs, t': Docs, moved: set<string>)
    requires moved <= s.Keys && s' == s - moved && Overlaid(t', t, s, moved)
    ensures |s'| + |t'| == |s| + |t| <==> moved !! t.Keys
    ensures s'.Items + t'.Items == s.Items + t.Items <==> forall id | id in moved && id in t :: t[id] == s[id]
  {
    CountConserved(s, t, s', t', moved);
    if id :| id in moved && id in t && t[id] != s[id] {
      assert (id, t[id]) in t.Items && (id, t[id]) !in s'.Items && (id, t[id]) !in t'.Items;
    } else {
      ItemsConserved(s, t, s', t', moved);
    }
  }

  lemma CountConserved(s: Docs, t: Docs, s': Docs, t': Docs, moved: set<string>)
    requires moved <= s.Keys && s' == s - moved && Overlaid(t', t, s, moved)
    ensures |s'| + |t'| == |s| + |t| <==> moved !! t.Keys
  {
    assert s'.Keys == s.Keys - moved;
    assert |s'.Keys| == |s.Keys| - |moved| && |t.Keys + moved| == |t.Keys| + |moved| - |t.Keys * moved|;
    assert |s'.Keys| == |s'| && |t'.Keys| == |t'| && |s.Keys| == |s| && |t.Keys| == |t|;
  }

  lemma ItemsConserved(s: Docs, t: Docs, s': Docs, t': Docs, moved: set<string>)
    requires moved <= s.Keys && s' == s - moved && Overlaid(t', t, s, moved)
    requires forall id | id in moved && id in t :: t[id] == s[id]
    ensures s'.Items + t'.Items == s.Items + t.Items
  {
    forall x ensures x in s'.Items + t'.Items <==> x in s.Items + t.Items {
      var id, d := x.0, x.1;
      assert x == (id, d);
      assert x in s.Items <==> id in s && s[id] == d;
      assert x in t.Items <==> id in t && t[id] == d;
      assert x in s'.Items <==> id in s' && s'[id] == d;
      assert x in t'.Items <==> id in t' && t'[id] == d;
    }
  }

  /** The pairs that moved documents bring along. */
  ghost function MovedPairs(source: Docs, moved: set<string>, lib: Library): Index.Pairs {
    set id, t | id in source && id in moved && t in TokensOf(source[id], lib) :: (t, id)
  }

  /** No moved document takes the place of one with a token it lacks. */
  ghost predicate NoTokenLost(before: Docs, source: Docs, moved: set<string>, lib: Library) {
    forall id | id in moved && id in before && id in source :: TokensOf(before[id], lib) <= TokensOf(source[id], lib)
  }

  /** The target's index stays exact if and only if no overwritten document has a token that the
      moved one lacks, because inserting takes no tokens out. */
  lemma MovedExactIff(before: Docs, after: Docs, source: Docs, moved: set<string>, lib: Library)
    requires Overlaid(after, before, source, moved)
    ensures IndexOf(before, lib) + MovedPairs(source, moved, lib) == IndexOf(after, lib)
       <==> NoTokenLost(before, source, moved, lib)
  {
    var all := IndexOf(before, lib) + MovedPairs(source, moved, lib);
    forall t, id
      ensures (t, id) in all <==> (t, id) in IndexOf(before, lib) || (id in moved && t in TokensOf(source[id], lib))
      ensures (t, id) in IndexOf(before, lib) <==> id in before && t in TokensOf(before[id], lib)
      ensures (t, id) in IndexOf(after, lib) <==> id in after && t in TokensOf(after[id], lib)
    {
      IndexHas(before, lib, t, id);
      IndexHas(after, lib, t, id);
    }
    if NoTokenLost(before, source, moved, lib) {
      forall p ensures p in all <==> p in IndexOf(after, lib) {
        assert p == (p.0, p.1);
      }
    } else {
      var id :| id in moved && id in before && !(TokensOf(before[id], lib) <= TokensOf(source[id], lib));
      var t :| t in TokensOf(before[id], lib) && t !in TokensOf(source[id], lib);
      assert (t, id) in all && (t, id) !in IndexOf(after, lib);
    }
  }

  lemma OneMorePair(source: Docs, done: set<string>, id: string, lib: Library)
    requires id in source
    ensures MovedPairs(source, done + {id}, lib)
         == MovedPairs(source, done, lib) + Index.PairsOf(TokensOf(source[id], lib), id)
    ensures MovedPairs(source, {}, lib) == {}
  {
    forall p
      ensures p in MovedPairs(source, done + {id}, lib)
         <==> p in MovedPairs(source, done, lib) + Index.PairsOf(TokensOf(source[id], lib), id)
    {
      assert p == (p.0, p.1);
    }
  }

  /** The loop of `rebalance` over the documents of the source. */
  method MoveDocs(source: Store, ready: Store, ring: Ring, hash: Hash, target: ShardId, time: int, lib: Library)
    returns (src: Store, tgt: Store, moved: nat)
    requires LawfulLibrary(lib) && StoreOk(source, lib) && StoreOk(ready, lib)
    ensures StoreOk(src, lib) && StoreOk(tgt, lib)
    ensures var moving := Moving(source.docs, ring, hash, target);
            && moved == |moving| && src.docs == source.docs - moving
            && Overlaid(tgt.docs, ready.docs, source.docs, moving)
            && tgt.pairs == ready.pairs + MovedPairs(source.docs, moving, lib)
  {
    hide *;
    OwnIds(source, lib);
    NothingMoved(source.docs, ready.docs);
    NoPairsMoved(ready, source.docs, lib);
    src, tgt, moved := source, ready, 0;
    var left := source.docs.Keys;
    ghost var done: set<string> := {};
    while left != {}
      invariant left <= source.docs.Keys
      invariant StoreOk(src, lib) && StoreOk(tgt, lib)
      invariant forall id :: id in done <==> id in source.docs && id !in left && Target(ring, hash(id)) == Some(target)
      invariant moved == |done| && MovedSoFar(src.docs, tgt.docs, source.docs, ready.docs, done)
      invariant PairsMoved(tgt, ready, source.docs, done, lib)
      decreases |left|
    {
      var id :| id in left;
      left := left - {id};
      var d := source.docs[id];
      var home := ShardFor(ring, d.id, hash);
      if home == Some(target) {
        MoveStep(src, tgt, source.docs, ready.docs, done, id, time, lib);
        PairsMovedStep(tgt, ready, source.docs, done, id, time, lib);
        src := DeleteDoc(src, id, time, lib);
        tgt := InsertDoc(tgt, d, "", time, lib);
        moved := moved + 1;
        done := done + {id};
      }
    }
    AllMoved(src.docs, tgt.docs, source.docs, ready.docs, ring, hash, target, done);
    AllPairsMoved(tgt, ready, source.docs, done, lib);
  }

  lemma OwnIds(st: Store, lib: Library)
    requires StoreOk(st, lib)
    ensures forall id | id in st.docs :: st.docs[id].id == id != ""
  {
    hide Recover;
    hide Follow;
    hide IndexOf;
  }

  ghost predicate MovedSoFar(src: Docs, tgt: Docs, source: Docs, ready: Docs, done: set<string>) {
    src == source - done && Overlaid(tgt, ready, source, done)
  }

  ghost predicate PairsMoved(tgt: Store, ready: Store, source: Docs, done: set<string>, lib: Library) {
    tgt.pairs == ready.pairs + MovedPairs(source, done, lib)
  }

  lemma PairsMovedStep(tgt: Store, ready: Store, source: Docs, done: set<string>, id: string, time: int, lib: Library)
    requires PairsMoved(tgt, ready, source, done, lib) && id in source && source[id].id == id != ""
    ensures PairsMoved(InsertDoc(tgt, source[id], "", time, lib), ready, source, done + {id}, lib)
  {
    OneMorePair(source, done, id, lib);
  }

  lemma NoPairsMoved(ready: Store, source: Docs, lib: Library)
    ensures PairsMoved(ready, ready, source, {}, lib)
  {
  }

  lemma AllPairsMoved(tgt: Store, ready: Store, source: Docs, done: set<string>, lib: Library)
    requires PairsMoved(tgt, ready, source, done, lib)
    ensures tgt.pairs == ready.pairs + MovedPairs(source, done, lib)
  {
  }

  lemma NothingMoved(source: Docs, ready: Docs)
    ensures MovedSoFar(source, ready, source, ready, {})
  {
  }

  lemma AllMoved(src: Docs, tgt: Docs, source: Docs, ready: Docs, ring: Ring, hash: Hash, target: ShardId, done: set<string>)
    requires MovedSoFar(src, tgt, source, ready, done)
    requires forall id :: id in done <==> id in source && Target(ring, hash(id)) == Some(target)
    ensures done == Moving(source, ring, hash, target)
    ensures src == source - done && Overlaid(tgt, ready, source, done)
  {
  }

  /** Moving one document. */
  lemma MoveStep(src: Store, tgt: Store, source: Docs, ready: Docs, done: set<string>, id: string, time: int, lib: Library)
    requires LawfulLibrary(lib) && StoreOk(src, lib) && StoreOk(tgt, lib)
    requires MovedSoFar(src.docs, tgt.docs, source, ready, done)
    requires id in source && id !in done && source[id].id == id != ""
    ensures id in src.docs
    ensures StoreOk(DeleteDoc(src, id, time, lib), lib) && StoreOk(InsertDoc(tgt, source[id], "", time, lib), lib)
    ensures MovedSoFar(DeleteDoc(src, id, time, lib).docs, InsertDoc(tgt, source[id], "", time, lib).docs,
                       source, ready, done + {id})
  {
    hide StoreOk;
    OneStoreKept(src, EngineStore.Delete(id, time), lib);
    OneStoreKept(tgt, EngineStore.Insert(source[id], "", time), lib);
    assert source - done - {id} == source - (done + {id});
  }
}
