/** The consistent-hash ring. The hash is an arbitrary function, so points may collide. */
module ShardRing {
  import opened Options
  import opened StringOrder

  type ShardId = string

  type Hash = string -> nat

  /** From points to shards. */
  type Ring = map<nat, ShardId>

  function Digit(n: nat): char
    requires n < 10
  {
    "0123456789"[n]
  }

  function Decimal(n: nat): string {
    if n < 10 then [Digit(n)] else Decimal(n / 10) + [Digit(n % 10)]
  }

  /** Where virtual node v of a shard lies. */
  function Point(shard: ShardId, v: nat, hash: Hash): nat {
    hash(shard + "#" + Decimal(v))
  }

  ghost predicate HasPoint(shard: ShardId, nodes: nat, hash: Hash, p: nat) {
    exists v: nat | v < nodes :: Point(shard, v, hash) == p
  }

  /** The ring of a set of shards: at every point of one of them, the last shard in order. */
  ghost predicate RingOf(ring: Ring, shards: set<ShardId>, nodes: nat, hash: Hash) {
    && (forall p | p in ring :: ring[p] in shards && HasPoint(ring[p], nodes, hash, p))
    && (forall s, p | s in shards && HasPoint(s, nodes, hash, p) :: p in ring && AtMost(s, ring[p]))
  }

  function Listed(ids: seq<ShardId>): set<ShardId> {
    set s | s in ids
  }

  /** The loops of `ShardRouter::new`: shards in ascending order, later ones overwriting. */
  method BuildRing(shards: set<ShardId>, nodes: nat, hash: Hash) returns (ring: Ring)
    ensures RingOf(ring, shards, nodes, hash)
  {
    ring := map[];
    var ids := Sorted(shards);
    assert ids[..0] == [];
    for i := 0 to |ids|
      invariant RingOf(ring, Listed(ids[..i]), nodes, hash)
    {
      ghost var was, before := ring, Listed(ids[..i]);
      for v := 0 to nodes
        invariant forall p | p in ring ::
          if HasPoint(ids[i], v, hash, p) then ring[p] == ids[i] else p in was && ring[p] == was[p]
        invariant forall p | p in was || HasPoint(ids[i], v, hash, p) :: p in ring
      {
        var h := Point(ids[i], v, hash);
        OneMoreNode(ids[i], v, hash);
        ring := ring[h := ids[i]];
      }
      forall s | s in before ensures AtMost(s, ids[i]) {
        var j :| 0 <= j < i && ids[j] == s;
      }
      assert Listed(ids[..i + 1]) == before + {ids[i]};
    }
    assert Listed(ids[..|ids|]) == shards;
  }

  lemma OneMoreNode(shard: ShardId, v: nat, hash: Hash)
    ensures forall p :: HasPoint(shard, v + 1, hash, p) <==> HasPoint(shard, v, hash, p) || p == Point(shard, v, hash)
  {
  }

  // ---------- Looking up ----------

  /** The first point at or after h, or else the first of all. */
  ghost predicate IsSuccessor(ring: Ring, h: nat, p: nat) {
    && p in ring
    && (if h <= p then forall q | q in ring && h <= q :: p <= q
        else forall q | q in ring :: q < h && p <= q)
  }

  lemma SuccessorUnique(ring: Ring, h: nat, p: nat, q: nat)
    requires IsSuccessor(ring, h, p) && IsSuccessor(ring, h, q)
    ensures p == q
  {
  }

  /** The least of a set of points. */
  method LeastPoint(points: set<nat>) returns (p: nat)
    requires points != {}
    ensures p in points && forall q | q in points :: p <= q
  {
    p :| p in points;
    var left := points;
    while left != {}
      invariant left <= points && p in points && forall q | q in points && q !in left :: p <= q
      decreases |left|
    {
      var q :| q in left;
      left := left - {q};
      if q < p {
        p := q;
      }
    }
  }

  lemma {:induction false} LeastExists(points: set<nat>) returns (p: nat)
    requires points != {}
    ensures p in points && forall q | q in points :: p <= q
  {
    p :| p in points;
    var others := points - {p};
    assert forall q | q in points :: q == p || q in others;
    if others != {} {
      var q := LeastExists(others);
      p := if q < p then q else p;
    }
  }

  /** The points from the hash on. */
  function From(ring: Ring, h: nat): (after: set<nat>)
    ensures forall q :: q in after <==> q in ring && h <= q
  {
    set p | p in ring && h <= p
  }

  lemma SomePoint(ring: Ring)
    requires ring != map[]
    ensures ring.Keys != {}
  {
    var p :| p in ring;
  }

  lemma SuccessorExists(ring: Ring, h: nat)
    requires ring != map[]
    ensures exists p :: IsSuccessor(ring, h, p)
  {
    SomePoint(ring);
    var after := From(ring, h);
    var p := LeastExists(if after != {} then after else ring.Keys);
    SuccessorIsLeast(ring, h, p);
  }

  lemma SuccessorIsLeast(ring: Ring, h: nat, p: nat)
    requires var after := From(ring, h);
             var points := if after != {} then after else ring.Keys;
             p in points && forall q | q in points :: p <= q
    ensures IsSuccessor(ring, h, p)
  {
    var after := From(ring, h);
    if after == {} {
      forall q | q in ring ensures q < h && p <= q {
        assert q !in after && q in ring.Keys;
      }
    } else {
      forall q | q in ring && h <= q ensures p <= q {
        assert q in after;
      }
    }
  }

  /** The shard a hash goes to: none if and only if the ring is empty. */
  ghost function Target(ring: Ring, h: nat): (r: Option<ShardId>)
    ensures r.None? <==> ring == map[]
    ensures forall p | IsSuccessor(ring, h, p) :: r == Some(ring[p])
  {
    if ring == map[] then None
    else
      SuccessorExists(ring, h);
      var p :| IsSuccessor(ring, h, p);
      assert forall q | IsSuccessor(ring, h, q) :: p == q by {
        forall q | IsSuccessor(ring, h, q) ensures p == q {
          SuccessorUnique(ring, h, p, q);
        }
      }
      Some(ring[p])
  }

  /** `shard_for`: the first point from the hash on, else the first point of the ring. */
  method ShardFor(ring: Ring, id: string, hash: Hash) returns (r: Option<ShardId>)
    ensures r == Target(ring, hash(id))
  {
    if ring == map[] {
      return None;
    }
    var h := hash(id);
    SomePoint(ring);
    var after := From(ring, h);
    var p := LeastPoint(if after != {} then after else ring.Keys);
    SuccessorIsLeast(ring, h, p);
    return Some(ring[p]);
  }

  // ---------- Minimal disruption ----------

  /** The points and owners of a ring with one more shard. */
  lemma OneMoreShard(ring: Ring, more: Ring, shards: set<ShardId>, s: ShardId, nodes: nat, hash: Hash)
    requires RingOf(ring, shards, nodes, hash) && RingOf(more, shards + {s}, nodes, hash)
    ensures forall p | p in ring :: p in more
    ensures forall p | p in more && more[p] != s :: p in ring && ring[p] == more[p]
  {
    forall p | p in more && more[p] != s ensures p in ring && ring[p] == more[p] {
      Trichotomy(more[p], ring[p]);
    }
  }

  /** Building the ring with one shard more sends every hash to where it went or to that shard. */
  lemma AddingMovesOnlyToNew(ring: Ring, more: Ring, shards: set<ShardId>, s: ShardId, nodes: nat, hash: Hash, h: nat)
    requires RingOf(ring, shards, nodes, hash) && RingOf(more, shards + {s}, nodes, hash)
    ensures Target(more, h) == Target(ring, h) || Target(more, h) == Some(s)
  {
    OneMoreShard(ring, more, shards, s, nodes, hash);
    if more == map[] {
      assert forall p :: p !in ring;
      assert ring == map[];
    } else {
      SuccessorExists(more, h);
      var p :| IsSuccessor(more, h, p);
      if more[p] != s {
        forall q | q in ring ensures q in more {
        }
        assert h <= p ==> forall q | q in ring && h <= q :: p <= q;
        assert IsSuccessor(ring, h, p);
      }
    }
  }

  /** Building the ring without a shard moves only what was on it. */
  lemma RemovingMovesOnlyItsOwn(ring: Ring, less: Ring, shards: set<ShardId>, s: ShardId, nodes: nat, hash: Hash, h: nat)
    requires s in shards
    requires RingOf(ring, shards, nodes, hash) && RingOf(less, shards - {s}, nodes, hash)
    ensures Target(ring, h) != Some(s) ==> Target(less, h) == Target(ring, h)
  {
    assert shards - {s} + {s} == shards;
    AddingMovesOnlyToNew(less, ring, shards - {s}, s, nodes, hash, h);
  }
}
