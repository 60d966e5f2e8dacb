/** The in-memory database: named collections. */
module CassetteDb {
  import opened Options
  import opened Json
  import opened Collections
  import opened CollectionQueries
  import opened CollectionRanges
  import QueryParser

  type Named = map<string, Collection>

  datatype DbError = CollectionNotFound

  function DocumentsOf(cs: Named, name: string): seq<Doc> {
    if name in cs then cs[name].documents else []
  }

  function IndexedFields(cs: Named, name: string): set<string> {
    if name in cs then cs[name].secondary.Keys else {}
  }

  ghost predicate SameElsewhere(before: Named, after: Named, name: string) {
    && after.Keys + {name} == before.Keys + {name}
    && forall n | n in before && n != name :: after[n] == before[n]
  }

  ghost predicate AllOk(cs: Named, lib: Texts) {
    forall name | name in cs :: CollectionOk(cs[name], lib)
  }

  /** The two sides of a filter `key=value`, trimmed, the value also of double quotes. */
  function FilterParts(filter: string): Option<(string, string)> {
    var parts := QueryParser.Split(filter, '=');
    if |parts| != 2 then None
    else Some((QueryParser.Trim(parts[0]), QueryParser.TrimMatches(QueryParser.Trim(parts[1]), QueryParser.IsDoubleQuote)))
  }

  function TombstonesIn(names: seq<string>, cs: Named): nat {
    if names == [] then 0
    else TombstonesIn(names[..|names| - 1], cs) + Tombstones(DocumentsOf(cs, names[|names| - 1]))
  }

  // ---------- Answers ----------

  /** What an equality query answers, with an index, without one, and when it is malformed. */
  function QueryAnswer(documents: seq<Doc>, indexed: set<string>, filter: string, lib: Texts): seq<Doc> {
    var parts := FilterParts(filter);
    if parts.None? then Live(documents)
    else
      var (key, value) := parts.value;
      if key in indexed then Selected(documents, (d: Doc) => KeyOf(d.data, key, lib) == Some(value))
      else EqualScan(documents, key, value)
  }

  /** The lists that are answers to a full-text search: without a token in the query all live
      documents, else each with a token once, by falling score. */
  ghost predicate SearchAnswer(documents: seq<Doc>, query: string, found: seq<Doc>, lib: Texts) {
    var tokens := lib.tokenize(query);
    if tokens == [] then found == Live(documents)
    else EachOnce(found, documents, (d: Doc) => HasToken(d.data, tokens, lib)) && ByFallingScore(found, tokens, lib)
  }

  ghost predicate ByFallingScore(found: seq<Doc>, tokens: seq<string>, lib: Texts) {
    forall i, j | 0 <= i < j < |found| :: Score(found[i].data, tokens, lib) >= Score(found[j].data, tokens, lib)
  }

  /** Every query has the same answers on two lists of documents: `get` and `scan`, `query`,
      `query_range` and `search`. */
  ghost predicate SameAnswers(a: seq<Doc>, b: seq<Doc>, indexed: set<string>, lib: Texts) {
    && (forall id :: FindLive(a, id) == FindLive(b, id)) && Live(a) == Live(b)
    && (forall filter :: QueryAnswer(a, indexed, filter, lib) == QueryAnswer(b, indexed, filter, lib))
    && (forall field, op, value :: RangeScan(a, field, op, value, lib) == RangeScan(b, field, op, value, lib))
    && (forall query, found :: SearchAnswer(a, query, found, lib) <==> SearchAnswer(b, query, found, lib))
  }

  /** Dropping the tombstones changes no answer. */
  lemma CompactKeepsAnswers(documents: seq<Doc>, indexed: set<string>, lib: Texts)
    ensures SameAnswers(documents, Live(documents), indexed, lib)
  {
    LiveOfLive(documents);
    forall id ensures FindLive(documents, id) == FindLive(Live(documents), id) {
      CompactInvisible(documents, (d: Doc) => true, id, Doc("", Null, "", "", false));
    }
    forall filter
      ensures QueryAnswer(documents, indexed, filter, lib) == QueryAnswer(Live(documents), indexed, filter, lib)
    {
      QuerySame(documents, indexed, filter, lib);
    }
    forall field, op, value
      ensures RangeScan(documents, field, op, value, lib) == RangeScan(Live(documents), field, op, value, lib)
    {
      CompactInvisible(documents, (d: Doc) => RangeHolds(d, field, op, value, lib), "", Doc("", Null, "", "", false));
    }
    forall query, found
      ensures SearchAnswer(documents, query, found, lib) <==> SearchAnswer(Live(documents), query, found, lib)
    {
      SearchSame(documents, query, found, lib);
    }
  }

  lemma QuerySame(documents: seq<Doc>, indexed: set<string>, filter: string, lib: Texts)
    ensures QueryAnswer(documents, indexed, filter, lib) == QueryAnswer(Live(documents), indexed, filter, lib)
  {
    hide FilterParts;
    LiveOfLive(documents);
    var parts := FilterParts(filter);
    if parts.Some? {
      var (key, value) := parts.value;
      var any := Doc("", Null, "", "", false);
      CompactInvisible(documents, (d: Doc) => KeyOf(d.data, key, lib) == Some(value), "", any);
      CompactInvisible(documents, (d: Doc) => Get(d.data, key) == Some(Str(value)), "", any);
    }
  }

  lemma SearchSame(documents: seq<Doc>, query: string, found: seq<Doc>, lib: Texts)
    ensures SearchAnswer(documents, query, found, lib) <==> SearchAnswer(Live(documents), query, found, lib)
  {
    hide HasToken;
    hide ByFallingScore;
    LiveOfLive(documents);
    forall d ensures IsLive(Live(documents), d) <==> IsLive(documents, d) {
      CompactInvisible(documents, (e: Doc) => true, "", d);
    }
    hide IsLive;
  }

  lemma EmptyOk(name: string, lib: Texts)
    ensures CollectionOk(Collection(name, [], map[], map[]), lib)
  {
    NothingListed("", lib);
  }

  /** Each collection keeps its live documents, in order, and its indexed fields. */
  ghost predicate Compacted(before: Named, after: Named) {
    forall n | n in after ::
      && DocumentsOf(after, n) == Live(DocumentsOf(before, n))
      && IndexedFields(after, n) == IndexedFields(before, n)
  }

  /** Part of the way through, with these collections left. */
  ghost predicate CompactedBut(before: Named, after: Named, left: set<string>) {
    forall n | n in after ::
      && n in before
      && (n in left ==> after[n] == before[n])
      && (n !in left ==>
            && after[n].documents == Live(before[n].documents)
            && after[n].secondary.Keys == before[n].secondary.Keys)
  }

  lemma CompactStep(before: Named, after: Named, left: set<string>, name: string, c: Collection, lib: Texts)
    requires CompactedBut(before, after, left) && AllOk(after, lib) && name in left && name in after
    requires CollectionOk(c, lib) && c.documents == Live(after[name].documents)
    requires c.secondary.Keys == after[name].secondary.Keys
    ensures CompactedBut(before, after[name := c], left - {name}) && AllOk(after[name := c], lib)
  {
    hide CollectionOk;
  }

  lemma NamesStep(names: seq<string>, left: set<string>, all: set<string>, name: string)
    requires multiset(names) + multiset(left) == multiset(all) && name in left
    ensures multiset(names + [name]) + multiset(left - {name}) == multiset(all)
  {
    assert multiset(left) == multiset(left - {name}) + multiset{name};
  }

  lemma TombstonesSnoc(names: seq<string>, cs: Named, name: string)
    ensures TombstonesIn(names + [name], cs) == TombstonesIn(names, cs) + Tombstones(DocumentsOf(cs, name))
  {
    assert (names + [name])[..|names|] == names;
  }

  /** The loop of `compact` over the collections. */
  /** Part of the way through, with the names done so far and their tombstones counted. */
  ghost predicate Halfway(before: Named, after: Named, left: set<string>, names: seq<string>, removed: nat, lib: Texts) {
    && left <= before.Keys == after.Keys && AllOk(after, lib) && CompactedBut(before, after, left)
    && multiset(names) + multiset(left) == multiset(before.Keys) && removed == TombstonesIn(names, before)
  }

  lemma HalfwayStep(before: Named, after: Named, left: set<string>, names: seq<string>, removed: nat, name: string,
                    c: Collection, dropped: nat, lib: Texts)
    requires Halfway(before, after, left, names, removed, lib) && name in left
    requires CollectionOk(c, lib) && c.documents == Live(after[name].documents)
    requires c.secondary.Keys == after[name].secondary.Keys && dropped == Tombstones(after[name].documents)
    ensures Halfway(before, after[name := c], left - {name}, names + [name], removed + dropped, lib)
  {
    assert after[name] == before[name];
    hide CollectionOk;
    hide CompactedBut;
    hide AllOk;
    hide TombstonesIn;
    CompactStep(before, after, left, name, c, lib);
    NamesStep(names, left, before.Keys, name);
    TombstonesSnoc(names, before, name);
  }

  lemma HalfwayStarts(cs: Named, lib: Texts)
    requires AllOk(cs, lib)
    ensures Halfway(cs, cs, cs.Keys, [], 0, lib)
  {
    TombstonesNone(cs);
  }

  lemma HalfwayEnds(before: Named, after: Named, names: seq<string>, removed: nat, lib: Texts)
    requires Halfway(before, after, {}, names, removed, lib)
    ensures AllOk(after, lib) && after.Keys == before.Keys && Compacted(before, after)
    ensures multiset(names) == multiset(before.Keys) && removed == TombstonesIn(names, before)
  {
  }

  lemma HalfwayOk(before: Named, after: Named, left: set<string>, names: seq<string>, removed: nat, name: string, lib: Texts)
    requires Halfway(before, after, left, names, removed, lib) && name in left
    ensures name in after && CollectionOk(after[name], lib)
  {
    hide CollectionOk;
  }

  method CompactNamed(cs: Named, lib: Texts) returns (after: Named, removed: nat, ghost names: seq<string>)
    requires AllOk(cs, lib)
    ensures AllOk(after, lib) && after.Keys == cs.Keys && Compacted(cs, after)
    ensures multiset(names) == multiset(cs.Keys) && removed == TombstonesIn(names, cs)
  {
    after, removed, names := cs, 0, [];
    var left := cs.Keys;
    HalfwayStarts(cs, lib);
    hide *;
    while left != {}
      invariant Halfway(cs, after, left, names, removed, lib)
      decreases |left|
    {
      var name :| name in left;
      HalfwayOk(cs, after, left, names, removed, name, lib);
      var c, dropped := CompactOne(after[name], lib);
      HalfwayStep(cs, after, left, names, removed, name, c, dropped, lib);
      after := after[name := c];
      removed, names, left := removed + dropped, names + [name], left - {name};
    }
    HalfwayEnds(cs, after, names, removed, lib);
  }

  lemma TombstonesNone(cs: Named)
    ensures TombstonesIn([], cs) == 0
  {
  }

  class Cassette {
    const lib: Texts
    var collections: Named

    ghost predicate Valid()
      reads this
    {
      AllOk(collections, lib)
    }

    constructor (lib: Texts)
      ensures Valid() && collections == map[] && this.lib == lib
    {
      this.lib, collections := lib, map[];
    }

    /** The indexes stay exact when the generated id is new to the collection. */
    method Insert(name: string, data: Value, id: string, time: string)
      modifies this
      ensures old(Valid()) && id !in old(IdSet(DocumentsOf(collections, name))) ==> Valid()
      ensures SameElsewhere(old(collections), collections, name)
      ensures name in collections && IndexedFields(collections, name) == IndexedFields(old(collections), name)
      ensures DocumentsOf(collections, name)
           == DocumentsOf(old(collections), name) + [Doc(id, data, time, time, false)]
    {
      hide CollectionOk;
      EmptyOk(name, lib);
      var c := if name in collections then collections[name] else Collection(name, [], map[], map[]);
      var r := InsertInto(c, Doc(id, data, time, time, false), lib);
      collections := collections[name := r];
    }

    /** False when the id is unknown or deleted. */
    method Update(name: string, id: string, data: Value, time: string) returns (r: Result<bool, DbError>)
      requires Valid()
      modifies this
      ensures Valid() && SameElsewhere(old(collections), collections, name)
      ensures collections.Keys == old(collections).Keys
      ensures IndexedFields(collections, name) == IndexedFields(old(collections), name)
      ensures r.Err? <==> name !in old(collections)
      ensures r.Ok? ==> (r.value <==> FindLive(DocumentsOf(old(collections), name), id).Some?)
      ensures r != Ok(true) ==> collections == old(collections)
      ensures r == Ok(true) ==>
                var documents := DocumentsOf(old(collections), name);
                exists pos | 0 <= pos < |documents| && documents[pos].id == id && !documents[pos].deleted ::
                  DocumentsOf(collections, name) == documents[pos := documents[pos].(data := data, updatedAt := time)]
    {
      if name !in collections {
        return Err(CollectionNotFound);
      }
      var c := collections[name];
      var pos := Position(c.documents, id);
      if pos.None? {
        NotThere(c.documents, id);
        return Ok(false);
      }
      FirstIsIt(c.documents, pos.value);
      hide CollectionOk;
      hide FindLive;
      if c.documents[pos.value].deleted {
        return Ok(false);
      }
      var r' := UpdateAt(c, pos.value, data, time, lib);
      collections := collections[name := r'];
      return Ok(true);
    }

    /** Marks a document deleted; true also when it already was. */
    method Delete(name: string, id: string, time: string) returns (r: Result<bool, DbError>)
      requires Valid()
      modifies this
      ensures Valid() && SameElsewhere(old(collections), collections, name)
      ensures collections.Keys == old(collections).Keys
      ensures IndexedFields(collections, name) == IndexedFields(old(collections), name)
      ensures r.Err? <==> name !in old(collections)
      ensures r.Ok? ==> (r.value <==> id in IdSet(DocumentsOf(old(collections), name)))
      ensures r != Ok(true) ==> collections == old(collections)
      ensures r == Ok(true) ==>
                var documents := DocumentsOf(old(collections), name);
                exists pos | 0 <= pos < |documents| && documents[pos].id == id ::
                  DocumentsOf(collections, name) == documents[pos := documents[pos].(deleted := true, updatedAt := time)]
    {
      if name !in collections {
        return Err(CollectionNotFound);
      }
      var c := collections[name];
      var pos := Position(c.documents, id);
      if pos.None? {
        return Ok(false);
      }
      assert c.documents[pos.value] in c.documents;
      hide CollectionOk;
      var r' := DeleteAt(c, pos.value, time, lib);
      collections := collections[name := r'];
      return Ok(true);
    }

    method CreateIndex(name: string, field: string) returns (r: Result<(), DbError>)
      requires Valid()
      modifies this
      ensures Valid() && SameElsewhere(old(collections), collections, name)
      ensures collections.Keys == old(collections).Keys && (r.Err? <==> name !in old(collections))
      ensures DocumentsOf(collections, name) == DocumentsOf(old(collections), name)
      ensures r.Ok? ==> IndexedFields(collections, name) == IndexedFields(old(collections), name) + {field}
    {
      if name !in collections {
        return Err(CollectionNotFound);
      }
      hide CollectionOk;
      var c := AddIndex(collections[name], field, lib);
      collections := collections[name := c];
      return Ok(());
    }

    method DropIndex(name: string, field: string) returns (r: Result<bool, DbError>)
      requires Valid()
      modifies this
      ensures Valid() && SameElsewhere(old(collections), collections, name)
      ensures collections.Keys == old(collections).Keys && (r.Err? <==> name !in old(collections))
      ensures DocumentsOf(collections, name) == DocumentsOf(old(collections), name)
      ensures r.Ok? ==>
        && (r.value <==> field in IndexedFields(old(collections), name))
        && IndexedFields(collections, name) == IndexedFields(old(collections), name) - {field}
    {
      if name !in collections {
        return Err(CollectionNotFound);
      }
      var c := collections[name];
      DropIndexKeeps(c, field, lib);
      hide CollectionOk;
      collections := collections[name := c.(secondary := c.secondary - {field})];
      return Ok(field in c.secondary);
    }

    /** Drops every tombstone and rebuilds every index. `names` lists the collections. */
    method Compact() returns (removed: nat, ghost names: seq<string>)
      requires Valid()
      modifies this
      ensures Valid() && collections.Keys == old(collections).Keys
      ensures Compacted(old(collections), collections)
      ensures forall n | n in collections ::
        SameAnswers(DocumentsOf(old(collections), n), DocumentsOf(collections, n), IndexedFields(collections, n), lib)
      ensures multiset(names) == multiset(old(collections).Keys) && removed == TombstonesIn(names, old(collections))
    {
      hide CollectionOk;
      hide SameAnswers;
      var after: Named;
      after, removed, names := CompactNamed(collections, lib);
      forall n | n in after
        ensures SameAnswers(DocumentsOf(collections, n), DocumentsOf(after, n), IndexedFields(after, n), lib)
      {
        CompactKeepsAnswers(DocumentsOf(collections, n), IndexedFields(after, n), lib);
      }
      collections := after;
    }

    method Get(name: string, id: string) returns (r: Option<Doc>)
      requires Valid()
      ensures forall d :: r == Some(d) <==> IsLive(DocumentsOf(collections, name), d) && d.id == id
      ensures r == FindLive(DocumentsOf(collections, name), id)
    {
      if name !in collections {
        return None;
      }
      FindLiveMeans(collections[name].documents, id);
      return FindLive(collections[name].documents, id);
    }

    method Scan(name: string) returns (r: seq<Doc>)
      ensures r == Live(DocumentsOf(collections, name))
    {
      if name !in collections {
        return [];
      }
      r := RetainLive(collections[name].documents);
    }

    /** With or without an index on the field, the answer is that of the scan, up to order. */
    method QueryRange(name: string, field: string, op: string, value: string) returns (r: seq<Doc>)
      requires Valid()
      ensures multiset(r) == multiset(RangeScan(DocumentsOf(collections, name), field, op, value, lib))
      ensures RangeAnswer(r, DocumentsOf(collections, name), field, op, value, lib)
    {
      hide RangeAnswer;
      if name !in collections {
        ScanAnswers([], [], field, op, value, lib);
        return [];
      }
      hide InvertedOk;
      hide SecondaryOk;
      hide RangeScan;
      var c := collections[name];
      if field in c.secondary {
        r := RangeByIndex(c.secondary[field], c.documents, field, op, value, lib);
      } else {
        r := RangeScan(c.documents, field, op, value, lib);
      }
      ScanAnswers(r, c.documents, field, op, value, lib);
    }

    /** Equality on one field; a filter that is not of the form `key=value` selects everything. */
    method Query(name: string, filter: string) returns (r: seq<Doc>)
      requires Valid()
      ensures r == QueryAnswer(DocumentsOf(collections, name), IndexedFields(collections, name), filter, lib)
    {
      if name !in collections {
        return [];
      }
      hide InvertedOk;
      hide SecondaryOk;
      hide FilterParts;
      var c, parts := collections[name], FilterParts(filter);
      if parts.None? {
        r := RetainLive(c.documents);
        return;
      }
      var (key, value) := parts.value;
      if key in c.secondary {
        r := EqualByIndex(c.secondary[key], c.documents, key, value, lib);
      } else {
        r := EqualScan(c.documents, key, value);
      }
    }

    /** Ranked full-text search; without a token in the query, all live documents. */
    method Search(name: string, query: string) returns (r: seq<Doc>)
      requires Valid()
      ensures SearchAnswer(DocumentsOf(collections, name), query, r, lib)
    {
      hide CollectionOk;
      if name !in collections {
        return [];
      }
      var tokens := lib.tokenize(query);
      if tokens == [] {
        r := RetainLive(collections[name].documents);
        return;
      }
      r := SearchRanked(collections[name], tokens, lib);
    }
  }

  lemma NotThere(documents: seq<Doc>, id: string)
    requires DistinctIds(documents) && id !in IdSet(documents)
    ensures FindLive(documents, id) == None
  {
    FindLiveMeans(documents, id);
  }

  lemma FirstIsIt(documents: seq<Doc>, pos: nat)
    requires DistinctIds(documents) && pos < |documents|
    ensures FindLive(documents, documents[pos].id).Some? <==> !documents[pos].deleted
  {
    FindLiveMeans(documents, documents[pos].id);
    assert documents[pos] in documents;
    forall d | d in documents && d.id == documents[pos].id ensures d == documents[pos] {
    }
  }
}
