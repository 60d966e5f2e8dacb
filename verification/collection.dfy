/** A collection: documents with tombstones, an inverted index over top-level text fields and
    secondary indexes that keep the ids of deleted documents. */
module Collections {
  import opened Options
  import opened Json

  datatype Doc = Doc(id: string, data: Value, createdAt: string, updatedAt: string, deleted: bool)

  /** Document ids under a token or an index key. */
  type Listing = map<string, seq<string>>

  /** For each field, its listing. */
  type Fields = map<string, Listing>

  datatype Collection = Collection(name: string, documents: seq<Doc>, inverted: Fields, secondary: Fields)

  /** The tokeniser, and the text of a JSON value. */
  datatype Texts = Texts(tokenize: string -> seq<string>, render: Value -> string)

  // ---------- Lists of ids ----------

  function Ids(l: Listing, key: string): seq<string> {
    if key in l then l[key] else []
  }

  function Field(x: Fields, field: string): Listing {
    if field in x then x[field] else map[]
  }

  function Push(l: Listing, key: string, id: string): Listing {
    l[key := Ids(l, key) + [id]]
  }

  function Without(ids: seq<string>, id: string): (r: seq<string>)
    ensures forall i :: multiset(r)[i] == if i == id then 0 else multiset(ids)[i]
  {
    if ids == [] then []
    else
      assert ids == [ids[0]] + ids[1..];
      (if ids[0] == id then [] else [ids[0]]) + Without(ids[1..], id)
  }

  /** How often an id is listed under a token of a field. */
  function Count(x: Fields, field: string, token: string, id: string): nat {
    multiset(Ids(Field(x, field), token))[id]
  }

  // ---------- What should be listed ----------

  /** How often a token occurs in the members with this key that are strings. */
  function Occurs(members: seq<Member>, field: string, token: string, lib: Texts): nat {
    if members == [] then 0
    else
      var m := members[|members| - 1];
      Occurs(members[..|members| - 1], field, token, lib)
      + if m.key == field && m.value.Str? then multiset(lib.tokenize(m.value.s))[token] else 0
  }

  function OccursIn(data: Value, field: string, token: string, lib: Texts): nat {
    if data.Obj? then Occurs(data.members, field, token, lib) else 0
  }

  /** `value_to_index_key`. */
  function KeyText(v: Value, lib: Texts): string {
    if v.Str? then v.s else lib.render(v)
  }

  function KeyOf(data: Value, field: string, lib: Texts): Option<string> {
    var v := Get(data, field);
    if v.None? then None else Some(KeyText(v.value, lib))
  }

  /** The inverted index lists the document exactly as often as its tokens occur. */
  ghost predicate ListsTokens(x: Fields, d: Doc, lib: Texts) {
    forall field, token :: Count(x, field, token, d.id) == OccursIn(d.data, field, token, lib)
  }

  /** A secondary index lists the document once, under its key, and nowhere else. */
  ghost predicate ListsKey(l: Listing, field: string, d: Doc, lib: Texts) {
    forall key :: multiset(Ids(l, key))[d.id] == if KeyOf(d.data, field, lib) == Some(key) then 1 else 0
  }

  function IdSet(documents: seq<Doc>): set<string> {
    set d | d in documents :: d.id
  }

  ghost predicate DistinctIds(documents: seq<Doc>) {
    forall i, j | 0 <= i < j < |documents| :: documents[i].id != documents[j].id
  }

  ghost predicate KnownTokens(x: Fields, ids: set<string>) {
    forall field, token, id | id !in ids :: Count(x, field, token, id) == 0
  }

  ghost predicate KnownKeys(l: Listing, ids: set<string>) {
    forall key, id | id !in ids :: multiset(Ids(l, key))[id] == 0
  }

  /** Exact for live documents; deleted ones may still be listed, unknown ones not. */
  ghost predicate InvertedOk(x: Fields, documents: seq<Doc>, lib: Texts) {
    && (forall d | d in documents && !d.deleted :: ListsTokens(x, d, lib))
    && KnownTokens(x, IdSet(documents))
  }

  ghost predicate SecondaryOk(l: Listing, field: string, documents: seq<Doc>, lib: Texts) {
    && (forall d | d in documents && !d.deleted :: ListsKey(l, field, d, lib))
    && KnownKeys(l, IdSet(documents))
  }

  ghost predicate CollectionOk(c: Collection, lib: Texts) {
    && DistinctIds(c.documents)
    && InvertedOk(c.inverted, c.documents, lib)
    && forall field | field in c.secondary :: SecondaryOk(c.secondary[field], field, c.documents, lib)
  }

  // ---------- The inverted index ----------

  lemma PushCount(x: Fields, field: string, token: string, id: string, f: string, t: string, i: string)
    ensures Count(x[field := Push(Field(x, field), token, id)], f, t, i)
         == Count(x, f, t, i) + if f == field && t == token && i == id then 1 else 0
  {
  }

  method IndexTokens(x: Fields, field: string, tokens: seq<string>, id: string) returns (r: Fields)
    ensures forall f, t, i ::
      Count(r, f, t, i) == Count(x, f, t, i) + if f == field && i == id then multiset(tokens)[t] else 0
  {
    r := x[field := Field(x, field)];
    EntryCounts(x, field);
    hide Field;
    hide Count;
    hide Push;
    assert tokens[..0] == [];
    for n := 0 to |tokens|
      invariant forall f, t, i ::
        Count(r, f, t, i) == Count(x, f, t, i) + if f == field && i == id then multiset(tokens[..n])[t] else 0
    {
      assert tokens[..n + 1] == tokens[..n] + [tokens[n]];
      var next := r[field := Push(Field(r, field), tokens[n], id)];
      forall f, t, i
        ensures Count(next, f, t, i) == Count(r, f, t, i) + if f == field && t == tokens[n] && i == id then 1 else 0
      {
        PushCount(r, field, tokens[n], id, f, t, i);
      }
      r := next;
    }
    assert tokens[..|tokens|] == tokens;
  }

  /** Giving a field an entry lists nothing. */
  lemma EntryCounts(x: Fields, field: string)
    ensures forall f, t, i :: Count(x[field := Field(x, field)], f, t, i) == Count(x, f, t, i)
  {
    assert forall f :: Field(x[field := Field(x, field)], f) == Field(x, f);
  }

  /** `index_document`: lists the id once for each occurrence of a token in a top-level string. */
  method IndexDocument(x: Fields, d: Doc, lib: Texts) returns (r: Fields)
    ensures forall f, t, i ::
      Count(r, f, t, i) == Count(x, f, t, i) + if i == d.id then OccursIn(d.data, f, t, lib) else 0
  {
    r := x;
    match d.data {
      case Obj(members) =>
        assert members[..0] == [] && forall f, t :: Occurs([], f, t, lib) == 0;
        for n := 0 to |members|
          invariant forall f, t, i ::
            Count(r, f, t, i) == Count(x, f, t, i) + if i == d.id then Occurs(members[..n], f, t, lib) else 0
        {
          var m := members[n];
          assert members[..n + 1][..n] == members[..n];
          if m.value.Str? {
            r := IndexTokens(r, m.key, lib.tokenize(m.value.s), d.id);
          }
        }
        assert members[..|members|] == members;
      case _ =>
    }
  }

  method RetainOthers(l: Listing, id: string) returns (r: Listing)
    ensures forall key :: Ids(r, key) == Without(Ids(l, key), id)
  {
    r := l;
    var left := l.Keys;
    while left != {}
      invariant left <= l.Keys
      invariant forall key | key in left :: key in r && r[key] == l[key]
      invariant forall key | key !in left :: Ids(r, key) == Without(Ids(l, key), id)
      decreases |left|
    {
      var key :| key in left;
      left := left - {key};
      var kept := Without(r[key], id);
      if kept == [] {
        r := r - {key};
      } else {
        r := r[key := kept];
      }
    }
  }

  /** `remove_from_index`: takes an id out of every list and drops what is then empty. */
  method RemoveFromIndex(x: Fields, id: string) returns (r: Fields)
    ensures forall f, t, i :: Count(r, f, t, i) == if i == id then 0 else Count(x, f, t, i)
  {
    r := x;
    var left := x.Keys;
    while left != {}
      invariant left <= x.Keys
      invariant forall f | f in left :: f in r && r[f] == x[f]
      invariant forall f, t | f !in left :: Ids(Field(r, f), t) == Without(Ids(Field(x, f), t), id)
      decreases |left|
    {
      var f :| f in left;
      left := left - {f};
      var kept := RetainOthers(r[f], id);
      if kept == map[] {
        r := r - {f};
      } else {
        r := r[f := kept];
      }
    }
    forall f, t, i ensures Count(r, f, t, i) == if i == id then 0 else Count(x, f, t, i) {
      assert Ids(Field(r, f), t) == Without(Ids(Field(x, f), t), id);
    }
  }

  // ---------- Secondary indexes ----------

  /** `add_to_secondary_index`. */
  function AddKey(l: Listing, field: string, d: Doc, lib: Texts): Listing {
    var key := KeyOf(d.data, field, lib);
    if key.None? then l else Push(l, key.value, d.id)
  }

  /** `remove_from_secondary_index`. */
  function RemoveKey(l: Listing, field: string, d: Doc, lib: Texts): Listing {
    var key := KeyOf(d.data, field, lib);
    if key.None? || key.value !in l then l
    else
      var kept := Without(l[key.value], d.id);
      if kept == [] then l - {key.value} else l[key.value := kept]
  }

  method AddToAll(x: Fields, d: Doc, lib: Texts) returns (r: Fields)
    ensures r.Keys == x.Keys && forall f | f in x :: r[f] == AddKey(x[f], f, d, lib)
  {
    r := x;
    var left := x.Keys;
    while left != {}
      invariant left <= x.Keys && r.Keys == x.Keys
      invariant forall f | f in x :: r[f] == if f in left then x[f] else AddKey(x[f], f, d, lib)
      decreases |left|
    {
      var f :| f in left;
      r, left := r[f := AddKey(r[f], f, d, lib)], left - {f};
    }
  }

  method RemoveFromAll(x: Fields, d: Doc, lib: Texts) returns (r: Fields)
    ensures r.Keys == x.Keys && forall f | f in x :: r[f] == RemoveKey(x[f], f, d, lib)
  {
    r := x;
    var left := x.Keys;
    while left != {}
      invariant left <= x.Keys && r.Keys == x.Keys
      invariant forall f | f in x :: r[f] == if f in left then x[f] else RemoveKey(x[f], f, d, lib)
      decreases |left|
    {
      var f :| f in left;
      r, left := r[f := RemoveKey(r[f], f, d, lib)], left - {f};
    }
  }

  // ---------- What the operations keep ----------

  lemma IdSetSnoc(documents: seq<Doc>, d: Doc)
    ensures IdSet(documents + [d]) == IdSet(documents) + {d.id}
  {
    assert d in documents + [d];
    assert forall e :: e in documents + [d] <==> e in documents || e == d;
    forall i ensures i in IdSet(documents + [d]) <==> i in IdSet(documents) + {d.id} {
    }
  }

  /** Indexing a new document keeps an inverted index exact. */
  lemma InvertedSnoc(x: Fields, y: Fields, documents: seq<Doc>, d: Doc, lib: Texts)
    requires InvertedOk(x, documents, lib) && d.id !in IdSet(documents)
    requires forall f, t, i ::
      Count(y, f, t, i) == Count(x, f, t, i) + if i == d.id then OccursIn(d.data, f, t, lib) else 0
    ensures InvertedOk(y, documents + [d], lib)
  {
    hide Count;
    hide OccursIn;
    IdSetSnoc(documents, d);
    forall e | e in documents + [d] && !e.deleted ensures ListsTokens(y, e, lib) {
      if e in documents {
        assert e.id in IdSet(documents) && ListsTokens(x, e, lib);
      }
    }
  }

  lemma AddKeyCount(l: Listing, field: string, d: Doc, lib: Texts, key: string, id: string)
    ensures multiset(Ids(AddKey(l, field, d, lib), key))[id]
         == multiset(Ids(l, key))[id] + if KeyOf(d.data, field, lib) == Some(key) && id == d.id then 1 else 0
  {
  }

  lemma SecondarySnoc(l: Listing, field: string, documents: seq<Doc>, d: Doc, lib: Texts)
    requires SecondaryOk(l, field, documents, lib) && d.id !in IdSet(documents)
    ensures SecondaryOk(AddKey(l, field, d, lib), field, documents + [d], lib)
  {
    hide AddKey;
    hide KeyOf;
    IdSetSnoc(documents, d);
    var m := AddKey(l, field, d, lib);
    forall key, id
      ensures multiset(Ids(m, key))[id]
           == multiset(Ids(l, key))[id] + if KeyOf(d.data, field, lib) == Some(key) && id == d.id then 1 else 0
    {
      AddKeyCount(l, field, d, lib, key, id);
    }
    forall e | e in documents + [d] && !e.deleted ensures ListsKey(m, field, e, lib) {
      if e in documents {
        assert e.id in IdSet(documents) && ListsKey(l, field, e, lib);
      }
    }
  }

  /** A deleted document needs no listing. */
  lemma SecondarySkip(l: Listing, field: string, documents: seq<Doc>, d: Doc, lib: Texts)
    requires SecondaryOk(l, field, documents, lib) && d.deleted
    ensures SecondaryOk(l, field, documents + [d], lib)
  {
    IdSetSnoc(documents, d);
    forall e | e in documents + [d] && !e.deleted ensures ListsKey(l, field, e, lib) {
      assert e in documents;
    }
  }

  lemma DistinctSnoc(documents: seq<Doc>, d: Doc)
    requires DistinctIds(documents) && d.id !in IdSet(documents)
    ensures DistinctIds(documents + [d])
  {
    forall i | 0 <= i < |documents| ensures documents[i].id != d.id {
      assert documents[i] in documents;
    }
  }

  method InsertInto(c: Collection, d: Doc, lib: Texts) returns (r: Collection)
    ensures r.documents == c.documents + [d] && r.name == c.name && r.secondary.Keys == c.secondary.Keys
    ensures CollectionOk(c, lib) && d.id !in IdSet(c.documents) ==> CollectionOk(r, lib)
  {
    hide InvertedOk;
    hide SecondaryOk;
    hide AddKey;
    hide Count;
    hide OccursIn;
    hide IdSet;
    hide DistinctIds;
    var inverted := IndexDocument(c.inverted, d, lib);
    var secondary := AddToAll(c.secondary, d, lib);
    r := Collection(c.name, c.documents + [d], inverted, secondary);
    if CollectionOk(c, lib) && d.id !in IdSet(c.documents) {
      DistinctSnoc(c.documents, d);
      InvertedSnoc(c.inverted, inverted, c.documents, d, lib);
      forall f | f in secondary ensures SecondaryOk(secondary[f], f, r.documents, lib) {
        SecondarySnoc(c.secondary[f], f, c.documents, d, lib);
      }
    }
  }

  function Tombstones(documents: seq<Doc>): nat {
    if documents == [] then 0
    else (if documents[0].deleted then 1 else 0) + Tombstones(documents[1..])
  }

  /** The documents that are not deleted, in order. */
  function Live(documents: seq<Doc>): seq<Doc> {
    if documents == [] then []
    else (if documents[0].deleted then [] else [documents[0]]) + Live(documents[1..])
  }

  lemma {:induction false} LiveHas(documents: seq<Doc>, d: Doc)
    ensures d in Live(documents) <==> d in documents && !d.deleted
  {
    if documents != [] {
      assert documents == [documents[0]] + documents[1..];
      LiveHas(documents[1..], d);
    }
  }

  lemma {:induction false} LiveCount(documents: seq<Doc>)
    ensures |Live(documents)| + Tombstones(documents) == |documents|
  {
    if documents != [] {
      LiveCount(documents[1..]);
    }
  }

  lemma {:induction false} LiveDistinct(documents: seq<Doc>)
    requires DistinctIds(documents)
    ensures DistinctIds(Live(documents))
  {
    if documents != [] {
      LiveDistinct(documents[1..]);
      forall d | d in Live(documents[1..]) ensures d.id != documents[0].id {
        LiveHas(documents[1..], d);
      }
    }
  }

  lemma {:induction false} LiveOfLive(documents: seq<Doc>)
    ensures Live(Live(documents)) == Live(documents) && Tombstones(Live(documents)) == 0
  {
    if documents != [] {
      LiveOfLive(documents[1..]);
      if !documents[0].deleted {
        assert Live(documents)[1..] == Live(documents[1..]);
      } else {
        assert Live(documents) == Live(documents[1..]);
      }
    }
  }

  // ---------- Replacing one document ----------

  lemma IdSetReplace(documents: seq<Doc>, pos: nat, d: Doc)
    requires pos < |documents| && d.id == documents[pos].id
    ensures IdSet(documents[pos := d]) == IdSet(documents)
    ensures DistinctIds(documents) ==> DistinctIds(documents[pos := d])
    ensures DistinctIds(documents) ==>
      forall e | e in documents[pos := d] :: e == d || (e in documents && e.id != d.id)
  {
    var after := documents[pos := d];
    forall i ensures i in IdSet(after) <==> i in IdSet(documents) {
      if i in IdSet(after) {
        var k :| 0 <= k < |after| && after[k].id == i;
        assert documents[k].id == i && documents[k] in documents;
      }
      if i in IdSet(documents) {
        var k :| 0 <= k < |documents| && documents[k].id == i;
        assert after[k].id == i && after[k] in after;
      }
    }
  }

  lemma InvertedReplace(x: Fields, y: Fields, documents: seq<Doc>, pos: nat, d: Doc, lib: Texts)
    requires pos < |documents| && d.id == documents[pos].id && DistinctIds(documents)
    requires InvertedOk(x, documents, lib)
    requires forall f, t, i ::
      Count(y, f, t, i) == if i == d.id then OccursIn(d.data, f, t, lib) else Count(x, f, t, i)
    ensures InvertedOk(y, documents[pos := d], lib)
  {
    hide Count;
    hide OccursIn;
    var after := documents[pos := d];
    IdSetReplace(documents, pos, d);
    assert after[pos] == d && d in after && d.id in IdSet(after);
    forall e | e in after && !e.deleted ensures ListsTokens(y, e, lib) {
      if e != d {
        assert ListsTokens(x, e, lib);
      }
    }
  }

  lemma RemoveKeyCount(l: Listing, field: string, d: Doc, lib: Texts, key: string, id: string)
    requires ListsKey(l, field, d, lib)
    ensures multiset(Ids(RemoveKey(l, field, d, lib), key))[id] == if id == d.id then 0 else multiset(Ids(l, key))[id]
  {
    assert multiset(Ids(l, key))[d.id] == if KeyOf(d.data, field, lib) == Some(key) then 1 else 0;
  }

  lemma SecondaryReplace(l: Listing, field: string, documents: seq<Doc>, pos: nat, d: Doc, lib: Texts)
    requires pos < |documents| && d.id == documents[pos].id && DistinctIds(documents) && !documents[pos].deleted
    requires SecondaryOk(l, field, documents, lib)
    ensures SecondaryOk(AddKey(RemoveKey(l, field, documents[pos], lib), field, d, lib), field, documents[pos := d], lib)
  {
    hide AddKey;
    hide RemoveKey;
    hide KeyOf;
    var after, m := documents[pos := d], RemoveKey(l, field, documents[pos], lib);
    var n := AddKey(m, field, d, lib);
    IdSetReplace(documents, pos, d);
    assert after[pos] == d && d in after && d.id in IdSet(after) && ListsKey(l, field, documents[pos], lib);
    forall key, id
      ensures multiset(Ids(n, key))[id]
           == if id == d.id then if KeyOf(d.data, field, lib) == Some(key) then 1 else 0 else multiset(Ids(l, key))[id]
    {
      RemoveKeyCount(l, field, documents[pos], lib, key, id);
      AddKeyCount(m, field, d, lib, key, id);
    }
    forall e | e in after && !e.deleted ensures ListsKey(n, field, e, lib) {
      if e != d {
        assert ListsKey(l, field, e, lib);
      }
    }
  }

  method Position(documents: seq<Doc>, id: string) returns (pos: Option<nat>)
    ensures pos.Some? ==> pos.value < |documents| && documents[pos.value].id == id
    ensures pos.None? <==> id !in IdSet(documents)
  {
    for i := 0 to |documents|
      invariant forall j | 0 <= j < i :: documents[j].id != id
    {
      if documents[i].id == id {
        assert documents[i] in documents;
        return Some(i);
      }
    }
    return None;
  }

  method UpdateAt(c: Collection, pos: nat, data: Value, time: string, lib: Texts) returns (r: Collection)
    requires CollectionOk(c, lib) && pos < |c.documents| && !c.documents[pos].deleted
    ensures CollectionOk(r, lib) && r.name == c.name && r.secondary.Keys == c.secondary.Keys
    ensures r.documents == c.documents[pos := c.documents[pos].(data := data, updatedAt := time)]
  {
    hide InvertedOk;
    hide SecondaryOk;
    hide AddKey;
    hide RemoveKey;
    hide Count;
    hide OccursIn;
    hide IdSet;
    hide DistinctIds;
    var stale := c.documents[pos];
    var inverted := RemoveFromIndex(c.inverted, stale.id);
    var secondary := RemoveFromAll(c.secondary, stale, lib);
    var d := stale.(data := data, updatedAt := time);
    inverted := IndexDocument(inverted, d, lib);
    secondary := AddToAll(secondary, d, lib);
    r := Collection(c.name, c.documents[pos := d], inverted, secondary);
    IdSetReplace(c.documents, pos, d);
    InvertedReplace(c.inverted, inverted, c.documents, pos, d, lib);
    forall f | f in secondary ensures SecondaryOk(secondary[f], f, r.documents, lib) {
      SecondaryReplace(c.secondary[f], f, c.documents, pos, d, lib);
    }
  }

  /** Marking a document deleted changes no index. */
  method DeleteAt(c: Collection, pos: nat, time: string, lib: Texts) returns (r: Collection)
    requires CollectionOk(c, lib) && pos < |c.documents|
    ensures CollectionOk(r, lib) && r == c.(documents := r.documents)
    ensures r.documents == c.documents[pos := c.documents[pos].(deleted := true, updatedAt := time)]
  {
    hide Count;
    hide ListsKey;
    hide ListsTokens;
    var d := c.documents[pos].(deleted := true, updatedAt := time);
    r := c.(documents := c.documents[pos := d]);
    IdSetReplace(c.documents, pos, d);
  }

  // ---------- Building indexes ----------

  method BuildSecondary(documents: seq<Doc>, field: string, lib: Texts) returns (l: Listing)
    requires DistinctIds(documents)
    ensures SecondaryOk(l, field, documents, lib)
  {
    hide SecondaryOk;
    hide AddKey;
    l := map[];
    NothingListed(field, lib);
    assert documents[..0] == [];
    for i := 0 to |documents|
      invariant SecondaryOk(l, field, documents[..i], lib)
    {
      assert documents[..i + 1] == documents[..i] + [documents[i]];
      FreshAt(documents, i);
      if documents[i].deleted {
        SecondarySkip(l, field, documents[..i], documents[i], lib);
      } else {
        SecondarySnoc(l, field, documents[..i], documents[i], lib);
        l := AddKey(l, field, documents[i], lib);
      }
    }
    assert documents[..|documents|] == documents;
  }

  lemma NothingListed(field: string, lib: Texts)
    ensures SecondaryOk(map[], field, [], lib) && InvertedOk(map[], [], lib)
  {
  }

  lemma FreshAt(documents: seq<Doc>, i: nat)
    requires DistinctIds(documents) && i < |documents|
    ensures documents[i].id !in IdSet(documents[..i])
  {
  }

  method BuildInverted(documents: seq<Doc>, lib: Texts) returns (x: Fields)
    requires DistinctIds(documents)
    ensures InvertedOk(x, documents, lib)
  {
    hide InvertedOk;
    x := map[];
    NothingListed("", lib);
    assert documents[..0] == [];
    for i := 0 to |documents|
      invariant InvertedOk(x, documents[..i], lib)
    {
      assert documents[..i + 1] == documents[..i] + [documents[i]];
      FreshAt(documents, i);
      var y := IndexDocument(x, documents[i], lib);
      InvertedSnoc(x, y, documents[..i], documents[i], lib);
      x := y;
    }
    assert documents[..|documents|] == documents;
  }

  method AddIndex(c: Collection, field: string, lib: Texts) returns (r: Collection)
    requires CollectionOk(c, lib)
    ensures CollectionOk(r, lib) && r == c.(secondary := r.secondary)
    ensures r.secondary.Keys == c.secondary.Keys + {field}
    ensures forall f | f in c.secondary :: r.secondary[f] == c.secondary[f]
  {
    if field in c.secondary {
      return c;
    }
    var l := BuildSecondary(c.documents, field, lib);
    r := c.(secondary := c.secondary[field := l]);
  }

  lemma DropIndexKeeps(c: Collection, field: string, lib: Texts)
    requires CollectionOk(c, lib)
    ensures CollectionOk(c.(secondary := c.secondary - {field}), lib)
  {
  }

  /** `documents.retain`. */
  method RetainLive(documents: seq<Doc>) returns (r: seq<Doc>)
    ensures r == Live(documents)
  {
    r := [];
    assert documents[..0] == [];
    for i := 0 to |documents|
      invariant r == Live(documents[..i])
    {
      assert documents[..i + 1] == documents[..i] + [documents[i]];
      LiveJoin(documents[..i], [documents[i]]);
      LiveOne(documents[i]);
      if !documents[i].deleted {
        r := r + [documents[i]];
      }
    }
    assert documents[..|documents|] == documents;
  }

  lemma LiveOne(d: Doc)
    ensures Live([d]) == if d.deleted then [] else [d]
  {
    assert [d][1..] == [];
  }

  lemma {:induction false} LiveJoin(a: seq<Doc>, b: seq<Doc>)
    ensures Live(a + b) == Live(a) + Live(b)
  {
    if a == [] {
      assert a + b == b;
    } else {
      assert (a + b)[1..] == a[1..] + b && (a + b)[0] == a[0];
      LiveJoin(a[1..], b);
    }
  }

  /** Drops the tombstones of one collection and rebuilds its indexes. */
  method CompactOne(c: Collection, lib: Texts) returns (r: Collection, removed: nat)
    requires CollectionOk(c, lib)
    ensures CollectionOk(r, lib) && r.name == c.name && r.documents == Live(c.documents)
    ensures r.secondary.Keys == c.secondary.Keys && removed == Tombstones(c.documents)
  {
    hide InvertedOk;
    hide SecondaryOk;
    var documents := RetainLive(c.documents);
    LiveCount(c.documents);
    LiveDistinct(c.documents);
    removed := |c.documents| - |documents|;
    var inverted := BuildInverted(documents, lib);
    var secondary: Fields := map[];
    var left := c.secondary.Keys;
    while left != {}
      invariant left <= c.secondary.Keys && secondary.Keys == c.secondary.Keys - left
      invariant forall f | f in secondary :: SecondaryOk(secondary[f], f, documents, lib)
      decreases |left|
    {
      var f :| f in left;
      var l := BuildSecondary(documents, f, lib);
      secondary, left := secondary[f := l], left - {f};
    }
    r := Collection(c.name, documents, inverted, secondary);
  }
}
