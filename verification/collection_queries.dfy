/** Answers from a collection: the indexed ones against plain scans of the live documents. */
module CollectionQueries {
  import opened Options
  import opened Json
  import opened StringOrder
  import opened Collections

  predicate IsLive(documents: seq<Doc>, d: Doc) {
    d in documents && !d.deleted
  }

  /** The live documents that are wanted, in order. */
  function Selected(documents: seq<Doc>, wanted: Doc -> bool): seq<Doc> {
    if documents == [] then []
    else
      (if !documents[0].deleted && wanted(documents[0]) then [documents[0]] else [])
      + Selected(documents[1..], wanted)
  }

  /** Each live document that is wanted, once. */
  ghost predicate EachOnce(found: seq<Doc>, documents: seq<Doc>, wanted: Doc -> bool) {
    forall d :: multiset(found)[d] == if IsLive(documents, d) && wanted(d) then 1 else 0
  }

  lemma DistinctTail(documents: seq<Doc>)
    requires DistinctIds(documents) && documents != []
    ensures DistinctIds(documents[1..]) && documents[0] !in documents[1..]
    ensures forall d :: IsLive(documents, d) <==> IsLive(documents[1..], d) || (d == documents[0] && !d.deleted)
  {
    assert documents == [documents[0]] + documents[1..];
  }

  lemma {:induction false} SelectedOnce(documents: seq<Doc>, wanted: Doc -> bool)
    requires DistinctIds(documents)
    ensures EachOnce(Selected(documents, wanted), documents, wanted)
  {
    hide DistinctIds;
    if documents != [] {
      DistinctTail(documents);
      SelectedOnce(documents[1..], wanted);
    }
  }

  /** Two lists with each wanted document once are the same multiset. */
  lemma SameMultiset(a: seq<Doc>, b: seq<Doc>, documents: seq<Doc>, wanted: Doc -> bool)
    requires EachOnce(a, documents, wanted) && EachOnce(b, documents, wanted)
    ensures multiset(a) == multiset(b)
  {
    forall d ensures multiset(a)[d] == multiset(b)[d] {
    }
  }

  // ---------- Looking up an id ----------

  /** The first document with the id that is not deleted. */
  function FindLive(documents: seq<Doc>, id: string): Option<Doc> {
    if documents == [] then None
    else if documents[0].id == id && !documents[0].deleted then Some(documents[0])
    else FindLive(documents[1..], id)
  }

  lemma {:induction false} FindLiveIs(documents: seq<Doc>, id: string, d: Doc)
    requires DistinctIds(documents)
    ensures FindLive(documents, id) == Some(d) <==> IsLive(documents, d) && d.id == id
  {
    if documents != [] {
      DistinctTail(documents);
      FindLiveIs(documents[1..], id, d);
      assert forall e | e in documents[1..] :: e.id != documents[0].id;
    }
  }

  lemma FindLiveMeans(documents: seq<Doc>, id: string)
    requires DistinctIds(documents)
    ensures forall d :: FindLive(documents, id) == Some(d) <==> IsLive(documents, d) && d.id == id
  {
    forall d ensures FindLive(documents, id) == Some(d) <==> IsLive(documents, d) && d.id == id {
      FindLiveIs(documents, id, d);
    }
  }

  // ---------- Range queries ----------

  predicate InRange(op: string, key: string, value: string) {
    if op == ">" then Before(value, key)
    else if op == "<" then Before(key, value)
    else if op == ">=" then AtMost(value, key)
    else if op == "<=" then AtMost(key, value)
    else false
  }

  /** What the scan asks of a document. */
  predicate RangeHolds(d: Doc, field: string, op: string, value: string, lib: Texts) {
    var key := KeyOf(d.data, field, lib);
    key.Some? && InRange(op, key.value, value)
  }

  function RangeScan(documents: seq<Doc>, field: string, op: string, value: string, lib: Texts): seq<Doc> {
    Selected(documents, (d: Doc) => RangeHolds(d, field, op, value, lib))
  }

  /** The key of `data[field]`, where a missing member reads as null. */
  function KeyOrNull(data: Value, field: string, lib: Texts): string {
    var v := Get(data, field);
    KeyText(if v.None? then Null else v.value, lib)
  }

  /** The keys that the walk over the ordered index visits; for `>` it starts at the value itself. */
  predicate Visited(op: string, key: string, value: string) {
    if op == ">" then AtMost(value, key) else InRange(op, key, value)
  }

  /** The check on each document of a visited key, which only `>` makes. */
  predicate Passes(op: string, d: Doc, field: string, value: string, lib: Texts) {
    op == ">" ==> Before(value, KeyOrNull(d.data, field, lib))
  }

  /** The documents of one index key. */
  method CollectKey(ids: seq<string>, documents: seq<Doc>, field: string, op: string, value: string, lib: Texts)
    returns (found: seq<Doc>)
    requires DistinctIds(documents)
    ensures forall d ::
      multiset(found)[d] == if IsLive(documents, d) && Passes(op, d, field, value, lib) then multiset(ids)[d.id] else 0
  {
    hide DistinctIds;
    hide Passes;
    found := [];
    for i := 0 to |ids|
      invariant forall d ::
        multiset(found)[d]
        == if IsLive(documents, d) && Passes(op, d, field, value, lib) then multiset(ids[..i])[d.id] else 0
    {
      assert ids[..i + 1] == ids[..i] + [ids[i]];
      FindLiveMeans(documents, ids[i]);
      var doc := FindLive(documents, ids[i]);
      if doc.Some? {
        if Passes(op, doc.value, field, value, lib) {
          found := found + [doc.value];
        }
      }
    }
    assert ids[..|ids|] == ids;
  }

  /** A document whose key is among the walked ones and in range. */
  predicate Walked(d: Doc, field: string, op: string, value: string, lib: Texts, keys: seq<string>) {
    RangeHolds(d, field, op, value, lib) && KeyOf(d.data, field, lib).value in keys
  }

  /** A key whose list is the list of the value itself has no live document but the value's own. */
  lemma EqualListsAreStale(l: Listing, documents: seq<Doc>, field: string, value: string, key: string, d: Doc, lib: Texts)
    requires SecondaryOk(l, field, documents, lib) && IsLive(documents, d)
    requires value in l && key in l && l[value] == l[key] && key != value
    ensures KeyOf(d.data, field, lib) != Some(key)
  {
    assert ListsKey(l, field, d, lib);
    assert multiset(Ids(l, key))[d.id] == multiset(Ids(l, value))[d.id];
  }

  /** The keys whose documents the walk looks at: `>` skips those with the same list as the value. */
  predicate Taken(l: Listing, op: string, value: string, key: string)
    requires key in l
  {
    Visited(op, key, value) && !(op == ">" && value in l && l[value] == l[key])
  }

  /** What the walk takes from one key is what the scan takes of the documents with that key. */
  lemma OneKey(l: Listing, documents: seq<Doc>, field: string, op: string, value: string, key: string, d: Doc, lib: Texts)
    requires SecondaryOk(l, field, documents, lib) && IsLive(documents, d) && key in l
    ensures (if Taken(l, op, value, key) && Passes(op, d, field, value, lib) then multiset(l[key])[d.id] else 0)
         == if KeyOf(d.data, field, lib) == Some(key) && InRange(op, key, value) then 1 else 0
  {
    assert ListsKey(l, field, d, lib);
    assert multiset(Ids(l, key))[d.id] == if KeyOf(d.data, field, lib) == Some(key) then 1 else 0;
    Trichotomy(value, key);
    if op == ">" && value in l && l[value] == l[key] && key != value {
      EqualListsAreStale(l, documents, field, value, key, d, lib);
    }
  }

  /** The indexed branch of `query_range`: walks the keys of the index in order. */
  method RangeByIndex(l: Listing, documents: seq<Doc>, field: string, op: string, value: string, lib: Texts)
    returns (found: seq<Doc>)
    requires DistinctIds(documents) && SecondaryOk(l, field, documents, lib)
    ensures multiset(found) == multiset(RangeScan(documents, field, op, value, lib))
  {
    hide DistinctIds;
    hide SecondaryOk;
    hide InRange;
    hide Visited;
    hide Passes;
    hide KeyOf;
    var keys := Sorted(l.Keys);
    found := [];
    for n := 0 to |keys|
      invariant forall d ::
        multiset(found)[d] == if IsLive(documents, d) && Walked(d, field, op, value, lib, keys[..n]) then 1 else 0
    {
      var key := keys[n];
      assert key in keys && keys[..n + 1] == keys[..n] + [key];
      NotYet(keys, n);
      var part: seq<Doc> := [];
      if Taken(l, op, value, key) {
        part := CollectKey(l[key], documents, field, op, value, lib);
      }
      forall d | IsLive(documents, d)
        ensures multiset(part)[d] == if KeyOf(d.data, field, lib) == Some(key) && InRange(op, key, value) then 1 else 0
      {
        OneKey(l, documents, field, op, value, key, d, lib);
      }
      found := found + part;
    }
    assert keys[..|keys|] == keys;
    AllWalked(l, documents, field, op, value, lib, keys);
    var wanted := (d: Doc) => RangeHolds(d, field, op, value, lib);
    SelectedOnce(documents, wanted);
    SameMultiset(found, Selected(documents, wanted), documents, wanted);
  }

  lemma NotYet(keys: seq<string>, n: nat)
    requires Ascending(keys) && n < |keys|
    ensures keys[n] !in keys[..n]
  {
    Trichotomy(keys[n], keys[n]);
  }

  /** Every live document that has the field has a key of the index. */
  lemma AllWalked(l: Listing, documents: seq<Doc>, field: string, op: string, value: string, lib: Texts, keys: seq<string>)
    requires SecondaryOk(l, field, documents, lib) && forall k :: k in keys <==> k in l
    ensures forall d | IsLive(documents, d) ::
      Walked(d, field, op, value, lib, keys) <==> RangeHolds(d, field, op, value, lib)
  {
    forall d | IsLive(documents, d) && KeyOf(d.data, field, lib).Some?
      ensures KeyOf(d.data, field, lib).value in keys
    {
      assert ListsKey(l, field, d, lib);
      assert multiset(Ids(l, KeyOf(d.data, field, lib).value))[d.id] == 1;
    }
  }

  // ---------- Equality queries ----------

  /** What the index answers for a key: in document order, the live ones with that key. */
  method EqualByIndex(l: Listing, documents: seq<Doc>, field: string, value: string, lib: Texts)
    returns (found: seq<Doc>)
    requires SecondaryOk(l, field, documents, lib)
    ensures found == Selected(documents, (d: Doc) => KeyOf(d.data, field, lib) == Some(value))
  {
    var wanted := (d: Doc) => KeyOf(d.data, field, lib) == Some(value);
    hide SecondaryOk;
    hide Selected;
    hide KeyOf;
    var ids: set<string> := set id | id in Ids(l, value);
    SelectedNone(wanted);
    found := [];
    assert documents[..0] == [];
    for i := 0 to |documents|
      invariant found == Selected(documents[..i], wanted)
    {
      var d := documents[i];
      assert documents[..i + 1] == documents[..i] + [d];
      SelectedSnoc(documents[..i], d, wanted);
      ListedUnderKey(l, field, documents, d, value, lib);
      if !d.deleted {
        if d.id in ids {
          found := found + [d];
        }
      }
    }
    assert documents[..|documents|] == documents;
  }

  lemma ListedUnderKey(l: Listing, field: string, documents: seq<Doc>, d: Doc, value: string, lib: Texts)
    requires SecondaryOk(l, field, documents, lib) && d in documents
    ensures !d.deleted ==> (d.id in Ids(l, value) <==> KeyOf(d.data, field, lib) == Some(value))
  {
    if !d.deleted {
      assert ListsKey(l, field, d, lib);
      assert d.id in Ids(l, value) <==> multiset(Ids(l, value))[d.id] > 0;
    }
  }

  lemma SelectedNone(wanted: Doc -> bool)
    ensures Selected([], wanted) == []
  {
  }

  lemma {:induction false} SelectedSnoc(documents: seq<Doc>, d: Doc, wanted: Doc -> bool)
    ensures Selected(documents + [d], wanted)
         == Selected(documents, wanted) + if !d.deleted && wanted(d) then [d] else []
  {
    if documents == [] {
      assert documents + [d] == [d] && [d][1..] == [];
    } else {
      assert (documents + [d])[1..] == documents[1..] + [d];
      SelectedSnoc(documents[1..], d, wanted);
    }
  }

  /** The scan compares only strings. */
  function EqualScan(documents: seq<Doc>, field: string, value: string): seq<Doc> {
    Selected(documents, (d: Doc) => Get(d.data, field) == Some(Str(value)))
  }

  /** The index and the scan give the same answer if and only if no live document has a value
      there that is not a string but has the text looked for as its index key. */
  lemma EqualAnswersAgreeIff(documents: seq<Doc>, field: string, value: string, lib: Texts)
    requires DistinctIds(documents)
    ensures Selected(documents, (d: Doc) => KeyOf(d.data, field, lib) == Some(value)) == EqualScan(documents, field, value)
       <==> forall d | IsLive(documents, d) && Get(d.data, field).Some? && !Get(d.data, field).value.Str? ::
              lib.render(Get(d.data, field).value) != value
  {
    var byKey := (d: Doc) => KeyOf(d.data, field, lib) == Some(value);
    var byText := (d: Doc) => Get(d.data, field) == Some(Str(value));
    if d :| IsLive(documents, d) && Get(d.data, field).Some? && !Get(d.data, field).value.Str?
            && lib.render(Get(d.data, field).value) == value
    {
      SelectedDiffers(documents, byKey, byText, d);
    } else {
      SelectedSame(documents, byKey, byText);
    }
  }

  lemma SelectedDiffers(documents: seq<Doc>, p: Doc -> bool, q: Doc -> bool, d: Doc)
    requires DistinctIds(documents) && IsLive(documents, d) && p(d) && !q(d)
    ensures Selected(documents, p) != Selected(documents, q)
  {
    SelectedOnce(documents, p);
    SelectedOnce(documents, q);
    assert multiset(Selected(documents, p))[d] == 1 && multiset(Selected(documents, q))[d] == 0;
  }

  lemma {:induction false} SelectedSame(documents: seq<Doc>, p: Doc -> bool, q: Doc -> bool)
    requires forall d | IsLive(documents, d) :: p(d) == q(d)
    ensures Selected(documents, p) == Selected(documents, q)
  {
    if documents != [] {
      assert documents[0] in documents && forall d | IsLive(documents[1..], d) :: IsLive(documents, d);
      SelectedSame(documents[1..], p, q);
    }
  }

  // ---------- Ranked search ----------

  /** Occurrences of a token in the string members whose key is one of these. */
  function OccursWithin(members: seq<Member>, fields: set<string>, token: string, lib: Texts): nat {
    if members == [] then 0
    else
      var m := members[|members| - 1];
      OccursWithin(members[..|members| - 1], fields, token, lib)
      + if m.key in fields && m.value.Str? then multiset(lib.tokenize(m.value.s))[token] else 0
  }

  /** Occurrences of a token in all top-level strings. */
  function Total(members: seq<Member>, token: string, lib: Texts): nat {
    if members == [] then 0
    else
      var m := members[|members| - 1];
      Total(members[..|members| - 1], token, lib)
      + if m.value.Str? then multiset(lib.tokenize(m.value.s))[token] else 0
  }

  function Members(data: Value): seq<Member> {
    if data.Obj? then data.members else []
  }

  /** The score of a document: all occurrences of all query tokens. */
  function Score(data: Value, tokens: seq<string>, lib: Texts): nat {
    if tokens == [] then 0
    else Score(data, tokens[..|tokens| - 1], lib) + Total(Members(data), tokens[|tokens| - 1], lib)
  }

  lemma {:induction false} OneMoreField(members: seq<Member>, fields: set<string>, field: string, token: string, lib: Texts)
    requires field !in fields
    ensures OccursWithin(members, fields + {field}, token, lib)
         == OccursWithin(members, fields, token, lib) + Occurs(members, field, token, lib)
  {
    if members != [] {
      OneMoreField(members[..|members| - 1], fields, field, token, lib);
    }
  }

  lemma {:induction false} NoField(members: seq<Member>, token: string, lib: Texts)
    ensures OccursWithin(members, {}, token, lib) == 0
  {
    if members != [] {
      NoField(members[..|members| - 1], token, lib);
    }
  }

  lemma {:induction false} AllFields(members: seq<Member>, fields: set<string>, token: string, lib: Texts)
    requires forall f | f !in fields :: Occurs(members, f, token, lib) == 0
    ensures OccursWithin(members, fields, token, lib) == Total(members, token, lib)
  {
    if members != [] {
      var m := members[|members| - 1];
      assert m.key !in fields ==> Occurs(members, m.key, token, lib) == 0;
      forall f | f !in fields ensures Occurs(members[..|members| - 1], f, token, lib) == 0 {
        assert Occurs(members, f, token, lib) == 0;
      }
      AllFields(members[..|members| - 1], fields, token, lib);
    }
  }

  /** Some query token is in some top-level string. */
  ghost predicate HasToken(data: Value, tokens: seq<string>, lib: Texts) {
    exists m, t | m in Members(data) && t in tokens :: m.value.Str? && t in lib.tokenize(m.value.s)
  }

  lemma {:induction false} TotalPositive(members: seq<Member>, token: string, lib: Texts)
    ensures Total(members, token, lib) > 0 <==> exists m | m in members :: m.value.Str? && token in lib.tokenize(m.value.s)
  {
    if members != [] {
      var m := members[|members| - 1];
      assert members == members[..|members| - 1] + [m] && m in members;
      TotalPositive(members[..|members| - 1], token, lib);
      assert forall e :: e in members <==> e in members[..|members| - 1] || e == m;
    }
  }

  lemma {:induction false} ScorePositive(data: Value, tokens: seq<string>, lib: Texts)
    ensures Score(data, tokens, lib) > 0 <==> HasToken(data, tokens, lib)
  {
    if tokens != [] {
      var init, t := tokens[..|tokens| - 1], tokens[|tokens| - 1];
      ScorePositive(data, init, lib);
      TotalPositive(Members(data), t, lib);
      assert tokens == init + [t];
      OneMoreToken(data, init, t, lib);
    }
  }

  lemma OneMoreToken(data: Value, init: seq<string>, t: string, lib: Texts)
    ensures HasToken(data, init + [t], lib)
       <==> HasToken(data, init, lib) || exists m | m in Members(data) :: m.value.Str? && t in lib.tokenize(m.value.s)
  {
    var tokens := init + [t];
    assert forall u :: u in tokens <==> u in init || u == t;
    assert t in tokens;
    if HasToken(data, init, lib) {
      var m, u :| m in Members(data) && u in init && m.value.Str? && u in lib.tokenize(m.value.s);
      assert u in tokens;
    }
    if m :| m in Members(data) && m.value.Str? && t in lib.tokenize(m.value.s) {
      assert HasToken(data, tokens, lib);
    }
  }

  type Scores = map<string, nat>

  function ScoreOf(scores: Scores, id: string): nat {
    if id in scores then scores[id] else 0
  }

  ghost predicate AllPositive(scores: Scores) {
    forall id | id in scores :: scores[id] > 0
  }

  method AddIds(scores: Scores, ids: seq<string>) returns (r: Scores)
    requires AllPositive(scores)
    ensures AllPositive(r) && forall id :: ScoreOf(r, id) == ScoreOf(scores, id) + multiset(ids)[id]
  {
    r := scores;
    for i := 0 to |ids|
      invariant AllPositive(r) && forall id :: ScoreOf(r, id) == ScoreOf(scores, id) + multiset(ids[..i])[id]
    {
      assert ids[..i + 1] == ids[..i] + [ids[i]];
      r := r[ids[i] := ScoreOf(r, ids[i]) + 1];
    }
    assert ids[..|ids|] == ids;
  }

  /** Adds, for one token, the lists of all fields. */
  method AddToken(scores: Scores, x: Fields, token: string, ghost documents: seq<Doc>, lib: Texts) returns (r: Scores)
    requires AllPositive(scores) && InvertedOk(x, documents, lib)
    ensures AllPositive(r)
    ensures forall d | IsLive(documents, d) ::
      ScoreOf(r, d.id) == ScoreOf(scores, d.id) + Total(Members(d.data), token, lib)
  {
    hide InvertedOk;
    hide Total;
    r := scores;
    var left := x.Keys;
    assert x.Keys - left == {};
    forall d | IsLive(documents, d) ensures OccursWithin(Members(d.data), {}, token, lib) == 0 {
      NoField(Members(d.data), token, lib);
    }
    while left != {}
      invariant left <= x.Keys && AllPositive(r)
      invariant forall d | IsLive(documents, d) ::
        ScoreOf(r, d.id) == ScoreOf(scores, d.id) + OccursWithin(Members(d.data), x.Keys - left, token, lib)
      decreases |left|
    {
      var f :| f in left;
      var was := r;
      r := AddIds(r, Ids(x[f], token));
      forall d | IsLive(documents, d)
        ensures ScoreOf(r, d.id) == ScoreOf(was, d.id) + Occurs(Members(d.data), f, token, lib)
        ensures OccursWithin(Members(d.data), x.Keys - (left - {f}), token, lib)
             == OccursWithin(Members(d.data), x.Keys - left, token, lib) + Occurs(Members(d.data), f, token, lib)
      {
        ListedTokens(x, documents, d, f, token, lib);
        OneMoreField(Members(d.data), x.Keys - left, f, token, lib);
        assert x.Keys - (left - {f}) == x.Keys - left + {f};
      }
      left := left - {f};
    }
    forall d | IsLive(documents, d)
      ensures OccursWithin(Members(d.data), x.Keys, token, lib) == Total(Members(d.data), token, lib)
    {
      forall f | f !in x.Keys ensures Occurs(Members(d.data), f, token, lib) == 0 {
        ListedTokens(x, documents, d, f, token, lib);
      }
      AllFields(Members(d.data), x.Keys, token, lib);
    }
    assert x.Keys - {} == x.Keys;
  }

  lemma ListedTokens(x: Fields, documents: seq<Doc>, d: Doc, field: string, token: string, lib: Texts)
    requires InvertedOk(x, documents, lib) && IsLive(documents, d)
    ensures Occurs(Members(d.data), field, token, lib) == if field in x then multiset(Ids(x[field], token))[d.id] else 0
  {
    assert ListsTokens(x, d, lib);
    assert Count(x, field, token, d.id) == OccursIn(d.data, field, token, lib);
  }

  /** The ids by falling score; ids with equal scores come in any order. */
  /** The ids ranked so far: each once, by falling score, and above all that are left. */
  ghost predicate RankedAbove(scores: Scores, ids: seq<string>, left: set<string>) {
    && (forall id :: multiset(ids)[id] == if id in scores && id !in left then 1 else 0)
    && (forall i, j | 0 <= i < j < |ids| :: ScoreOf(scores, ids[i]) >= ScoreOf(scores, ids[j]))
    && (forall i, id | 0 <= i < |ids| && id in left :: ScoreOf(scores, ids[i]) >= ScoreOf(scores, id))
  }

  lemma RankNext(scores: Scores, ids: seq<string>, left: set<string>, best: string)
    requires RankedAbove(scores, ids, left) && left <= scores.Keys && best in left
    requires forall id | id in left :: ScoreOf(scores, best) >= ScoreOf(scores, id)
    ensures RankedAbove(scores, ids + [best], left - {best})
  {
    hide ScoreOf;
  }

  method Ranked(scores: Scores) returns (ids: seq<string>)
    ensures RankedAbove(scores, ids, {})
  {
    ids := [];
    var left := scores.Keys;
    assert RankedAbove(scores, ids, left);
    hide RankedAbove;
    while left != {}
      invariant left <= scores.Keys && RankedAbove(scores, ids, left)
      decreases |left|
    {
      var best := Highest(scores, left);
      RankNext(scores, ids, left, best);
      ids, left := ids + [best], left - {best};
    }
  }

  method Highest(scores: Scores, ids: set<string>) returns (best: string)
    requires ids != {}
    ensures best in ids && forall id | id in ids :: ScoreOf(scores, best) >= ScoreOf(scores, id)
  {
    best :| best in ids;
    var left := ids;
    while left != {}
      invariant left <= ids && best in ids
      invariant forall id | id in ids && id !in left :: ScoreOf(scores, best) >= ScoreOf(scores, id)
      decreases |left|
    {
      var id :| id in left;
      left := left - {id};
      if ScoreOf(scores, id) > ScoreOf(scores, best) {
        best := id;
      }
    }
  }

  method ScoreAll(x: Fields, tokens: seq<string>, ghost documents: seq<Doc>, lib: Texts) returns (scores: Scores)
    requires InvertedOk(x, documents, lib)
    ensures AllPositive(scores) && forall d | IsLive(documents, d) :: ScoreOf(scores, d.id) == Score(d.data, tokens, lib)
  {
    hide InvertedOk;
    scores := map[];
    for i := 0 to |tokens|
      invariant AllPositive(scores)
      invariant forall d | IsLive(documents, d) :: ScoreOf(scores, d.id) == Score(d.data, tokens[..i], lib)
    {
      assert tokens[..i + 1][..i] == tokens[..i];
      scores := AddToken(scores, x, tokens[i], documents, lib);
    }
    assert tokens[..|tokens|] == tokens;
  }

  /** The live documents with these ids, in the order of the ids. */
  function Resolved(ids: seq<string>, documents: seq<Doc>): seq<Doc> {
    if ids == [] then []
    else
      var doc := FindLive(documents, ids[|ids| - 1]);
      Resolved(ids[..|ids| - 1], documents) + if doc.Some? then [doc.value] else []
  }

  method Resolve(ids: seq<string>, documents: seq<Doc>) returns (found: seq<Doc>)
    ensures found == Resolved(ids, documents)
  {
    found := [];
    for i := 0 to |ids|
      invariant found == Resolved(ids[..i], documents)
    {
      assert ids[..i + 1][..i] == ids[..i];
      var doc := FindLive(documents, ids[i]);
      if doc.Some? {
        found := found + [doc.value];
      }
    }
    assert ids[..|ids|] == ids;
  }

  lemma {:induction false} ResolvedCount(ids: seq<string>, documents: seq<Doc>, d: Doc)
    requires DistinctIds(documents)
    ensures multiset(Resolved(ids, documents))[d] == if IsLive(documents, d) then multiset(ids)[d.id] else 0
  {
    hide DistinctIds;
    hide IsLive;
    hide FindLive;
    if ids != [] {
      var init, id := ids[..|ids| - 1], ids[|ids| - 1];
      assert ids == init + [id];
      ResolvedCount(init, documents, d);
      FindLiveIs(documents, id, d);
    }
  }

  ghost predicate Falling(found: seq<Doc>, rank: string -> nat) {
    forall i, j | 0 <= i < j < |found| :: rank(found[i].id) >= rank(found[j].id)
  }

  /** A lower bound of the ranks of the ids is one of the ranks of what is found. */
  lemma {:induction false} ResolvedAtLeast(ids: seq<string>, documents: seq<Doc>, rank: string -> nat, r: nat)
    requires DistinctIds(documents) && forall i | 0 <= i < |ids| :: rank(ids[i]) >= r
    ensures forall d | d in Resolved(ids, documents) :: rank(d.id) >= r
  {
    hide DistinctIds;
    hide IsLive;
    hide FindLive;
    if ids != [] {
      ResolvedAtLeast(ids[..|ids| - 1], documents, rank, r);
      var doc := FindLive(documents, ids[|ids| - 1]);
      if doc.Some? {
        FindLiveIs(documents, ids[|ids| - 1], doc.value);
      }
    }
  }

  /** What is found keeps the order of the ids by any rank. */
  lemma {:induction false} ResolvedFalls(ids: seq<string>, documents: seq<Doc>, rank: string -> nat)
    requires DistinctIds(documents)
    requires forall i, j | 0 <= i < j < |ids| :: rank(ids[i]) >= rank(ids[j])
    ensures Falling(Resolved(ids, documents), rank)
  {
    hide DistinctIds;
    hide IsLive;
    hide FindLive;
    if ids != [] {
      var init, id := ids[..|ids| - 1], ids[|ids| - 1];
      ResolvedFalls(init, documents, rank);
      ResolvedAtLeast(init, documents, rank, rank(id));
      var before, doc := Resolved(init, documents), FindLive(documents, id);
      if doc.Some? {
        FindLiveIs(documents, id, doc.value);
        assert forall k | 0 <= k < |before| :: before[k] in before;
      }
    }
  }

  /** Full-text search with a token: each live document that has one of the query tokens in a
      top-level string, once, by falling number of occurrences. */
  method SearchRanked(c: Collection, tokens: seq<string>, lib: Texts) returns (found: seq<Doc>)
    requires CollectionOk(c, lib)
    ensures EachOnce(found, c.documents, (d: Doc) => HasToken(d.data, tokens, lib))
    ensures forall i, j | 0 <= i < j < |found| :: Score(found[i].data, tokens, lib) >= Score(found[j].data, tokens, lib)
  {
    hide InvertedOk;
    hide SecondaryOk;
    hide DistinctIds;
    hide HasToken;
    hide Score;
    var scores := ScoreAll(c.inverted, tokens, c.documents, lib);
    var ids := Ranked(scores);
    found := Resolve(ids, c.documents);
    ResolvedFalls(ids, c.documents, id => ScoreOf(scores, id));
    forall d ensures multiset(found)[d] == if IsLive(c.documents, d) then multiset(ids)[d.id] else 0 {
      ResolvedCount(ids, c.documents, d);
    }
    forall d | IsLive(c.documents, d) ensures d.id in scores <==> HasToken(d.data, tokens, lib) {
      ScorePositive(d.data, tokens, lib);
    }
    forall i | 0 <= i < |found| ensures IsLive(c.documents, found[i]) {
      assert multiset(found)[found[i]] > 0;
    }
  }

  // ---------- Compaction ----------

  /** What is asked of the live documents is not changed by dropping the others. */
  lemma {:induction false} CompactInvisible(documents: seq<Doc>, wanted: Doc -> bool, id: string, d: Doc)
    ensures Selected(Live(documents), wanted) == Selected(documents, wanted)
    ensures FindLive(Live(documents), id) == FindLive(documents, id)
    ensures IsLive(Live(documents), d) <==> IsLive(documents, d)
  {
    LiveHas(documents, d);
    if documents != [] {
      CompactInvisible(documents[1..], wanted, id, d);
      if !documents[0].deleted {
        assert Live(documents)[1..] == Live(documents[1..]);
      } else {
        assert Live(documents) == Live(documents[1..]);
      }
    }
  }
}
