/** Which documents each range operator selects, by the characters of their keys. */
module CollectionRanges {
  import opened Options
  import opened Json
  import opened StringOrder
  import opened Collections
  import opened CollectionQueries

  /** The operator lets a document in. */
  predicate In(d: Doc, documents: seq<Doc>, field: string, op: string, value: string, lib: Texts) {
    d in RangeScan(documents, field, op, value, lib)
  }

  /** A live document that has the field, with this text as its key. */
  predicate Keyed(d: Doc, documents: seq<Doc>, field: string, key: string, lib: Texts) {
    IsLive(documents, d) && Get(d.data, field).Some? && Text(Get(d.data, field).value, lib) == key
  }

  /** A string is its own key, another value is rendered. */
  function Text(v: Value, lib: Texts): string {
    match v
    case Str(s) => s
    case _ => lib.render(v)
  }

  lemma {:induction false} InSelected(documents: seq<Doc>, wanted: Doc -> bool, d: Doc)
    ensures d in Selected(documents, wanted) <==> IsLive(documents, d) && wanted(d)
  {
    if documents != [] {
      InSelected(documents[1..], wanted, d);
      assert documents == [documents[0]] + documents[1..];
    }
  }

  lemma InRangeScan(d: Doc, documents: seq<Doc>, field: string, op: string, value: string, lib: Texts)
    ensures In(d, documents, field, op, value, lib)
       <==> exists key :: Keyed(d, documents, field, key, lib) && InRange(op, key, value)
  {
    InSelected(documents, (e: Doc) => RangeHolds(e, field, op, value, lib), d);
    if Get(d.data, field).Some? {
      assert Keyed(d, documents, field, Text(Get(d.data, field).value, lib), lib) <==> IsLive(documents, d);
    }
  }

  /** A document is in `<` exactly when its key is a proper part of the value from the start, or has
      the smaller character where the two first differ; in `>` exactly the other way round. */
  lemma BelowAndAbove(d: Doc, documents: seq<Doc>, field: string, value: string, lib: Texts)
    ensures In(d, documents, field, "<", value, lib)
       <==> exists key, i :: Keyed(d, documents, field, key, lib) && DiffersBelow(key, value, i)
    ensures In(d, documents, field, ">", value, lib)
       <==> exists key, i :: Keyed(d, documents, field, key, lib) && DiffersBelow(value, key, i)
  {
    InRangeScan(d, documents, field, "<", value, lib);
    InRangeScan(d, documents, field, ">", value, lib);
    forall key
      ensures InRange("<", key, value) <==> exists i :: DiffersBelow(key, value, i)
      ensures InRange(">", key, value) <==> exists i :: DiffersBelow(value, key, i)
    {
      BeforeMeans(key, value);
      BeforeMeans(value, key);
    }
    hide In;
    hide Keyed;
    hide InRange;
    hide DiffersBelow;
    if key: string, i: nat :| Keyed(d, documents, field, key, lib) && DiffersBelow(key, value, i) {
      assert InRange("<", key, value);
    }
    if key: string, i: nat :| Keyed(d, documents, field, key, lib) && DiffersBelow(value, key, i) {
      assert InRange(">", key, value);
    }
  }

  /** `<` and `>` share no document; a live document with the field is in one of them or has the
      value as its key; `<=` and `>=` add exactly those. */
  lemma ThreeParts(d: Doc, documents: seq<Doc>, field: string, value: string, lib: Texts)
    ensures var below, above := In(d, documents, field, "<", value, lib), In(d, documents, field, ">", value, lib);
      var equal := Keyed(d, documents, field, value, lib);
      && !(below && above) && !(below && equal) && !(above && equal)
      && (below || above || equal <==> IsLive(documents, d) && Get(d.data, field).Some?)
      && (In(d, documents, field, "<=", value, lib) <==> below || equal)
      && (In(d, documents, field, ">=", value, lib) <==> above || equal)
  {
    InRangeScan(d, documents, field, "<", value, lib);
    InRangeScan(d, documents, field, ">", value, lib);
    InRangeScan(d, documents, field, "<=", value, lib);
    InRangeScan(d, documents, field, ">=", value, lib);
    hide In;
    if Get(d.data, field).Some? {
      var key := Text(Get(d.data, field).value, lib);
      Trichotomy(key, value);
      Trichotomy(value, value);
      assert Keyed(d, documents, field, key, lib) <==> IsLive(documents, d);
    }
  }

  /** Any other operator selects nothing. */
  lemma OtherOperators(documents: seq<Doc>, field: string, op: string, value: string, lib: Texts)
    requires op != "<" && op != ">" && op != "<=" && op != ">="
    ensures RangeScan(documents, field, op, value, lib) == []
  {
    if RangeScan(documents, field, op, value, lib) != [] {
      var d := RangeScan(documents, field, op, value, lib)[0];
      InRangeScan(d, documents, field, op, value, lib);
      assert In(d, documents, field, op, value, lib);
      assert false;
    }
  }

  /** The order an operator asks for, in characters. */
  ghost predicate Asked(op: string, key: string, value: string) {
    || ((op == "<" || op == "<=") && exists i :: DiffersBelow(key, value, i))
    || ((op == ">" || op == ">=") && exists i :: DiffersBelow(value, key, i))
    || ((op == "<=" || op == ">=") && key == value)
  }

  /** The answer to a range query: each live document whose key is in the order asked for, once. */
  ghost predicate RangeAnswer(found: seq<Doc>, documents: seq<Doc>, field: string, op: string, value: string, lib: Texts) {
    forall d ::
      && (d in found <==> exists key :: Keyed(d, documents, field, key, lib) && Asked(op, key, value))
      && multiset(found)[d] <= 1
  }

  lemma AskedIsInRange(op: string, key: string, value: string)
    ensures Asked(op, key, value) <==> InRange(op, key, value)
  {
    BeforeMeans(key, value);
    BeforeMeans(value, key);
    hide DiffersBelow;
    hide Before;
  }

  lemma InAsAsked(d: Doc, documents: seq<Doc>, field: string, op: string, value: string, lib: Texts)
    ensures In(d, documents, field, op, value, lib)
       <==> exists key :: Keyed(d, documents, field, key, lib) && Asked(op, key, value)
  {
    InRangeScan(d, documents, field, op, value, lib);
    forall key ensures Asked(op, key, value) <==> InRange(op, key, value) {
      AskedIsInRange(op, key, value);
    }
    hide *;
  }

  lemma SameMembers(a: seq<Doc>, b: seq<Doc>, d: Doc)
    requires multiset(a) == multiset(b)
    ensures d in a <==> d in b
  {
    assert d in a <==> multiset(a)[d] > 0;
    assert d in b <==> multiset(b)[d] > 0;
  }

  /** The scan's answer, in whatever order, is that. */
  lemma ScanAnswers(found: seq<Doc>, documents: seq<Doc>, field: string, op: string, value: string, lib: Texts)
    requires DistinctIds(documents) && multiset(found) == multiset(RangeScan(documents, field, op, value, lib))
    ensures RangeAnswer(found, documents, field, op, value, lib)
  {
    hide Asked;
    hide Keyed;
    hide RangeScan;
    hide Selected;
    hide DistinctIds;
    hide IsLive;
    hide RangeHolds;
    forall d
      ensures d in found <==> exists key :: Keyed(d, documents, field, key, lib) && Asked(op, key, value)
    {
      SameMembers(found, RangeScan(documents, field, op, value, lib), d);
      InAsAsked(d, documents, field, op, value, lib);
    }
    ScanOnce(found, documents, field, op, value, lib);
  }

  lemma ScanOnce(found: seq<Doc>, documents: seq<Doc>, field: string, op: string, value: string, lib: Texts)
    requires DistinctIds(documents) && multiset(found) == multiset(RangeScan(documents, field, op, value, lib))
    ensures forall d :: multiset(found)[d] <= 1
  {
    SelectedOnce(documents, (d: Doc) => RangeHolds(d, field, op, value, lib));
    hide DistinctIds;
    hide Selected;
  }
}
