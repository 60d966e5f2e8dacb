/** What paths find and what comparisons say, in numbers. */
module QueryNumbers {
  import opened Options
  import opened Json
  import opened Documents
  import opened Queries
  import opened EngineStore
  import Engine
  import Index

  // ---------- Paths ----------

  /** The path is followed one key at a time, through objects only. */
  ghost predicate Leads(v: Value, path: seq<string>, x: Value) {
    exists steps: seq<Value> :: Follows(v, path, x, steps)
  }

  /** The values on the way: each is an object that has the next under the path's key. */
  ghost predicate Follows(v: Value, path: seq<string>, x: Value, steps: seq<Value>) {
    && |steps| == |path| + 1 && steps[0] == v && steps[|path|] == x
    && forall i | 0 <= i < |path| :: steps[i].Obj? && Get(steps[i], path[i]) == Some(steps[i + 1])
  }

  /** What is found at a path is what the path leads to. */
  lemma {:induction false} PathLeads(v: Value, path: seq<string>, x: Value)
    ensures At(v, path) == Some(x) <==> Leads(v, path, x)
    decreases |path|
  {
    if path == [] {
      if At(v, path) == Some(x) {
        assert Follows(v, path, x, [v]);
      }
    } else {
      if At(v, path) == Some(x) {
        var next := Get(v, path[0]).value;
        PathLeads(next, path[1..], x);
        var steps :| Follows(next, path[1..], x, steps);
        assert forall i | 1 <= i < |path| :: path[i] == path[1..][i - 1];
        assert Follows(v, path, x, [v] + steps);
      }
      if steps :| Follows(v, path, x, steps) {
        assert forall i | 0 <= i < |path| - 1 :: path[1..][i] == path[i + 1];
        assert Follows(steps[1], path[1..], x, steps[1..]);
        PathLeads(steps[1], path[1..], x);
      }
    }
  }

  // ---------- Numbers ----------

  datatype Comparison = Greater | Less | AtLeast | AtMost

  function Comparing(op: Comparison, path: seq<string>, bound: Float): Query {
    match op
    case Greater => Gt(path, bound)
    case Less => Lt(path, bound)
    case AtLeast => Gte(path, bound)
    case AtMost => Lte(path, bound)
  }

  predicate Ordered(op: Comparison, a: int, b: int) {
    match op
    case Greater => a > b
    case Less => a < b
    case AtLeast => a >= b
    case AtMost => a <= b
  }

  /** Where a float lies among the finite ones from -limit to limit; NaN lies nowhere. */
  function Place(f: Float, limit: nat): Option<int> {
    match f
    case NaN => None
    case NegativeInfinity => Some(-(limit as int) - 1)
    case Finite(rank) => Some(rank)
    case PositiveInfinity => Some(limit + 1)
  }

  predicate Within(f: Float, limit: nat) {
    f.Finite? ==> -(limit as int) <= f.rank <= limit
  }

  /** The number that a document has at a path. */
  ghost predicate HasNumber(v: Value, path: seq<string>, toFloat: ToFloat, f: Float) {
    exists n :: Leads(v, path, Num(n)) && toFloat(n) == Some(f)
  }

  lemma NumberIs(v: Value, path: seq<string>, toFloat: ToFloat, f: Float)
    ensures NumberAt(v, path, toFloat) == Some(f) <==> HasNumber(v, path, toFloat, f)
  {
    if NumberAt(v, path, toFloat) == Some(f) {
      var x := At(v, path).value;
      PathLeads(v, path, x);
      assert x == Num(x.n);
    }
    if n :| Leads(v, path, Num(n)) && toFloat(n) == Some(f) {
      PathLeads(v, path, Num(n));
    }
  }

  /** A comparison holds of a document exactly when it has a number at the path, neither that nor
      the bound is NaN, and the two are in that order: by their numbers if both are finite, and
      with an infinity beyond every finite one. */
  lemma ComparesNumbers(op: Comparison, v: Value, path: seq<string>, bound: Float, limit: nat,
                        tokenize: Index.Tokenizer, toFloat: ToFloat)
    requires Within(bound, limit) && forall f | HasNumber(v, path, toFloat, f) :: Within(f, limit)
    ensures Satisfies(Comparing(op, path, bound), v, tokenize, toFloat)
       <==> exists f | HasNumber(v, path, toFloat, f) ::
              && Place(f, limit).Some? && Place(bound, limit).Some?
              && Ordered(op, Place(f, limit).value, Place(bound, limit).value)
  {
    forall f ensures NumberAt(v, path, toFloat) == Some(f) <==> HasNumber(v, path, toFloat, f) {
      NumberIs(v, path, toFloat, f);
    }
    hide HasNumber;
  }

  /** Between finite numbers, for whatever the document has at the path. */
  lemma ComparesFinite(op: Comparison, v: Value, path: seq<string>, a: int, b: int,
                       tokenize: Index.Tokenizer, toFloat: ToFloat)
    requires HasNumber(v, path, toFloat, Finite(a))
    ensures Satisfies(Comparing(op, path, Finite(b)), v, tokenize, toFloat) <==> Ordered(op, a, b)
  {
    forall f ensures NumberAt(v, path, toFloat) == Some(f) <==> HasNumber(v, path, toFloat, f) {
      NumberIs(v, path, toFloat, f);
    }
    hide HasNumber;
  }

  /** The result of a query for documents on one side of a finite bound: each live document with a
      finite number on that side at the path, or with the infinity on that side, once. */
  lemma QueryListsNumbers(op: Comparison, found: seq<Document>, docs: Docs, path: seq<string>, b: int,
                          lib: Library, toFloat: ToFloat, d: Document)
    requires Engine.Lists(found, docs, (e: Document) =>
               Satisfies(Comparing(op, path, Finite(b)), e.data, lib.tokenize, toFloat))
    ensures d in found <==>
      && Engine.Holds(docs, d)
      && (|| (exists a :: HasNumber(d.data, path, toFloat, Finite(a)) && Ordered(op, a, b))
          || (HasNumber(d.data, path, toFloat, PositiveInfinity) && (op.Greater? || op.AtLeast?))
          || (HasNumber(d.data, path, toFloat, NegativeInfinity) && (op.Less? || op.AtMost?)))
    ensures multiset(found)[d] <= 1
  {
    forall f ensures NumberAt(d.data, path, toFloat) == Some(f) <==> HasNumber(d.data, path, toFloat, f) {
      NumberIs(d.data, path, toFloat, f);
    }
    hide HasNumber;
    assert d in found <==> multiset(found)[d] > 0;
  }
}
