/** Queries: what they mean, and how they are evaluated with the inverted index. */
module Queries {
  import opened Options
  import opened Json
  import opened Documents
  import Index

  datatype Query =
    | All
    | Eq(path: seq<string>, value: Value)
    | Gt(path: seq<string>, bound: Float)
    | Lt(path: seq<string>, bound: Float)
    | Gte(path: seq<string>, bound: Float)
    | Lte(path: seq<string>, bound: Float)
    | Search(term: string)
    | And(left: Query, right: Query)
    | Or(left: Query, right: Query)

  /** A JSON number as a 64-bit float, as the number library converts it. */
  type ToFloat = Number -> Option<Float>

  // ---------- Comparing floats: every comparison with NaN is false ----------

  predicate Below(a: Float, b: Float) {
    match a
    case NaN => false
    case NegativeInfinity => !b.NaN? && !b.NegativeInfinity?
    case Finite(rank) => b.PositiveInfinity? || (b.Finite? && rank < b.rank)
    case PositiveInfinity => false
  }

  predicate Same(a: Float, b: Float) {
    a == b && !a.NaN?
  }

  // ---------- Paths ----------

  /** The value at a path of object keys. */
  function At(v: Value, path: seq<string>): Option<Value>
    decreases |path|
  {
    if path == [] then Some(v)
    else
      var member := Get(v, path[0]);
      if member.None? then None else At(member.value, path[1..])
  }

  method ResolvePath(v: Value, path: seq<string>) returns (r: Option<Value>)
    ensures r == At(v, path)
  {
    var current := v;
    for i := 0 to |path|
      invariant At(v, path) == At(current, path[i..])
    {
      match current {
        case Obj(members) =>
          var member := Lookup(members, path[i]);
          if member.None? {
            return None;
          }
          current := member.value;
        case _ =>
          return None;
      }
    }
    return Some(current);
  }

  function NumberAt(v: Value, path: seq<string>, toFloat: ToFloat): Option<Float> {
    var found := At(v, path);
    if found.Some? && found.value.Num? then toFloat(found.value.n) else None
  }

  // ---------- Evaluation and meaning ----------

  /** `Query::matches`, which looks a search up in the index. */
  predicate Matches(q: Query, d: Document, index: Index.Postings, tokenize: Index.Tokenizer, toFloat: ToFloat) {
    match q
    case All => true
    case Eq(path, value) => At(d.data, path) == Some(value)
    case Gt(path, b) => var n := NumberAt(d.data, path, toFloat); n.Some? && Below(b, n.value)
    case Lt(path, b) => var n := NumberAt(d.data, path, toFloat); n.Some? && Below(n.value, b)
    case Gte(path, b) =>
      var n := NumberAt(d.data, path, toFloat); n.Some? && (Below(b, n.value) || Same(n.value, b))
    case Lte(path, b) =>
      var n := NumberAt(d.data, path, toFloat); n.Some? && (Below(n.value, b) || Same(n.value, b))
    case Search(term) => d.id in Index.Matching(index, tokenize(term))
    case And(a, b) => Matches(a, d, index, tokenize, toFloat) && Matches(b, d, index, tokenize, toFloat)
    case Or(a, b) => Matches(a, d, index, tokenize, toFloat) || Matches(b, d, index, tokenize, toFloat)
  }

  /** What a query says about a document's own data; no index is involved. A search holds when the
      term has a token and all its tokens are in the document. */
  ghost predicate Satisfies(q: Query, v: Value, tokenize: Index.Tokenizer, toFloat: ToFloat) {
    match q
    case Search(term) => tokenize(term) != [] && Index.TokenSet(tokenize(term)) <= Index.Tokens(v, tokenize)
    case And(a, b) => Satisfies(a, v, tokenize, toFloat) && Satisfies(b, v, tokenize, toFloat)
    case Or(a, b) => Satisfies(a, v, tokenize, toFloat) || Satisfies(b, v, tokenize, toFloat)
    case _ => Compares(q, v, toFloat)
  }

  /** The leaves that compare what is at a path. */
  ghost predicate Compares(q: Query, v: Value, toFloat: ToFloat) {
    match q
    case All => true
    case Eq(path, value) => At(v, path) == Some(value)
    case Gt(path, b) => exists n :: NumberAt(v, path, toFloat) == Some(n) && Below(b, n)
    case Lt(path, b) => exists n :: NumberAt(v, path, toFloat) == Some(n) && Below(n, b)
    case Gte(path, b) => exists n :: NumberAt(v, path, toFloat) == Some(n) && (Below(b, n) || Same(b, n))
    case Lte(path, b) => exists n :: NumberAt(v, path, toFloat) == Some(n) && (Below(n, b) || Same(b, n))
    case _ => false
  }

  /** The index lists a document under exactly the tokens of its data. */
  ghost predicate ListedExactly(index: Index.Postings, d: Document, tokenize: Index.Tokenizer) {
    forall t :: (t in index && d.id in index[t]) <==> t in Index.Tokens(d.data, tokenize)
  }

  /** Evaluation through an index that lists the document exactly agrees with the meaning. */
  lemma {:induction false} MatchesIsMeaning(q: Query, d: Document, index: Index.Postings,
                                            tokenize: Index.Tokenizer, toFloat: ToFloat)
    requires ListedExactly(index, d, tokenize)
    ensures Matches(q, d, index, tokenize, toFloat) <==> Satisfies(q, d.data, tokenize, toFloat)
  {
    match q {
      case Search(term) =>
        SearchIsContainment(term, d, index, tokenize);
      case And(a, b) =>
        MatchesIsMeaning(a, d, index, tokenize, toFloat);
        MatchesIsMeaning(b, d, index, tokenize, toFloat);
      case Or(a, b) =>
        MatchesIsMeaning(a, d, index, tokenize, toFloat);
        MatchesIsMeaning(b, d, index, tokenize, toFloat);
      case _ =>
    }
  }

  lemma SearchIsContainment(term: string, d: Document, index: Index.Postings, tokenize: Index.Tokenizer)
    requires ListedExactly(index, d, tokenize)
    ensures d.id in Index.Matching(index, tokenize(term))
       <==> tokenize(term) != [] && Index.TokenSet(tokenize(term)) <= Index.Tokens(d.data, tokenize)
  {
    var tokens := tokenize(term);
    assert forall t :: t in Index.TokenSet(tokens) <==> t in tokens;
  }

  /** `Query::execute`: the documents that match, in the order given. */
  function Execute(q: Query, docs: seq<Document>, index: Index.Postings,
                   tokenize: Index.Tokenizer, toFloat: ToFloat): seq<Document> {
    if docs == [] then []
    else (if Matches(q, docs[0], index, tokenize, toFloat) then [docs[0]] else [])
         + Execute(q, docs[1..], index, tokenize, toFloat)
  }

  /** With an index that lists every document exactly, executing a query keeps each document that
      satisfies it as often as it was given, and no other. */
  lemma {:induction false} ExecuteIsMeaning(q: Query, docs: seq<Document>, index: Index.Postings,
                                            tokenize: Index.Tokenizer, toFloat: ToFloat, d: Document)
    requires forall e | e in docs :: ListedExactly(index, e, tokenize)
    ensures multiset(Execute(q, docs, index, tokenize, toFloat))[d]
         == if Satisfies(q, d.data, tokenize, toFloat) then multiset(docs)[d] else 0
  {
    if docs != [] {
      assert docs == [docs[0]] + docs[1..];
      MatchesIsMeaning(q, docs[0], index, tokenize, toFloat);
      ExecuteIsMeaning(q, docs[1..], index, tokenize, toFloat, d);
    }
  }
}
