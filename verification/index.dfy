/** The engine's inverted index: tokens found anywhere in a document, and the documents that
    hold them. */
module Index {
  import opened Options
  import opened Json

  type DocId = string
  type Token = string
  type Tokenizer = string -> seq<Token>
  type Postings = map<Token, set<DocId>>

  /** The index as a relation between tokens and documents. */
  type Pairs = set<(Token, DocId)>

  function TokenSet(tokens: seq<Token>): set<Token> {
    set t | t in tokens
  }

  /** All tokens of all strings in a value, at any depth. */
  function Tokens(v: Value, tokenize: Tokenizer): set<Token>
    decreases v
  {
    match v
    case Str(s) => TokenSet(tokenize(s))
    case Arr(items) => ItemTokens(items, tokenize)
    case Obj(members) => MemberTokens(members, tokenize)
    case _ => {}
  }

  function ItemTokens(items: seq<Value>, tokenize: Tokenizer): set<Token>
    decreases items
  {
    if items == [] then {} else ItemTokens(items[..|items| - 1], tokenize) + Tokens(items[|items| - 1], tokenize)
  }

  function MemberTokens(members: seq<Member>, tokenize: Tokenizer): set<Token>
    decreases members
  {
    if members == [] then {}
    else MemberTokens(members[..|members| - 1], tokenize) + Tokens(members[|members| - 1].value, tokenize)
  }

  /** The value is this string, or holds it somewhere inside. */
  ghost predicate HoldsString(v: Value, s: string)
    decreases v
  {
    match v
    case Str(t) => t == s
    case Arr(items) => exists i | 0 <= i < |items| :: HoldsString(items[i], s)
    case Obj(members) => exists i | 0 <= i < |members| :: HoldsString(members[i].value, s)
    case _ => false
  }

  /** The tokens of a value are those of the strings it holds at any depth, and no others. */
  lemma {:induction false} TokensAreOfStrings(v: Value, tokenize: Tokenizer, t: Token)
    ensures t in Tokens(v, tokenize) <==> exists s :: HoldsString(v, s) && t in tokenize(s)
    decreases v
  {
    match v {
      case Str(s) =>
        assert HoldsString(v, s);
      case Arr(items) =>
        ItemTokensAre(items, tokenize, t);
        ArrHolds(items, tokenize, t);
      case Obj(members) =>
        MemberTokensAre(members, tokenize, t);
        ObjHolds(members, tokenize, t);
      case _ =>
    }
  }

  ghost predicate HoldsToken(v: Value, tokenize: Tokenizer, t: Token) {
    exists s :: HoldsString(v, s) && t in tokenize(s)
  }

  lemma ArrHolds(items: seq<Value>, tokenize: Tokenizer, t: Token)
    ensures HoldsToken(Arr(items), tokenize, t) <==> exists i | 0 <= i < |items| :: HoldsToken(items[i], tokenize, t)
  {
    if HoldsToken(Arr(items), tokenize, t) {
      var s :| HoldsString(Arr(items), s) && t in tokenize(s);
      var i :| 0 <= i < |items| && HoldsString(items[i], s);
      assert HoldsToken(items[i], tokenize, t);
    }
    if i :| 0 <= i < |items| && HoldsToken(items[i], tokenize, t) {
      var s :| HoldsString(items[i], s) && t in tokenize(s);
      assert HoldsString(Arr(items), s);
    }
  }

  lemma ObjHolds(members: seq<Member>, tokenize: Tokenizer, t: Token)
    ensures HoldsToken(Obj(members), tokenize, t)
       <==> exists i | 0 <= i < |members| :: HoldsToken(members[i].value, tokenize, t)
  {
    if HoldsToken(Obj(members), tokenize, t) {
      var s :| HoldsString(Obj(members), s) && t in tokenize(s);
      var i :| 0 <= i < |members| && HoldsString(members[i].value, s);
      assert HoldsToken(members[i].value, tokenize, t);
    }
    if i :| 0 <= i < |members| && HoldsToken(members[i].value, tokenize, t) {
      var s :| HoldsString(members[i].value, s) && t in tokenize(s);
      assert HoldsString(Obj(members), s);
    }
  }

  lemma {:induction false} ItemTokensAre(items: seq<Value>, tokenize: Tokenizer, t: Token)
    ensures t in ItemTokens(items, tokenize) <==> exists i | 0 <= i < |items| :: HoldsToken(items[i], tokenize, t)
    decreases items
  {
    if items != [] {
      var n := |items| - 1;
      ItemTokensAre(items[..n], tokenize, t);
      TokensAreOfStrings(items[n], tokenize, t);
      assert HoldsToken(items[n], tokenize, t) <==> t in Tokens(items[n], tokenize);
      hide HoldsToken;
      assert forall i | 0 <= i < n :: items[..n][i] == items[i];
    }
  }

  lemma {:induction false} MemberTokensAre(members: seq<Member>, tokenize: Tokenizer, t: Token)
    ensures t in MemberTokens(members, tokenize)
       <==> exists i | 0 <= i < |members| :: HoldsToken(members[i].value, tokenize, t)
    decreases members
  {
    if members != [] {
      var n := |members| - 1;
      MemberTokensAre(members[..n], tokenize, t);
      TokensAreOfStrings(members[n].value, tokenize, t);
      assert HoldsToken(members[n].value, tokenize, t) <==> t in Tokens(members[n].value, tokenize);
      hide HoldsToken;
      assert forall i | 0 <= i < n :: members[..n][i] == members[i];
    }
  }

  function PairsOf(tokens: set<Token>, id: DocId): Pairs {
    set t | t in tokens :: (t, id)
  }

  ghost function Relation(m: Postings): Pairs {
    set t, id | t in m && id in m[t] :: (t, id)
  }

  ghost predicate NoEmptySet(m: Postings) {
    forall t | t in m :: m[t] != {}
  }

  /** Without empty sets the map is determined by its relation. */
  lemma RelationDetermines(a: Postings, b: Postings)
    requires NoEmptySet(a) && NoEmptySet(b) && Relation(a) == Relation(b)
    ensures a == b
  {
    forall t, id
      ensures t in a && id in a[t] <==> (t, id) in Relation(a)
      ensures t in b && id in b[t] <==> (t, id) in Relation(b)
    {
    }
    forall t ensures t in a <==> t in b {
      if t in a {
        var id :| id in a[t];
        assert (t, id) in Relation(b);
      }
      if t in b {
        var id :| id in b[t];
        assert (t, id) in Relation(a);
      }
    }
    forall t | t in a ensures a[t] == b[t] {
      forall id ensures id in a[t] <==> id in b[t] {
        assert (t, id) in Relation(a) <==> (t, id) in Relation(b);
      }
    }
  }

  /** Documents related to every token; none when there is no token. */
  function Matching(m: Postings, tokens: seq<Token>): (ids: set<DocId>)
    ensures tokens != [] ==> forall id :: id in ids <==> forall t | t in tokens :: t in m && id in m[t]
    ensures tokens == [] ==> ids == {}
  {
    if tokens == [] || exists t | t in tokens :: t !in m then {}
    else set id | id in m[tokens[0]] && forall t | t in tokens :: id in m[t]
  }

  lemma AddPair(m: Postings, t: Token, id: DocId)
    ensures var m' := m[t := (if t in m then m[t] else {}) + {id}];
            Relation(m') == Relation(m) + {(t, id)} && (NoEmptySet(m) ==> NoEmptySet(m'))
  {
    var m' := m[t := (if t in m then m[t] else {}) + {id}];
    forall u, i ensures (u, i) in Relation(m') <==> (u, i) in Relation(m) + {(t, id)} {
    }
  }

  lemma RemovePair(m: Postings, t: Token, id: DocId)
    requires t in m
    ensures var rest := m[t] - {id};
            var m' := if rest == {} then m - {t} else m[t := rest];
            Relation(m') == Relation(m) - {(t, id)} && (NoEmptySet(m) ==> NoEmptySet(m'))
  {
    var rest := m[t] - {id};
    var m' := if rest == {} then m - {t} else m[t := rest];
    assert forall i :: i in rest <==> i in m[t] && i != id;
    forall u, i ensures (u, i) in Relation(m') <==> (u, i) in Relation(m) - {(t, id)} {
      assert (u, i) in Relation(m) <==> u in m && i in m[u];
      assert (u, i) in Relation(m') <==> u in m' && i in m'[u];
    }
  }

  lemma AbsentPair(m: Postings, t: Token, id: DocId)
    requires t !in m
    ensures Relation(m) - {(t, id)} == Relation(m)
  {
  }

  lemma PairsJoin(a: set<Token>, b: set<Token>, id: DocId)
    ensures PairsOf(a + b, id) == PairsOf(a, id) + PairsOf(b, id)
  {
  }

  class InvertedIndex {
    const tokenize: Tokenizer
    var postings: Postings

    constructor (tokenize: Tokenizer)
      ensures postings == map[] && this.tokenize == tokenize
      ensures Relation(postings) == {} && NoEmptySet(postings)
    {
      this.tokenize, postings := tokenize, map[];
    }

    method IndexTokens(id: DocId, tokens: seq<Token>)
      modifies this
      ensures Relation(postings) == old(Relation(postings)) + PairsOf(TokenSet(tokens), id)
      ensures old(NoEmptySet(postings)) ==> NoEmptySet(postings)
    {
      for i := 0 to |tokens|
        invariant Relation(postings) == old(Relation(postings)) + PairsOf(TokenSet(tokens[..i]), id)
        invariant old(NoEmptySet(postings)) ==> NoEmptySet(postings)
      {
        var t := tokens[i];
        AddPair(postings, t, id);
        assert TokenSet(tokens[..i + 1]) == TokenSet(tokens[..i]) + {t};
        PairsJoin(TokenSet(tokens[..i]), {t}, id);
        assert PairsOf({t}, id) == {(t, id)};
        postings := postings[t := (if t in postings then postings[t] else {}) + {id}];
      }
      assert tokens[..|tokens|] == tokens;
    }

    /** Adds the document under every token of the value. */
    method IndexDocument(id: DocId, v: Value)
      modifies this
      ensures Relation(postings) == old(Relation(postings)) + PairsOf(Tokens(v, tokenize), id)
      ensures old(NoEmptySet(postings)) ==> NoEmptySet(postings)
      decreases v
    {
      match v {
        case Str(s) =>
          IndexTokens(id, tokenize(s));
        case Arr(items) =>
          for i := 0 to |items|
            invariant Relation(postings) == old(Relation(postings)) + PairsOf(ItemTokens(items[..i], tokenize), id)
            invariant old(NoEmptySet(postings)) ==> NoEmptySet(postings)
          {
            IndexDocument(id, items[i]);
            assert items[..i + 1][..i] == items[..i];
            PairsJoin(ItemTokens(items[..i], tokenize), Tokens(items[i], tokenize), id);
          }
          assert items[..|items|] == items;
        case Obj(members) =>
          for i := 0 to |members|
            invariant Relation(postings) == old(Relation(postings)) + PairsOf(MemberTokens(members[..i], tokenize), id)
            invariant old(NoEmptySet(postings)) ==> NoEmptySet(postings)
          {
            IndexDocument(id, members[i].value);
            assert members[..i + 1][..i] == members[..i];
            PairsJoin(MemberTokens(members[..i], tokenize), Tokens(members[i].value, tokenize), id);
          }
          assert members[..|members|] == members;
        case _ =>
      }
    }

    method RemoveTokens(id: DocId, tokens: seq<Token>)
      modifies this
      ensures Relation(postings) == old(Relation(postings)) - PairsOf(TokenSet(tokens), id)
      ensures old(NoEmptySet(postings)) ==> NoEmptySet(postings)
    {
      for i := 0 to |tokens|
        invariant Relation(postings) == old(Relation(postings)) - PairsOf(TokenSet(tokens[..i]), id)
        invariant old(NoEmptySet(postings)) ==> NoEmptySet(postings)
      {
        var t := tokens[i];
        assert TokenSet(tokens[..i + 1]) == TokenSet(tokens[..i]) + {t};
        PairsJoin(TokenSet(tokens[..i]), {t}, id);
        assert PairsOf({t}, id) == {(t, id)};
        if t in postings {
          RemovePair(postings, t, id);
          var rest := postings[t] - {id};
          if rest == {} {
            postings := postings - {t};
          } else {
            postings := postings[t := rest];
          }
        } else {
          AbsentPair(postings, t, id);
        }
      }
      assert tokens[..|tokens|] == tokens;
    }

    /** Removes the document from every token of the value. */
    method RemoveDocument(id: DocId, v: Value)
      modifies this
      ensures Relation(postings) == old(Relation(postings)) - PairsOf(Tokens(v, tokenize), id)
      ensures old(NoEmptySet(postings)) ==> NoEmptySet(postings)
      decreases v
    {
      match v {
        case Str(s) =>
          RemoveTokens(id, tokenize(s));
        case Arr(items) =>
          for i := 0 to |items|
            invariant Relation(postings) == old(Relation(postings)) - PairsOf(ItemTokens(items[..i], tokenize), id)
            invariant old(NoEmptySet(postings)) ==> NoEmptySet(postings)
          {
            RemoveDocument(id, items[i]);
            assert items[..i + 1][..i] == items[..i];
            PairsJoin(ItemTokens(items[..i], tokenize), Tokens(items[i], tokenize), id);
          }
          assert items[..|items|] == items;
        case Obj(members) =>
          for i := 0 to |members|
            invariant Relation(postings) == old(Relation(postings)) - PairsOf(MemberTokens(members[..i], tokenize), id)
            invariant old(NoEmptySet(postings)) ==> NoEmptySet(postings)
          {
            RemoveDocument(id, members[i].value);
            assert members[..i + 1][..i] == members[..i];
            PairsJoin(MemberTokens(members[..i], tokenize), Tokens(members[i].value, tokenize), id);
          }
          assert members[..|members|] == members;
        case _ =>
      }
    }

    /** Narrows the set of documents token by token. */
    method Search(query: string) returns (ids: set<DocId>)
      ensures ids == Matching(postings, tokenize(query))
    {
      var tokens := tokenize(query);
      if tokens == [] {
        return {};
      }
      var result: Option<set<DocId>> := None;
      for i := 0 to |tokens|
        invariant result.None? <==> i == 0
        invariant forall j | 0 <= j < i :: tokens[j] in postings
        invariant result.Some? ==>
          forall id :: id in result.value <==> forall j | 0 <= j < i :: id in postings[tokens[j]]
      {
        var t := tokens[i];
        if t !in postings {
          return {};
        }
        if result.None? {
          result := Some(postings[t]);
        } else {
          result := Some(set id | id in result.value && id in postings[t]);
        }
      }
      ids := result.value;
      forall id ensures id in ids <==> id in Matching(postings, tokens) {
        assert forall t :: t in tokens <==> exists j | 0 <= j < |tokens| :: tokens[j] == t;
      }
    }
  }
}
