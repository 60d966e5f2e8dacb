/** Printing queries, and which ones the parser reads back. */
module QueryRoundTrip {
  import opened Options
  import opened Json
  import opened Queries
  import opened QueryParser

  /** How numerals are written. */
  datatype Shower = Shower(showInt: int -> string, showFloat: Float -> string)

  // ---------- The canonical printer ----------

  /** Characters with no meaning to the parser's searches. */
  predicate Clean(c: char) {
    !IsSpace(c) && c !in "()<>="
  }

  predicate CleanText(s: string) {
    forall c | c in s :: Clean(c)
  }

  function JoinPath(path: seq<string>): string
    requires path != []
  {
    if |path| == 1 then path[0] else path[0] + "." + JoinPath(path[1..])
  }

  function PrintPath(path: seq<string>): string
    requires path != []
  {
    "$." + JoinPath(path)
  }

  function PrintValue(v: Value, show: Shower): string {
    match v
    case Null => "null"
    case Bool(b) => if b then "true" else "false"
    case Num(Int(i)) => show.showInt(i)
    case Num(Real(f)) => show.showFloat(f)
    case Str(s) => "\"" + s + "\""
    case _ => ""
  }

  predicate IsLeaf(q: Query) {
    !q.And? && !q.Or?
  }

  predicate IsComparison(q: Query) {
    IsLeaf(q) && !q.All? && !q.Search?
  }

  function OpOf(q: Query): Op
    requires IsComparison(q)
  {
    match q
    case Eq(_, _) => Equals
    case Gt(_, _) => More
    case Lt(_, _) => Less
    case Gte(_, _) => Ge
    case Lte(_, _) => Le
  }

  function Operand(q: Query, show: Shower): string
    requires IsComparison(q)
  {
    if q.Eq? then PrintValue(q.value, show) else show.showFloat(q.bound)
  }

  predicate PathsPresent(q: Query) {
    match q
    case And(a, b) => PathsPresent(a) && PathsPresent(b)
    case Or(a, b) => PathsPresent(a) && PathsPresent(b)
    case All => true
    case Search(_) => true
    case _ => q.path != []
  }

  function Print(q: Query, show: Shower): string
    requires PathsPresent(q)
  {
    match q
    case All => "*"
    case Search(term) => SEARCH + "\"" + term + CLOSE
    case And(a, b) => Print(a, show) + AND + Print(b, show)
    case Or(a, b) => Print(a, show) + OR + Print(b, show)
    case _ => PrintPath(q.path) + " " + OpText(OpOf(q)) + " " + Operand(q, show)
  }

  // ---------- Which queries ----------

  predicate CanonicalPath(path: seq<string>) {
    path != [] && path != [""] && forall p | p in path :: CleanText(p) && '.' !in p
  }

  /** A word that is not read as a quoted string or a connective. */
  predicate PlainWord(w: string) {
    w != "" && CleanText(w) && !Quoted(w, '"') && !Quoted(w, '\'') && w != "and" && w != "or"
  }

  predicate NotANumeral(w: string, lib: Numerals) {
    lib.parseInt(w).None? && (lib.parseFloat(w).None? || !lib.parseFloat(w).value.Finite?)
  }

  predicate CanonicalFloat(f: Float, lib: Numerals, show: Shower) {
    PlainWord(show.showFloat(f)) && lib.parseFloat(show.showFloat(f)) == Some(f)
  }

  /** Values whose printed form the number library and the quotes bring back. */
  predicate CanonicalValue(v: Value, lib: Numerals, show: Shower) {
    match v
    case Null => NotANumeral("null", lib)
    case Bool(b) => NotANumeral(if b then "true" else "false", lib)
    case Num(Int(i)) => PlainWord(show.showInt(i)) && lib.parseInt(show.showInt(i)) == Some(i)
    case Num(Real(f)) => f.Finite? && CanonicalFloat(f, lib, show) && lib.parseInt(show.showFloat(f)).None?
    case Str(s) => CleanText(s)
    case _ => false
  }

  predicate IsQuote(c: char) {
    c == '"' || c == '\''
  }

  /** No quote at either end that trimming quotes would take. */
  predicate Unquoted(t: string) {
    t != "" && !IsQuote(t[0]) && !IsQuote(t[|t| - 1])
  }

  predicate CanonicalTerm(t: string) {
    CleanText(t) && Unquoted(t)
  }

  predicate Canonical(q: Query, lib: Numerals, show: Shower) {
    match q
    case All => true
    case Search(term) => CanonicalTerm(term)
    case And(a, b) => Canonical(a, lib, show) && Canonical(b, lib, show)
    case Or(a, b) => Canonical(a, lib, show) && Canonical(b, lib, show)
    case Eq(path, value) => CanonicalPath(path) && CanonicalValue(value, lib, show)
    case _ => CanonicalPath(q.path) && CanonicalFloat(q.bound, lib, show)
  }

  lemma {:induction false} CanonicalHasPaths(q: Query, lib: Numerals, show: Shower)
    requires Canonical(q, lib, show)
    ensures PathsPresent(q)
  {
    match q {
      case And(a, b) => CanonicalHasPaths(a, lib, show); CanonicalHasPaths(b, lib, show);
      case Or(a, b) => CanonicalHasPaths(a, lib, show); CanonicalHasPaths(b, lib, show);
      case _ =>
    }
  }

  predicate OrChain(q: Query) {
    IsLeaf(q) || (q.Or? && IsLeaf(q.left) && OrChain(q.right))
  }

  /** A right-nested `and` of right-nested `or`s of leaves. */
  predicate AndChain(q: Query) {
    OrChain(q) || (q.And? && OrChain(q.left) && AndChain(q.right))
  }

  function Head(q: Query): Query {
    if IsLeaf(q) then q else Head(q.left)
  }

  /** No compound query begins with a search. */
  predicate NoSearchHead(q: Query) {
    IsLeaf(q) || (!Head(q).Search? && NoSearchHead(q.left) && NoSearchHead(q.right))
  }

  // ---------- Every parsed query is a chain ----------

  lemma {:induction false} FindInPrefix(a: string, b: string, needle: string, depth: int)
    requires needle != []
    requires Find(a + b, needle, depth).None? || |a| <= Find(a + b, needle, depth).value
    ensures Find(a, needle, depth).None?
  {
    hide Find;
    if a == [] {
      FindNothing(a, needle, depth);
    } else {
      assert a + b == [a[0]] + (a[1..] + b) && a == [a[0]] + a[1..];
      FindFrom(a + b, a[0], a[1..] + b, needle, depth);
      FindFrom(a, a[0], a[1..], needle, depth);
      PrefixOfLonger(needle, a, b);
      var there := depth + Nesting(a[0]) == 0 && StartsWith(a, needle);
      if !there {
        if depth + Nesting(a[0]) == 0 && StartsWith(a + b, needle) {
          assert false;
        }
        FindInPrefix(a[1..], b, needle, depth + Nesting(a[0]));
      }
    }
  }

  lemma PrefixOfLonger(p: string, a: string, b: string)
    ensures p <= a ==> p <= a + b
  {
  }

  lemma {:induction false} FindInSuffix(a: string, b: string, needle: string, depth: int)
    requires needle != [] && Find(a + b, needle, depth).None?
    ensures Find(b, needle, depth + Depth(a)).None?
  {
    hide Find;
    if a == [] {
      assert a + b == b;
    } else {
      assert a + b == [a[0]] + (a[1..] + b);
      FindFrom(a + b, a[0], a[1..] + b, needle, depth);
      FindInSuffix(a[1..], b, needle, depth + Nesting(a[0]));
    }
  }

  lemma {:induction false} DropFrontSplits(s: string) returns (front: string)
    ensures s == front + DropFront(s, IsSpace) && Depth(front) == 0
  {
    front := [];
    if s != [] && IsSpace(s[0]) {
      var more := DropFrontSplits(s[1..]);
      front := [s[0]] + more;
      assert front[1..] == more && s == [s[0]] + s[1..];
    }
  }

  lemma {:induction false} DropBackSplits(s: string) returns (back: string)
    ensures s == DropBack(s, IsSpace) + back
  {
    back := [];
    if s != [] && IsSpace(s[|s| - 1]) {
      var more := DropBackSplits(s[..|s| - 1]);
      back := more + [s[|s| - 1]];
      assert s == s[..|s| - 1] + [s[|s| - 1]];
    }
  }

  /** Trimming does not uncover a needle. */
  lemma FindInTrimmed(s: string, needle: string)
    requires needle != [] && FindBalanced(s, needle).None?
    ensures FindBalanced(Trim(s), needle).None?
  {
    hide Find;
    var t := DropFront(s, IsSpace);
    var front := DropFrontSplits(s);
    FindInSuffix(front, t, needle, 0);
    var back := DropBackSplits(t);
    FindInPrefix(DropBack(t, IsSpace), back, needle, 0);
  }

  /** What a connective splits: the left part has no further one; neither part has another
      needle that the whole did not have. */
  lemma SplitLeavesNone(s: string, needle: string, other: string, at: nat)
    requires needle != [] && other != [] && FindBalanced(s, needle) == Some(at)
    ensures FindBalanced(s[..at], needle).None?
    ensures FindBalanced(s, other).None? ==> FindBalanced(s[..at], other).None?
  {
    hide Find;
    assert s == s[..at] + s[at..];
    FindInPrefix(s[..at], s[at..], needle, 0);
    if FindBalanced(s, other).None? {
      FindInPrefix(s[..at], s[at..], other, 0);
    }
  }

  lemma DepthWhereFound(s: string, needle: string, at: nat)
    requires needle != [] && FindBalanced(s, needle) == Some(at) && Nesting(needle[0]) == 0
    ensures Depth(s[..at]) == 0
  {
    FindIsFirst(s, needle, 0, at);
    assert s[at] == s[at..][0] == needle[0];
    assert s[..at + 1] == s[..at] + [s[at]];
    DepthJoin(s[..at], [s[at]]);
    DepthOfOne(s[at]);
  }

  lemma DepthOfOne(c: char)
    ensures Depth([c]) == Nesting(c)
  {
    assert [c][1..] == [];
  }

  lemma CutAround(s: string, needle: string, at: nat)
    requires at + |needle| <= |s| && StartsWith(s[at..], needle)
    ensures s == s[..at] + needle + s[at + |needle|..]
  {
    assert s[at..][..|needle|] == needle && s[at..][|needle|..] == s[at + |needle|..];
    assert s == s[..at] + s[at..];
  }

  lemma DepthThrough(s: string, needle: string, at: nat) returns (front: string)
    requires needle != [] && FindBalanced(s, needle) == Some(at)
    requires Depth(needle) == 0 && Nesting(needle[0]) == 0
    ensures Depth(front) == 0 && s == front + s[at + |needle|..]
  {
    hide Find;
    hide Depth;
    front := s[..at] + needle;
    DepthWhereFound(s, needle, at);
    DepthJoin(s[..at], needle);
    FindIsFirst(s, needle, 0, at);
    CutAround(s, needle, at);
  }

  lemma RightHasNone(s: string, needle: string, other: string, at: nat)
    requires needle != [] && other != [] && FindBalanced(s, needle) == Some(at)
    requires Depth(needle) == 0 && Nesting(needle[0]) == 0
    requires FindBalanced(s, other).None?
    ensures FindBalanced(s[at + |needle|..], other).None?
  {
    hide *;
    var front := DepthThrough(s, needle, at);
    FindInRight(s, front, s[at + |needle|..], other);
  }

  lemma FindInRight(s: string, front: string, right: string, other: string)
    requires s == front + right && Depth(front) == 0 && other != [] && FindBalanced(s, other).None?
    ensures FindBalanced(right, other).None?
  {
    hide Find;
    hide Depth;
    FindInSuffix(front, right, other, 0);
  }

  lemma ConnectiveDepth()
    ensures Depth(AND) == 0 && Depth(OR) == 0
  {
    assert AND[1..] == "and " && "and "[1..] == "nd " && "nd "[1..] == "d " && "d "[1..] == " " && " "[1..] == "";
    assert OR[1..] == "or " && "or "[1..] == "r " && "r "[1..] == " ";
  }

  lemma {:induction false} LeafIsLeaf(s: string, ops: seq<Op>, lib: Numerals)
    ensures var r := ParseLeaf(s, ops, lib); r.Parsed? ==> IsLeaf(r.query)
  {
    hide FindBalanced;
    if ops != [] && FindBalanced(s, OpText(ops[0])).None? {
      LeafIsLeaf(s, ops[1..], lib);
    }
  }

  lemma SearchIsLeaf(s: string)
    ensures SEARCH <= s && ParseSearch(s).Parsed? ==> IsLeaf(ParseSearch(s).query)
  {
    hide Trim;
    hide TrimMatches;
  }

  /** `and` binds looser than `or`, and both nest to the right: whatever the input, what is
      parsed is a right-nested `and` of right-nested `or`s. */
  lemma {:induction false} ParsedIsChain(input: string, lib: Numerals)
    ensures var r := Parse(input, lib);
            && (r.Parsed? ==> AndChain(r.query))
            && (r.Parsed? && FindBalanced(input, AND).None? ==> OrChain(r.query))
            && (r.Parsed? && FindBalanced(input, AND).None? && FindBalanced(input, OR).None? ==> IsLeaf(r.query))
    decreases |input|
  {
    hide ParseSearch;
    hide FindBalanced;
    hide ParseLeaf;
    hide Trim;
    var s := Trim(input);
    if FindBalanced(input, AND).None? {
      FindInTrimmed(input, AND);
    }
    if FindBalanced(input, OR).None? {
      FindInTrimmed(input, OR);
    }
    ConnectiveDepth();
    SearchIsLeaf(s);
    LeafIsLeaf(s, OPS, lib);
    if s == "" || s == "*" || s == "$" || SEARCH <= s {
    } else if FindBalanced(s, AND).Some? {
      var at := FindBalanced(s, AND).value;
      SplitLeavesNone(s, AND, AND, at);
      ParsedIsChain(s[..at], lib);
      ParsedIsChain(s[at + |AND|..], lib);
    } else if FindBalanced(s, OR).Some? {
      var at := FindBalanced(s, OR).value;
      SplitLeavesNone(s, OR, AND, at);
      RightHasNone(s, OR, AND, at);
      ParsedIsChain(s[..at], lib);
      ParsedIsChain(s[at + |OR|..], lib);
    }
  }

  // ---------- Words ----------

  /** What the printer puts between spaces: no space, and balanced. */
  predicate Word(w: string) {
    w != "" && (forall c | c in w :: !IsSpace(c)) && Depth(w) == 0
  }

  /** The words of a printed query. */
  function Words(q: Query, show: Shower): seq<string>
    requires PathsPresent(q)
  {
    match q
    case And(a, b) => Words(a, show) + ["and"] + Words(b, show)
    case Or(a, b) => Words(a, show) + ["or"] + Words(b, show)
    case All => ["*"]
    case Search(_) => [Print(q, show)]
    case _ => [PrintPath(q.path), OpText(OpOf(q)), Operand(q, show)]
  }

  /** Words, each after a space. */
  function Spaced(ws: seq<string>): string {
    if ws == [] then "" else " " + (ws[0] + Spaced(ws[1..]))
  }

  lemma {:induction false} SpacedJoin(a: seq<string>, b: seq<string>)
    ensures Spaced(a + b) == Spaced(a) + Spaced(b)
  {
    if a == [] {
      assert a + b == b;
    } else {
      SpacedJoin(a[1..], b);
      assert (a + b)[1..] == a[1..] + b && (a + b)[0] == a[0];
      assert " " + (a[0] + (Spaced(a[1..]) + Spaced(b))) == " " + (a[0] + Spaced(a[1..])) + Spaced(b);
    }
  }

  lemma SpacedOne(w: string)
    ensures Spaced([w]) == " " + w
  {
    assert [w][1..] == [] && w + "" == w;
  }

  lemma SpacedThree(x: string, y: string, z: string)
    ensures Spaced([x, y, z]) == " " + (x + " " + y + " " + z)
  {
    assert [x, y, z] == [x] + [y] + [z];
    SpacedJoin([x] + [y], [z]);
    SpacedJoin([x], [y]);
    SpacedOne(x);
    SpacedOne(y);
    SpacedOne(z);
    assert " " + x + (" " + y) + (" " + z) == " " + (x + " " + y + " " + z);
  }

  lemma SpacedAround(a: string, b: string, word: string)
    ensures " " + a + (" " + word) + (" " + b) == " " + (a + (" " + word + " ") + b)
  {
  }

  lemma SpacedAroundJoin(ws: seq<string>, vs: seq<string>, a: string, b: string, word: string)
    requires Spaced(ws) == " " + a && Spaced(vs) == " " + b
    ensures Spaced(ws + [word] + vs) == " " + (a + (" " + word + " ") + b)
  {
    hide Spaced;
    SpacedJoin(ws + [word], vs);
    SpacedJoin(ws, [word]);
    SpacedOne(word);
    SpacedAround(a, b, word);
  }

  /** The printed query is its words with a space before each but the first. */
  lemma {:induction false} PrintIsWords(q: Query, show: Shower)
    requires PathsPresent(q)
    ensures Spaced(Words(q, show)) == " " + Print(q, show)
  {
    hide Spaced;
    hide JoinPath;
    hide PrintValue;
    hide OpText;
    if q.And? {
      PrintIsWords(q.left, show);
      PrintIsWords(q.right, show);
      SpacedAroundJoin(Words(q.left, show), Words(q.right, show), Print(q.left, show), Print(q.right, show), "and");
    } else if q.Or? {
      PrintIsWords(q.left, show);
      PrintIsWords(q.right, show);
      SpacedAroundJoin(Words(q.left, show), Words(q.right, show), Print(q.left, show), Print(q.right, show), "or");
    } else {
      LeafIsWords(q, show);
    }
  }

  lemma LeafIsWords(q: Query, show: Shower)
    requires IsLeaf(q) && PathsPresent(q)
    ensures Spaced(Words(q, show)) == " " + Print(q, show)
  {
    hide Spaced;
    hide PrintPath;
    if IsComparison(q) {
      SpacedThree(PrintPath(q.path), OpText(OpOf(q)), Operand(q, show));
    } else {
      SpacedOne(Print(q, show));
    }
  }

  // ---------- The words of canonical queries ----------

  lemma {:induction false} NoParentheses(s: string)
    requires '(' !in s && ')' !in s
    ensures Depth(s) == 0
  {
    if s != [] {
      NoParentheses(s[1..]);
    }
  }

  lemma CleanWord(s: string)
    requires CleanText(s) && s != ""
    ensures Word(s)
  {
    assert forall c | c in s :: Clean(c);
    NoParentheses(s);
  }

  lemma CleanJoin(a: string, b: string)
    requires CleanText(a) && CleanText(b)
    ensures CleanText(a + b)
  {
  }

  lemma {:induction false} JoinPathClean(path: seq<string>)
    requires path != [] && forall p | p in path :: CleanText(p) && '.' !in p
    ensures CleanText(JoinPath(path)) && (path != [""] ==> JoinPath(path) != "")
  {
    if |path| > 1 {
      assert forall p | p in path[1..] :: p in path;
      assert path[0] in path && Clean('.');
      JoinPathClean(path[1..]);
      CleanJoin(path[0] + ".", JoinPath(path[1..]));
      CleanJoin(path[0], ".");
    }
  }

  lemma PathWord(path: seq<string>)
    requires CanonicalPath(path)
    ensures CleanText(PrintPath(path)) && PrintPath(path) != "" && PrintPath(path) != "and" && PrintPath(path) != "or"
  {
    JoinPathClean(path);
    assert PrintPath(path)[0] == '$';
  }

  lemma ValueWord(v: Value, lib: Numerals, show: Shower)
    requires CanonicalValue(v, lib, show)
    ensures var w := PrintValue(v, show); w != "" && CleanText(w) && w != "and" && w != "or"
  {
    match v {
      case Str(s) =>
        assert PrintValue(v, show)[0] == '"';
        assert forall c | c in PrintValue(v, show) :: c == '"' || c in s;
      case _ =>
    }
  }

  lemma OperandWord(q: Query, lib: Numerals, show: Shower)
    requires IsComparison(q) && Canonical(q, lib, show)
    ensures var w := Operand(q, show); w != "" && CleanText(w) && w != "and" && w != "or"
  {
    if q.Eq? {
      ValueWord(q.value, lib, show);
    }
  }

  const CLOSE := "\")"

  lemma BracketsDepth()
    ensures Depth(SEARCH + "\"") == 1 && Depth(CLOSE) == -1
  {
    DepthJoin("search", "(\"");
    NoParentheses("search");
    assert SEARCH + "\"" == "search" + "(\"";
    assert "(\""[1..] == "\"" && "\""[1..] == "" && CLOSE[1..] == ")" && ")"[1..] == "";
  }

  lemma SearchDepth(term: string)
    requires Depth(term) == 0
    ensures Depth(SEARCH + "\"" + term + CLOSE) == 0
  {
    hide Depth;
    BracketsDepth();
    DepthJoin(SEARCH + "\"" + term, CLOSE);
    DepthJoin(SEARCH + "\"", term);
  }

  lemma SearchWord(term: string)
    requires CanonicalTerm(term)
    ensures var w := SEARCH + "\"" + term + CLOSE; Word(w) && w != "and" && w != "or" && SEARCH <= w
  {
    hide Depth;
    assert !Clean('(') && !Clean(')');
    NoParentheses(term);
    SearchDepth(term);
    var open := SEARCH + "\"";
    assert forall c | c in open + term + CLOSE :: c in open || c in term || c in CLOSE;
    assert forall c | c in term :: Clean(c);
  }

  /** Every word of a canonical leaf is a word, and not a connective. */
  lemma LeafWords(q: Query, lib: Numerals, show: Shower, w: string)
    requires IsLeaf(q) && Canonical(q, lib, show) && PathsPresent(q) && w in Words(q, show)
    ensures Word(w) && w != "and" && w != "or"
  {
    if q.All? {
      CleanWord("*");
    } else if q.Search? {
      SearchWord(q.term);
    } else {
      PathWord(q.path);
      CleanWord(PrintPath(q.path));
      OperandWord(q, lib, show);
      CleanWord(Operand(q, show));
      OpWord(OpOf(q));
    }
  }

  lemma OpWord(op: Op)
    ensures Word(OpText(op)) && OpText(op) != "and" && OpText(op) != "or"
  {
    NoParentheses(OpText(op));
  }

  predicate Without(q: Query, connective: string) {
    match q
    case And(a, b) => connective != "and" && Without(a, connective) && Without(b, connective)
    case Or(a, b) => connective != "or" && Without(a, connective) && Without(b, connective)
    case _ => true
  }

  lemma {:induction false} QueryWords(q: Query, lib: Numerals, show: Shower, connective: string, w: string)
    requires Canonical(q, lib, show) && PathsPresent(q) && w in Words(q, show)
    requires connective == "and" || connective == "or"
    ensures Word(w) && (Without(q, connective) ==> w != connective)
  {
    hide Word;
    hide Print;
    hide CanonicalPath;
    hide CanonicalValue;
    hide CanonicalFloat;
    match q {
      case And(a, b) =>
        CleanWord("and");
        if w in Words(a, show) {
          QueryWords(a, lib, show, connective, w);
        } else if w in Words(b, show) {
          QueryWords(b, lib, show, connective, w);
        }
      case Or(a, b) =>
        CleanWord("or");
        if w in Words(a, show) {
          QueryWords(a, lib, show, connective, w);
        } else if w in Words(b, show) {
          QueryWords(b, lib, show, connective, w);
        }
      case _ =>
        LeafWords(q, lib, show, w);
    }
  }

  // ---------- Searching among words ----------

  lemma {:induction false} SkipFree(w: string, rest: string, needle: string, depth: int)
    requires needle != [] && needle[0] !in w
    ensures Find(w + rest, needle, depth) == Shift(Find(rest, needle, depth + Depth(w)), |w|)
  {
    hide Find;
    if w == [] {
      assert w + rest == rest;
    } else {
      assert w + rest == [w[0]] + (w[1..] + rest);
      FindFrom(w + rest, w[0], w[1..] + rest, needle, depth);
      assert (w + rest)[0] == w[0];
      SkipFree(w[1..], rest, needle, depth + Nesting(w[0]));
    }
  }

  /** A word with its spaces. */
  function Around(connective: string): (n: string)
    ensures n != [] && n[0] == ' '
  {
    " " + (connective + " ")
  }

  lemma NotPrefix(s: string, t: string, i: nat)
    requires i < |s| && (i >= |t| || s[i] != t[i])
    ensures !(s <= t)
  {
  }

  lemma WordsDiffer(a: string, w: string, y: string)
    requires ' ' !in a && ' ' !in w && (y == "" || y[0] == ' ') && a != w
    ensures !(a + " " <= w + y)
  {
    if |w| < |a| {
      NotPrefix(a + " ", w + y, |w|);
    } else if |a| < |w| {
      NotPrefix(a + " ", w + y, |a|);
    } else {
      var i :| 0 <= i < |a| && a[i] != w[i];
      NotPrefix(a + " ", w + y, i);
    }
  }

  lemma BehindSpace(x: string, y: string)
    ensures " " + x <= " " + y <==> x <= y
  {
    assert (" " + x)[1..] == x && (" " + y)[1..] == y;
  }

  /** A connective stands before a word only if it is the word. */
  lemma ConnectiveIsWord(connective: string, w: string, y: string)
    requires Word(w) && Word(connective) && w != connective && (y == "" || y[0] == ' ')
    ensures !(Around(connective) <= " " + (w + y))
  {
    BehindSpace(connective + " ", w + y);
    assert IsSpace(' ');
    WordsDiffer(connective, w, y);
  }

  lemma SkipSpace(x: string, n: string)
    requires n != [] && !(n <= " " + x)
    ensures Find(" " + x, n, 0) == Shift(Find(x, n, 0), 1)
  {
    hide Find;
    FindFrom(" " + x, ' ', x, n, 0);
  }

  lemma SkipWord(w: string, y: string, n: string)
    requires Word(w) && n != [] && n[0] == ' '
    ensures Find(w + y, n, 0) == Shift(Find(y, n, 0), |w|)
  {
    hide Find;
    assert IsSpace(' ');
    SkipFree(w, y, n, 0);
  }

  lemma SkipSpaced(connective: string, w: string, y: string)
    requires Word(w) && Word(connective) && w != connective && (y == "" || y[0] == ' ')
    ensures Find(" " + (w + y), Around(connective), 0) == Shift(Find(y, Around(connective), 0), 1 + |w|)
    ensures Find(" " + (w + y), Around(connective), 0) == Shift(Find(w + y, Around(connective), 0), 1)
  {
    hide *;
    var n := Around(connective);
    ConnectiveIsWord(connective, w, y);
    SkipSpace(w + y, n);
    SkipWord(w, y, n);
    ShiftTwice(Find(y, n, 0), |w|);
  }

  lemma ShiftTwice(r: Option<nat>, n: nat)
    ensures Shift(Shift(r, n), 1) == Shift(r, 1 + n)
  {
  }

  lemma SpacedFirst(ws: seq<string>, y: string)
    requires ws != []
    ensures Spaced(ws) + y == " " + (ws[0] + (Spaced(ws[1..]) + y))
  {
    assert " " + (ws[0] + Spaced(ws[1..])) + y == " " + (ws[0] + (Spaced(ws[1..]) + y));
  }

  lemma StartsWithSpace(ws: seq<string>, y: string)
    requires y == "" || y[0] == ' '
    ensures Spaced(ws) + y == "" || (Spaced(ws) + y)[0] == ' '
  {
  }

  /** Searching for a connective passes over words that are not it. */
  lemma {:induction false} SkipWords(connective: string, ws: seq<string>, y: string)
    requires Word(connective) && (y == "" || y[0] == ' ')
    requires forall w | w in ws :: Word(w) && w != connective
    ensures Find(Spaced(ws) + y, Around(connective), 0) == Shift(Find(y, Around(connective), 0), |Spaced(ws)|)
  {
    hide Find;
    hide Word;
    hide Around;
    if ws == [] {
      assert Spaced(ws) + y == y;
    } else {
      SpacedFirst(ws, y);
      StartsWithSpace(ws[1..], y);
      SkipSpaced(connective, ws[0], Spaced(ws[1..]) + y);
      SkipWords(connective, ws[1..], y);
    }
  }

  lemma ShiftIsInjective(a: Option<nat>, b: Option<nat>, n: nat)
    requires Shift(a, 1) == Shift(b, 1 + n)
    ensures a == Shift(b, n)
  {
  }

  /** Passing over words whose first space is left out. */
  lemma SkipFirst(connective: string, ws: seq<string>, text: string, y: string)
    requires Word(connective) && (y == "" || y[0] == ' ')
    requires ws != [] && (forall w | w in ws :: Word(w) && w != connective)
    requires Spaced(ws) == " " + text
    ensures Find(text + y, Around(connective), 0) == Shift(Find(y, Around(connective), 0), |text|)
  {
    hide *;
    SkipWords(connective, ws, y);
    SpacedFirst(ws, y);
    StartsWithSpace(ws[1..], y);
    SkipFirstWord(connective, ws[0], Spaced(ws[1..]) + y, text, y);
  }

  lemma SkipFirstWord(connective: string, w: string, rest: string, text: string, y: string)
    requires Word(connective) && Word(w) && w != connective && (rest == "" || rest[0] == ' ')
    requires " " + text + y == " " + (w + rest)
    requires Find(" " + text + y, Around(connective), 0) == Shift(Find(y, Around(connective), 0), 1 + |text|)
    ensures Find(text + y, Around(connective), 0) == Shift(Find(y, Around(connective), 0), |text|)
  {
    hide *;
    SkipSpaced(connective, w, rest);
    SameTail(text, y, w + rest);
    ShiftIsInjective(Find(text + y, Around(connective), 0), Find(y, Around(connective), 0), |text|);
  }

  lemma SameTail(text: string, y: string, z: string)
    requires " " + text + y == " " + z
    ensures text + y == z
  {
    assert (" " + text + y)[1..] == text + y && (" " + z)[1..] == z;
  }

  lemma {:induction false} SomeWord(q: Query, show: Shower)
    requires PathsPresent(q)
    ensures Words(q, show) != []
  {
  }

  /** The first of a query's own connectives is found right after a query without it. */
  lemma FindAfter(q: Query, lib: Numerals, show: Shower, connective: string, y: string)
    requires Canonical(q, lib, show) && PathsPresent(q) && Without(q, connective)
    requires connective == "and" || connective == "or"
    requires y == "" || y[0] == ' '
    ensures Find(Print(q, show) + y, Around(connective), 0)
         == Shift(Find(y, Around(connective), 0), |Print(q, show)|)
  {
    CleanWord(connective);
    hide *;
    var ws := Words(q, show);
    forall w | w in ws ensures Word(w) && w != connective {
      QueryWords(q, lib, show, connective, w);
    }
    PrintIsWords(q, show);
    SomeWord(q, show);
    SkipFirst(connective, ws, Print(q, show), y);
  }

  // ---------- Trimming ----------

  predicate Solid(s: string) {
    s != "" && !IsSpace(s[0]) && !IsSpace(s[|s| - 1])
  }

  lemma TrimSolid(s: string)
    requires Solid(s)
    ensures Trim(s) == Trim(s + " ") == Trim(" " + s) == s
  {
    assert (" " + s)[1..] == s && (s + " ")[..|s|] == s;
    assert DropFront(s, IsSpace) == s && DropFront(s + " ", IsSpace) == s + " ";
    assert DropBack(s, IsSpace) == s;
  }

  lemma CleanIsSolid(s: string)
    requires CleanText(s) && s != ""
    ensures Solid(s)
  {
    assert Clean(s[0]) && Clean(s[|s| - 1]);
  }

  lemma WordIsSolid(w: string)
    requires Word(w)
    ensures Solid(w)
  {
  }

  lemma SolidAround(a: string, b: string, c: string)
    requires Solid(a) && Solid(c)
    ensures Solid(a + b + c) && (a + b + c)[0] == a[0]
  {
  }

  /** A printed query has no space at either end, and only one that begins with a search
      starts like a search. */
  lemma {:induction false} PrintIsSolid(q: Query, lib: Numerals, show: Shower)
    requires Canonical(q, lib, show) && PathsPresent(q)
    ensures Solid(Print(q, show))
    ensures !Head(q).Search? ==> Print(q, show)[0] in "$*"
    ensures Head(q).Search? ==> SEARCH <= Print(q, show)
  {
    if IsLeaf(q) {
      LeafIsSolid(q, lib, show);
    } else {
      PrintIsSolid(q.left, lib, show);
      PrintIsSolid(q.right, lib, show);
      var middle := if q.And? then AND else OR;
      SolidAround(Print(q.left, show), middle, Print(q.right, show));
      assert Print(q.left, show) <= Print(q, show);
    }
  }

  lemma LeafIsSolid(q: Query, lib: Numerals, show: Shower)
    requires IsLeaf(q) && Canonical(q, lib, show) && PathsPresent(q)
    ensures Solid(Print(q, show))
    ensures !q.Search? ==> Print(q, show)[0] in "$*"
    ensures q.Search? ==> SEARCH <= Print(q, show)
  {
    if q.Search? {
      SearchWord(q.term);
      WordIsSolid(Print(q, show));
    } else if IsComparison(q) {
      PathWord(q.path);
      OperandWord(q, lib, show);
      CleanIsSolid(PrintPath(q.path));
      CleanIsSolid(Operand(q, show));
      SolidAround(PrintPath(q.path), " " + OpText(OpOf(q)) + " ", Operand(q, show));
      assert Print(q, show) == PrintPath(q.path) + (" " + OpText(OpOf(q)) + " ") + Operand(q, show);
    }
  }

  // ---------- Leaves are read back ----------

  lemma SearchReadBack(term: string)
    requires Unquoted(term)
    ensures ParseSearch(SEARCH + "\"" + term + CLOSE) == Parsed(Search(term))
  {
    var w := SEARCH + "\"" + term + CLOSE;
    assert w == SEARCH + ("\"" + term + "\"" + ")");
    var inner := "\"" + term + "\"" + ")";
    assert w[|SEARCH|..] == inner && inner[..|inner| - 1] == "\"" + term + "\"";
    TrimSolid("\"" + term + "\"");
    QuotesTrimmed(term);
  }

  lemma QuotesTrimmed(term: string)
    requires Unquoted(term)
    ensures TrimMatches(TrimMatches("\"" + term + "\"", IsDoubleQuote), IsSingleQuote) == term
  {
    assert ("\"" + term + "\"")[1..] == term + "\"" && (term + "\"")[..|term|] == term;
    assert DropFront("\"" + term + "\"", IsDoubleQuote) == DropFront(term + "\"", IsDoubleQuote) == term + "\"";
    assert DropBack(term + "\"", IsDoubleQuote) == DropBack(term, IsDoubleQuote) == term;
    assert DropFront(term, IsSingleQuote) == term && DropBack(term, IsSingleQuote) == term;
  }

  lemma {:induction false} SplitPiece(p: string, at: char)
    requires at !in p
    ensures Split(p, at) == [p]
  {
    if p != "" {
      assert [p[0]] + p[1..] == p;
      SplitPiece(p[1..], at);
    }
  }

  lemma {:induction false} SplitAfterPiece(p: string, rest: string, at: char)
    requires at !in p
    ensures Split(p + [at] + rest, at) == [p] + Split(rest, at)
  {
    if p == "" {
      assert (p + [at] + rest)[1..] == rest;
    } else {
      assert [p[0]] + p[1..] == p;
      assert (p + [at] + rest)[1..] == p[1..] + [at] + rest;
      SplitAfterPiece(p[1..], rest, at);
    }
  }

  lemma {:induction false} SplitJoined(path: seq<string>)
    requires path != [] && forall p | p in path :: '.' !in p
    ensures Split(JoinPath(path), '.') == path
  {
    if |path| == 1 {
      SplitPiece(path[0], '.');
    } else {
      SplitAfterPiece(path[0], JoinPath(path[1..]), '.');
      SplitJoined(path[1..]);
      assert path == [path[0]] + path[1..];
    }
  }

  lemma PathReadBack(path: seq<string>)
    requires CanonicalPath(path)
    ensures ParsePath(PrintPath(path)) == Some(path)
  {
    hide CleanText;
    hide JoinPath;
    hide Split;
    hide Trim;
    PathWord(path);
    CleanIsSolid(PrintPath(path));
    TrimSolid(PrintPath(path));
    JoinPathClean(path);
    SplitJoined(path);
    assert PrintPath(path)[1..] == "." + JoinPath(path) && ("." + JoinPath(path))[1..] == JoinPath(path);
  }

  lemma ValueReadBack(v: Value, lib: Numerals, show: Shower)
    requires CanonicalValue(v, lib, show)
    ensures ParseValue(PrintValue(v, show), lib) == Some(v)
  {
    var w := PrintValue(v, show);
    ValueWord(v, lib, show);
    CleanIsSolid(w);
    TrimSolid(w);
    if v.Str? {
      assert w[1..|w| - 1] == v.s;
    }
  }

  /** In a printed comparison no operator is found before its own, and that one at its place. */
  lemma OperatorFound(path: string, op: Op, operand: string, other: Op)
    requires CleanText(path) && CleanText(operand)
    ensures var found := FindBalanced(path + " " + OpText(op) + " " + operand, OpText(other));
            && (other == op ==> found == Some(|path| + 1))
            && (Earlier(other, op) ==> found == None)
  {
    hide Find;
    var n, tail := OpText(other), " " + operand;
    var whole := path + " " + OpText(op) + " " + operand;
    assert whole == path + " " + (OpText(op) + tail);
    CleanBeforeSpace(path);
    CleanAfterSpace(operand);
    NoParentheses(path + " ");
    OpHead(other);
    SkipFree(path + " ", OpText(op) + tail, n, 0);
    OperatorAt(op, tail, other);
  }

  lemma CleanBeforeSpace(s: string)
    requires CleanText(s)
    ensures forall c | c in s + " " :: c !in "()<>="
  {
    assert forall c | c in s :: Clean(c);
  }

  lemma CleanAfterSpace(s: string)
    requires CleanText(s)
    ensures forall c | c in " " + s :: c !in "()<>="
  {
    assert forall c | c in s :: Clean(c);
  }

  lemma OpHead(op: Op)
    ensures OpText(op)[0] in "()<>="
  {
  }

  /** The operators the parser tries before another. */
  predicate Earlier(a: Op, b: Op) {
    match a
    case Ge => b != Ge
    case Le => b != Ge && b != Le
    case More => b == Less || b == Equals
    case Less => b == Equals
    case Equals => false
  }

  lemma OperatorAt(op: Op, tail: string, other: Op)
    requires tail != "" && tail[0] == ' ' && (forall c | c in tail :: c !in "()<>=")
    ensures other == op ==> Find(OpText(op) + tail, OpText(other), 0) == Some(0)
    ensures Earlier(other, op) ==> Find(OpText(op) + tail, OpText(other), 0) == None
  {
    hide Find;
    var s, n := OpText(op) + tail, OpText(other);
    var c, rest := s[0], s[1..];
    assert s == [c] + rest;
    FindFrom(s, c, rest, n, 0);
    if Earlier(other, op) {
      EarlierDiffers(op, tail, other);
      NotAfterOperator(op, tail, other);
    }
  }

  lemma EarlierDiffers(op: Op, tail: string, other: Op)
    requires Earlier(other, op) && tail != "" && tail[0] == ' '
    ensures !(OpText(other) <= OpText(op) + tail)
  {
    var s, n := OpText(op) + tail, OpText(other);
    NotPrefix(n, s, if |n| == 2 && |OpText(op)| == 1 then 1 else 0);
  }

  lemma NotAfterOperator(op: Op, tail: string, other: Op)
    requires Earlier(other, op) && (forall c | c in tail :: c !in "()<>=")
    ensures Find((OpText(op) + tail)[1..], OpText(other), 0) == None
  {
    hide Find;
    var rest := (OpText(op) + tail)[1..];
    assert rest == OpText(op)[1..] + tail;
    NoParentheses(rest);
    assert rest + "" == rest;
    SkipFree(rest, "", OpText(other), 0);
    FindNothing("", OpText(other), 0);
  }

  lemma OperandsCut(path: string, op: string, operand: string)
    ensures var s := path + " " + op + " " + operand;
            s[..|path| + 1] == path + " " && s[|path| + 1 + |op|..] == " " + operand
  {
    assert path + " " + op + " " + operand == (path + " ") + (op + (" " + operand));
  }

  lemma OperandReadBack(q: Query, lib: Numerals, show: Shower)
    requires IsComparison(q) && Canonical(q, lib, show)
    ensures var operand := Operand(q, show);
            && operand != "" && Trim(" " + operand) == operand == Trim(operand)
            && if q.Eq? then ParseValue(operand, lib) == Some(q.value) else lib.parseFloat(operand) == Some(q.bound)
  {
    OperandWord(q, lib, show);
    CleanIsSolid(Operand(q, show));
    TrimSolid(Operand(q, show));
    if q.Eq? {
      ValueReadBack(q.value, lib, show);
    }
  }

  lemma ComparisonReadBack(q: Query, lib: Numerals, show: Shower)
    requires IsComparison(q) && Canonical(q, lib, show) && PathsPresent(q)
    ensures ParseComparison(Print(q, show), |PrintPath(q.path)| + 1, OpOf(q), lib) == Parsed(q)
  {
    hide Trim;
    hide PrintPath;
    hide Operand;
    hide ParsePath;
    hide ParseValue;
    hide CleanText;
    hide OpText;
    var path := PrintPath(q.path);
    OperandsCut(path, OpText(OpOf(q)), Operand(q, show));
    PathWord(q.path);
    CleanIsSolid(path);
    TrimSolid(path);
    PathReadBack(q.path);
    OperandReadBack(q, lib, show);
  }

  lemma ConnectivesAround()
    ensures Around("and") == AND && Around("or") == OR
  {
  }

  lemma NoConnective(q: Query, lib: Numerals, show: Shower, connective: string)
    requires Canonical(q, lib, show) && PathsPresent(q) && Without(q, connective)
    requires connective == "and" || connective == "or"
    ensures FindBalanced(Print(q, show), Around(connective)) == None
  {
    hide *;
    FindAfter(q, lib, show, connective, "");
    assert Print(q, show) + "" == Print(q, show);
    FindNothing("", Around(connective), 0);
    ShiftNone(Find("", Around(connective), 0), |Print(q, show)|);
    BalancedIsFind(Print(q, show), Around(connective));
  }

  lemma ShiftNone(r: Option<nat>, n: nat)
    ensures r == None ==> Shift(r, n) == None
    ensures r == Some(0) ==> Shift(r, n) == Some(n)
  {
  }

  lemma BalancedIsFind(s: string, needle: string)
    requires needle != []
    ensures FindBalanced(s, needle) == Find(s, needle, 0)
  {
  }

  lemma LeafReadBack(q: Query, lib: Numerals, show: Shower)
    requires IsLeaf(q) && Canonical(q, lib, show) && PathsPresent(q)
    ensures Parse(Print(q, show), lib) == Parsed(q)
  {
    hide Trim;
    hide FindBalanced;
    hide ParseSearch;
    hide ParseComparison;
    hide ParseLeaf;
    var s := Print(q, show);
    PrintIsSolid(q, lib, show);
    TrimSolid(s);
    if q.Search? {
      SearchReadBack(q.term);
    } else if IsComparison(q) {
      NoConnective(q, lib, show, "and");
      NoConnective(q, lib, show, "or");
      ConnectivesAround();
      OperatorTried(q, lib, show);
      ComparisonReadBack(q, lib, show);
    }
  }

  lemma OperatorTried(q: Query, lib: Numerals, show: Shower)
    requires IsComparison(q) && Canonical(q, lib, show) && PathsPresent(q)
    ensures |PrintPath(q.path)| + 1 + |OpText(OpOf(q))| <= |Print(q, show)|
    ensures ParseLeaf(Print(q, show), OPS, lib)
         == ParseComparison(Print(q, show), |PrintPath(q.path)| + 1, OpOf(q), lib)
  {
    hide FindBalanced;
    hide ParseComparison;
    PathWord(q.path);
    OperandWord(q, lib, show);
    forall other: Op
      ensures other == OpOf(q) ==> FindBalanced(Print(q, show), OpText(other)) == Some(|PrintPath(q.path)| + 1)
      ensures Earlier(other, OpOf(q)) ==> FindBalanced(Print(q, show), OpText(other)) == None
    {
      OperatorFound(PrintPath(q.path), OpOf(q), Operand(q, show), other);
    }
    OpsTried(Print(q, show), OpOf(q), lib);
  }

  lemma OpsTried(s: string, op: Op, lib: Numerals)
    requires FindBalanced(s, OpText(op)).Some?
    requires forall other | Earlier(other, op) :: FindBalanced(s, OpText(other)) == None
    ensures ParseLeaf(s, OPS, lib) == ParseComparison(s, FindBalanced(s, OpText(op)).value, op, lib)
  {
    hide FindBalanced;
    hide ParseComparison;
    var k := if op == Ge then 0 else if op == Le then 1 else if op == More then 2 else if op == Less then 3 else 4;
    TryOps(s, OPS, k, lib);
  }

  lemma {:induction false} TryOps(s: string, ops: seq<Op>, k: nat, lib: Numerals)
    requires k < |ops| && FindBalanced(s, OpText(ops[k])).Some?
    requires forall j | 0 <= j < k :: FindBalanced(s, OpText(ops[j])) == None
    ensures ParseLeaf(s, ops, lib) == ParseComparison(s, FindBalanced(s, OpText(ops[k])).value, ops[k], lib)
  {
    hide FindBalanced;
    hide ParseComparison;
    if k > 0 {
      TryOps(s, ops[1..], k - 1, lib);
    }
  }

  // ---------- The round trip ----------

  lemma {:induction false} OrChainHasNoAnd(q: Query)
    requires OrChain(q)
    ensures Without(q, "and")
  {
    if q.Or? {
      OrChainHasNoAnd(q.right);
    }
  }

  /** The printed parts of a compound query, as the parser cuts them. */
  lemma CompoundCut(a: Query, lib: Numerals, show: Shower, connective: string, right: string)
    requires Canonical(a, lib, show) && PathsPresent(a) && Without(a, connective)
    requires connective == "and" || connective == "or"
    ensures var s, at := Print(a, show) + Around(connective) + right, |Print(a, show)|;
            && FindBalanced(s, Around(connective)) == Some(at)
            && s[..at] == Print(a, show) && s[at + |Around(connective)|..] == right
  {
    hide *;
    var left, n := Print(a, show), Around(connective);
    CutBetween(left, n, right);
    FindAfter(a, lib, show, connective, n + right);
    FoundAtOnce(n, right);
    ShiftNone(Find(n + right, n, 0), |left|);
    BalancedIsFind(left + n + right, n);
  }

  lemma CutBetween(left: string, n: string, right: string)
    ensures left + n + right == left + (n + right)
    ensures (left + n + right)[..|left|] == left && (left + n + right)[|left| + |n|..] == right
    ensures n != [] && n[0] == ' ' ==> n + right == "" || (n + right)[0] == ' '
  {
  }

  lemma FoundAtOnce(n: string, right: string)
    requires n != [] && n[0] == ' '
    ensures Find(n + right, n, 0) == Some(0)
  {
  }

  lemma SearchIsNotCompound(s: string)
    requires SEARCH <= s
    ensures ParseSearch(s).Parsed? ==> ParseSearch(s).query.Search?
  {
  }

  /** A compound query that begins with a search is read as a search or not at all. */
  lemma SearchHeadLost(q: Query, lib: Numerals, show: Shower)
    requires Canonical(q, lib, show) && PathsPresent(q) && !IsLeaf(q) && Head(q).Search?
    ensures Parse(Print(q, show), lib) != Parsed(q)
  {
    hide Trim;
    hide ParseSearch;
    PrintIsSolid(q, lib, show);
    TrimSolid(Print(q, show));
    SearchIsNotCompound(Print(q, show));
  }

  lemma ParseAt(s: string, at: nat, right: string, and: bool, lib: Numerals)
    requires Solid(s) && s != "*" && s != "$" && !(SEARCH <= s)
    requires var n := if and then AND else OR;
             FindBalanced(s, n) == Some(at) && s[at + |n|..] == right
    requires !and ==> FindBalanced(s, AND) == None
    requires Trim(s[..at]) != "" && Trim(right) != "" && Trim(s) == s
    ensures Parse(s, lib) == Both(Parse(s[..at], lib), Parse(right, lib), and)
  {
    hide Trim;
    hide FindBalanced;
    hide ParseSearch;
    hide ParseLeaf;
    hide Both;
  }

  /** Any other compound query is read as its parts are. */
  lemma CompoundParse(q: Query, lib: Numerals, show: Shower)
    requires Canonical(q, lib, show) && PathsPresent(q) && !IsLeaf(q) && !Head(q).Search?
    requires Without(q.left, if q.And? then "and" else "or") && (q.Or? ==> Without(q, "and"))
    ensures PathsPresent(q.left) && PathsPresent(q.right)
    ensures Parse(Print(q, show), lib)
         == Both(Parse(Print(q.left, show), lib), Parse(Print(q.right, show), lib), q.And?)
  {
    PartsCanonical(q, lib, show);
    var connective := if q.And? then "and" else "or";
    PrintCompound(q, show);
    ConnectivesAround();
    CompoundIsLong(q, show);
    hide *;
    var s, left, right := Print(q, show), Print(q.left, show), Print(q.right, show);
    PrintIsSolid(q, lib, show);
    PrintIsSolid(q.left, lib, show);
    PrintIsSolid(q.right, lib, show);
    TrimmedAlready(s);
    TrimmedAlready(left);
    TrimmedAlready(right);
    if q.Or? {
      NoConnective(q, lib, show, "and");
    }
    CompoundCut(q.left, lib, show, connective, right);
    NotSearch(s);
    ParseAt(s, |left|, right, q.And?, lib);
  }

  lemma TrimmedAlready(s: string)
    requires Solid(s)
    ensures Trim(s) == s != ""
  {
    TrimSolid(s);
  }

  lemma NotSearch(s: string)
    ensures s != "" && s[0] in "$*" ==> !(SEARCH <= s)
  {
  }

  lemma CompoundIsLong(q: Query, show: Shower)
    requires PathsPresent(q) && !IsLeaf(q)
    ensures Print(q, show) != "*" && Print(q, show) != "$"
  {
  }

  lemma PrintCompound(q: Query, show: Shower)
    requires PathsPresent(q) && !IsLeaf(q)
    ensures PathsPresent(q.left) && PathsPresent(q.right)
    ensures Print(q, show) == Print(q.left, show) + Around(if q.And? then "and" else "or") + Print(q.right, show)
  {
    ConnectivesAround();
  }

  lemma PartsCanonical(q: Query, lib: Numerals, show: Shower)
    requires Canonical(q, lib, show) && PathsPresent(q) && !IsLeaf(q)
    ensures Canonical(q.left, lib, show) && PathsPresent(q.left)
    ensures Canonical(q.right, lib, show) && PathsPresent(q.right)
  {
  }

  lemma {:induction false} ChainRoundTrip(q: Query, lib: Numerals, show: Shower)
    requires Canonical(q, lib, show) && PathsPresent(q) && AndChain(q)
    ensures Parse(Print(q, show), lib) == Parsed(q) <==> NoSearchHead(q)
  {
    hide Parse;
    hide Print;
    hide Canonical;
    if IsLeaf(q) {
      LeafReadBack(q, lib, show);
    } else if Head(q).Search? {
      SearchHeadLost(q, lib, show);
    } else {
      if OrChain(q) {
        OrChainHasNoAnd(q);
      } else {
        OrChainHasNoAnd(q.left);
      }
      PartsCanonical(q, lib, show);
      CompoundParse(q, lib, show);
      ChainRoundTrip(q.left, lib, show);
      ChainRoundTrip(q.right, lib, show);
    }
  }

  /** The parser reads back a printed query if and only if the query is a right-nested `and` of
      right-nested `or`s in which no compound query begins with a search. */
  lemma RoundTrip(q: Query, lib: Numerals, show: Shower)
    requires Canonical(q, lib, show)
    ensures PathsPresent(q)
    ensures Parse(Print(q, show), lib) == Parsed(q) <==> AndChain(q) && NoSearchHead(q)
  {
    CanonicalHasPaths(q, lib, show);
    hide Parse;
    hide Print;
    ParsedIsChain(Print(q, show), lib);
    if AndChain(q) {
      ChainRoundTrip(q, lib, show);
    }
  }

  /** Two searches joined by `and` are read as one search for the text between the outer quotes. */
  lemma TwoSearchesBecomeOne(t: string, u: string, lib: Numerals, show: Shower)
    requires CanonicalTerm(t) && CanonicalTerm(u)
    ensures Parse(Print(And(Search(t), Search(u)), show), lib) == Parsed(Search(t + "\") and search(\"" + u))
  {
    hide Trim;
    hide ParseSearch;
    var q, between := And(Search(t), Search(u)), "\") and search(\"";
    PrintIsSolid(q, lib, show);
    TrimSolid(Print(q, show));
    assert CLOSE + AND + (SEARCH + "\"") == between;
    assert Print(q, show) == SEARCH + "\"" + t + CLOSE + AND + (SEARCH + "\"" + u + CLOSE);
    assert Print(q, show) == SEARCH + "\"" + (t + (CLOSE + AND + (SEARCH + "\"")) + u) + CLOSE;
    EndsUnquoted(t, between, u);
    SearchReadBack(t + between + u);
  }

  lemma EndsUnquoted(t: string, between: string, u: string)
    requires Unquoted(t) && Unquoted(u)
    ensures Unquoted(t + between + u)
  {
  }
}
