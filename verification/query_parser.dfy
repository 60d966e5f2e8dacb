/** The parser of the query language. Strings are sequences of characters, so offsets count
    characters; only the two fixed cuts at byte 20 and byte 40 look at encoded lengths. */
module QueryParser {
  import opened Options
  import opened Json
  import opened Queries

  datatype Failure =
    | EmptyQuery | UnclosedSearch | EmptyTerm | MissingLeft | MissingRight | EmptyPath | NotANumber | Unparseable

  /** A panic is a slice whose end is before its start or inside a character. */
  datatype Outcome = Parsed(query: Query) | Rejected(failure: Failure) | Panicked

  /** How the number library reads numerals. */
  datatype Numerals = Numerals(parseInt: string -> Option<int>, parseFloat: string -> Option<Float>)

  // ---------- Strings ----------

  /** The characters with the Unicode property White_Space. */
  predicate IsSpace(c: char) {
    var n := c as int;
    || 9 <= n <= 13 || n == 32 || n == 0x85 || n == 0xA0 || n == 0x1680 || 0x2000 <= n <= 0x200A
    || n == 0x2028 || n == 0x2029 || n == 0x202F || n == 0x205F || n == 0x3000
  }

  predicate IsDoubleQuote(c: char) {
    c == '"'
  }

  predicate IsSingleQuote(c: char) {
    c == '\''
  }

  function DropFront(s: string, drop: char -> bool): (r: string)
    ensures |r| <= |s|
  {
    if s != [] && drop(s[0]) then DropFront(s[1..], drop) else s
  }

  function DropBack(s: string, drop: char -> bool): (r: string)
    ensures |r| <= |s|
  {
    if s != [] && drop(s[|s| - 1]) then DropBack(s[..|s| - 1], drop) else s
  }

  function TrimMatches(s: string, drop: char -> bool): (r: string)
    ensures |r| <= |s|
  {
    DropBack(DropFront(s, drop), drop)
  }

  function Trim(s: string): (r: string)
    ensures |r| <= |s|
  {
    TrimMatches(s, IsSpace)
  }

  /** The bytes of a character in UTF-8. */
  function Width(c: char): nat {
    var n := c as int;
    if n < 0x80 then 1 else if n < 0x800 then 2 else if n < 0x10000 then 3 else 4
  }

  function ByteLength(s: string): nat {
    if s == [] then 0 else Width(s[0]) + ByteLength(s[1..])
  }

  /** Whether byte n is where a character starts or the string ends. */
  predicate CharBoundary(s: string, n: nat) {
    n == 0 || (s != [] && Width(s[0]) <= n && CharBoundary(s[1..], n - Width(s[0])))
  }

  function StripPrefix(s: string, prefix: string): (r: string)
    ensures |r| <= |s|
  {
    if prefix <= s then s[|prefix|..] else s
  }

  function Split(s: string, at: char): (parts: seq<string>)
    ensures parts != []
  {
    if s == [] then [""]
    else
      var rest := Split(s[1..], at);
      if s[0] == at then [""] + rest else [[s[0]] + rest[0]] + rest[1..]
  }

  // ---------- Searching outside parentheses ----------

  predicate StartsWith(s: string, prefix: string) {
    prefix <= s
  }

  function Nesting(c: char): int {
    if c == '(' then 1 else if c == ')' then -1 else 0
  }

  function Depth(s: string): int {
    if s == [] then 0 else Nesting(s[0]) + Depth(s[1..])
  }

  /** The first place where the needle stands at nesting depth zero, given the depth before `s`. */
  function Find(s: string, needle: string, depth: int): (r: Option<nat>)
    requires needle != []
    ensures r.Some? ==> r.value + |needle| <= |s|
  {
    if s == [] then None
    else if depth + Nesting(s[0]) == 0 && StartsWith(s, needle) then Some(0)
    else
      var r := Find(s[1..], needle, depth + Nesting(s[0]));
      if r.None? then None else Some(r.value + 1)
  }

  function FindBalanced(s: string, needle: string): (r: Option<nat>)
    requires needle != []
    ensures r.Some? ==> r.value + |needle| <= |s|
  {
    Find(s, needle, 0)
  }

  /** The needle stands at i, at nesting depth zero. */
  predicate StandsAt(s: string, needle: string, depth: int, i: nat) {
    i < |s| && depth + Depth(s[..i + 1]) == 0 && StartsWith(s[i..], needle)
  }

  lemma StandsLater(s: string, needle: string, depth: int, i: nat)
    requires 0 < i && s != []
    ensures StandsAt(s, needle, depth, i) <==> StandsAt(s[1..], needle, depth + Nesting(s[0]), i - 1)
  {
    hide StartsWith;
    if i < |s| {
      assert s[..i + 1][1..] == s[1..][..i];
      assert s[1..][i - 1..] == s[i..];
    }
  }

  lemma NothingStands(needle: string, depth: int, i: nat)
    ensures !StandsAt([], needle, depth, i)
  {
  }

  lemma AtFront(s: string, needle: string, depth: int)
    requires s != []
    ensures StandsAt(s, needle, depth, 0) <==> depth + Nesting(s[0]) == 0 && StartsWith(s, needle)
  {
    assert s[..1][1..] == [] && s[0..] == s;
    assert Depth(s[..1]) == Nesting(s[..1][0]) + Depth(s[..1][1..]);
  }

  /** What is found is the first place where the needle stands outside parentheses. */
  lemma {:induction false} FindIsFirst(s: string, needle: string, depth: int, i: nat)
    requires needle != []
    ensures var r := Find(s, needle, depth);
            && (r == Some(i) ==> StandsAt(s, needle, depth, i))
            && (StandsAt(s, needle, depth, i) ==> r.Some? && r.value <= i)
  {
    hide StandsAt;
    hide StartsWith;
    hide Find;
    if s == [] {
      FindNothing(s, needle, depth);
      NothingStands(needle, depth, i);
    } else {
      FindUnfold(s, needle, depth);
      AtFront(s, needle, depth);
      if i > 0 {
        StandsLater(s, needle, depth, i);
        FindIsFirst(s[1..], needle, depth + Nesting(s[0]), i - 1);
      }
    }
  }

  function Shift(r: Option<nat>, n: nat): Option<nat> {
    if r.None? then None else Some(r.value + n)
  }

  lemma FindFrom(t: string, c: char, rest: string, needle: string, depth: int)
    requires needle != [] && t == [c] + rest
    ensures Find(t, needle, depth)
         == if depth + Nesting(c) == 0 && StartsWith(t, needle) then Some(0)
            else Shift(Find(rest, needle, depth + Nesting(c)), 1)
  {
    hide Find;
    hide StartsWith;
    assert t[1..] == rest;
    FindUnfold(t, needle, depth);
  }

  lemma FindUnfold(t: string, needle: string, depth: int)
    requires needle != [] && t != []
    ensures Find(t, needle, depth)
         == if depth + Nesting(t[0]) == 0 && StartsWith(t, needle) then Some(0)
            else Shift(Find(t[1..], needle, depth + Nesting(t[0])), 1)
  {
  }

  /** `find_balanced`, which scans with a running depth. */
  method ScanBalanced(s: string, needle: string) returns (r: Option<nat>)
    requires needle != []
    ensures r == FindBalanced(s, needle)
  {
    hide Find;
    hide StartsWith;
    var depth, i, rest := 0, 0, s;
    while rest != []
      invariant FindBalanced(s, needle) == Shift(Find(rest, needle, depth), i)
      decreases |rest|
    {
      assert rest == [rest[0]] + rest[1..];
      FindFrom(rest, rest[0], rest[1..], needle, depth);
      match rest[0] {
        case '(' => depth := depth + 1;
        case ')' => depth := depth - 1;
        case _ =>
      }
      if depth == 0 && StartsWith(rest, needle) {
        return Some(i);
      }
      i, rest := i + 1, rest[1..];
    }
    FindNothing(rest, needle, depth);
    return None;
  }

  lemma FindNothing(s: string, needle: string, depth: int)
    requires needle != [] && s == []
    ensures Find(s, needle, depth) == None
  {
  }

  lemma {:induction false} DepthJoin(a: string, b: string)
    ensures Depth(a + b) == Depth(a) + Depth(b)
  {
    if a == [] {
      assert a + b == b;
    } else {
      assert (a + b)[1..] == a[1..] + b;
      DepthJoin(a[1..], b);
    }
  }

  // ---------- Parsing ----------

  function ParsePath(s: string): Option<seq<string>> {
    var bare := StripPrefix(StripPrefix(Trim(s), "$"), ".");
    if bare == "" then None else Some(Split(bare, '.'))
  }

  predicate Quoted(s: string, quote: char) {
    s != [] && s[0] == quote && s[|s| - 1] == quote
  }

  /** None is a panic: a lone quote both starts and ends with a quote. */
  function ParseValue(text: string, lib: Numerals): Option<Value> {
    var s := Trim(text);
    if Quoted(s, '"') || Quoted(s, '\'') then
      if |s| == 1 then None else Some(Str(s[1..|s| - 1]))
    else if lib.parseInt(s).Some? then Some(Num(Int(lib.parseInt(s).value)))
    else if lib.parseFloat(s).Some? && lib.parseFloat(s).value.Finite? then Some(Num(Real(lib.parseFloat(s).value)))
    else if s == "true" then Some(Bool(true))
    else if s == "false" then Some(Bool(false))
    else if s == "null" then Some(Null)
    else Some(Str(s))
  }

  datatype Op = Ge | Le | More | Less | Equals

  function OpText(op: Op): (s: string)
    ensures 1 <= |s| <= 2
  {
    match op
    case Ge => ">="
    case Le => "<="
    case More => ">"
    case Less => "<"
    case Equals => "=="
  }

  const OPS: seq<Op> := [Ge, Le, More, Less, Equals]

  function Comparing(op: Op, path: seq<string>, bound: Float): Query
    requires op != Equals
  {
    match op
    case Ge => Gte(path, bound)
    case Le => Lte(path, bound)
    case More => Gt(path, bound)
    case Less => Lt(path, bound)
  }

  function ParseComparison(s: string, at: nat, op: Op, lib: Numerals): Outcome
    requires at + |OpText(op)| <= |s|
  {
    var left, right := Trim(s[..at]), Trim(s[at + |OpText(op)|..]);
    if left == "" then Rejected(MissingLeft)
    else if right == "" then Rejected(MissingRight)
    else if ParsePath(left).None? then Rejected(EmptyPath)
    else if op == Equals then
      var value := ParseValue(right, lib);
      if value.None? then Panicked else Parsed(Eq(ParsePath(left).value, value.value))
    else
      var bound := lib.parseFloat(Trim(right));
      if bound.None? then Rejected(NotANumber) else Parsed(Comparing(op, ParsePath(left).value, bound.value))
  }

  /** Tries the operators in turn. */
  function ParseLeaf(s: string, ops: seq<Op>, lib: Numerals): Outcome {
    if ops == [] then
      if ByteLength(s) > 40 && !CharBoundary(s, 40) then Panicked else Rejected(Unparseable)
    else
      var at := FindBalanced(s, OpText(ops[0]));
      if at.Some? then ParseComparison(s, at.value, ops[0], lib) else ParseLeaf(s, ops[1..], lib)
  }

  const SEARCH := "search("

  function ParseSearch(s: string): Outcome
    requires SEARCH <= s
  {
    var inner := s[|SEARCH|..];
    if inner == [] || inner[|inner| - 1] != ')' then Rejected(UnclosedSearch)
    else
      var term := TrimMatches(TrimMatches(Trim(inner[..|inner| - 1]), IsDoubleQuote), IsSingleQuote);
      if term != "" then Parsed(Search(term))
      else if ByteLength(s) > 20 && !CharBoundary(s, 20) then Panicked
      else Rejected(EmptyTerm)
  }

  function Both(left: Outcome, right: Outcome, and: bool): Outcome {
    if !left.Parsed? then left
    else if !right.Parsed? then right
    else Parsed(if and then And(left.query, right.query) else Or(left.query, right.query))
  }

  const AND := " and "
  const OR := " or "

  /** `Query::parse`. */
  function Parse(input: string, lib: Numerals): Outcome
    decreases |input|
  {
    var s := Trim(input);
    if s == "" then Rejected(EmptyQuery)
    else if s == "*" || s == "$" then Parsed(All)
    else if SEARCH <= s then ParseSearch(s)
    else if FindBalanced(s, AND).Some? then
      var at := FindBalanced(s, AND).value;
      var left, right := s[..at], s[at + |AND|..];
      if Trim(left) == "" then Rejected(MissingLeft)
      else if Trim(right) == "" then Rejected(MissingRight)
      else Both(Parse(left, lib), Parse(right, lib), true)
    else if FindBalanced(s, OR).Some? then
      var at := FindBalanced(s, OR).value;
      var left, right := s[..at], s[at + |OR|..];
      if Trim(left) == "" then Rejected(MissingLeft)
      else if Trim(right) == "" then Rejected(MissingRight)
      else Both(Parse(left, lib), Parse(right, lib), false)
    else ParseLeaf(s, OPS, lib)
  }
}
