/** When an arbitrary input makes the parser panic: on its first leaf that is not parsed. */
module QueryLeaves {
  import opened Options
  import opened QueryParser
  import opened QueryRoundTrip
  import opened QueryPanics

  // ---------- One leaf ----------

  /** The needle stands somewhere outside parentheses. */
  ghost predicate Stands(s: string, needle: string) {
    exists i :: StandsAt(s, needle, 0, i)
  }

  lemma FoundIffStands(s: string, needle: string)
    requires needle != []
    ensures FindBalanced(s, needle).Some? <==> Stands(s, needle)
  {
    hide StandsAt;
    hide Find;
    var r := FindBalanced(s, needle);
    if r.Some? {
      FindIsFirst(s, needle, 0, r.value);
    }
    if i :| StandsAt(s, needle, 0, i) {
      FindIsFirst(s, needle, 0, i);
    }
  }

  /** The first of the operators that stands is `==`. */
  ghost predicate OnlyEqualityAt(s: string, at: nat) {
    && StandsAt(s, "==", 0, at) && (forall i | 0 <= i < at :: !StandsAt(s, "==", 0, i))
    && !Stands(s, ">=") && !Stands(s, "<=") && !Stands(s, ">") && !Stands(s, "<")
  }

  ghost predicate NoOperatorStands(s: string) {
    !Stands(s, ">=") && !Stands(s, "<=") && !Stands(s, ">") && !Stands(s, "<") && !Stands(s, "==")
  }

  predicate CutsCharacter(s: string, n: nat) {
    ByteLength(s) > n && !CharBoundary(s, n)
  }

  /** A path from a lone quote on the right, or a message that is cut inside a character. */
  ghost predicate ComparisonPanics(s: string) {
    || (NoOperatorStands(s) && CutsCharacter(s, 40))
    || (exists at: nat | OnlyEqualityAt(s, at) && at + 2 <= |s| ::
          Trim(s[..at]) !in ["", "$", ".", "$."] && LoneQuote(Trim(s[at + 2..])))
  }

  /** A search for nothing but quotes and spaces whose message is cut inside a character. */
  predicate SearchPanics(s: string)
    requires SEARCH <= s
  {
    && s != SEARCH && s[|s| - 1] == ')'
    && TrimMatches(TrimMatches(Trim(s[|SEARCH|..|s| - 1]), IsDoubleQuote), IsSingleQuote) == ""
    && CutsCharacter(s, 20)
  }

  ghost predicate LeafPanics(s: string) {
    if s == "" || s == "*" || s == "$" then false
    else if SEARCH <= s then SearchPanics(s)
    else ComparisonPanics(s)
  }

  lemma PathPresent(left: string)
    ensures ParsePath(left).Some? <==> Trim(left) !in ["", "$", ".", "$."]
  {
    hide Trim;
    var t := Trim(left);
    var u := StripPrefix(t, "$");
    assert u == "" <==> t == "" || t == "$";
    assert u == "." <==> t == "." || t == "$.";
  }

  lemma EqualityOutcome(s: string, at: nat, lib: Numerals)
    requires at + 2 <= |s|
    ensures ParseComparison(s, at, Equals, lib) == Panicked
       <==> Trim(s[..at]) !in ["", "$", ".", "$."] && LoneQuote(Trim(s[at + 2..]))
  {
    hide Trim;
    hide ParsePath;
    hide ParseValue;
    var left, right := Trim(s[..at]), Trim(s[at + 2..]);
    TrimTwice(s[..at]);
    TrimTwice(s[at + 2..]);
    PathPresent(left);
    PanickingValue(right, lib);
  }

  lemma FirstOperator(s: string, op: Op)
    requires FindBalanced(s, OpText(op)).Some?
    requires forall other | Earlier(other, op) :: FindBalanced(s, OpText(other)) == None
    ensures op != Equals ==> !(exists at: nat :: OnlyEqualityAt(s, at))
    ensures op == Equals ==>
      forall at: nat :: OnlyEqualityAt(s, at) <==> at == FindBalanced(s, OpText(op)).value
    ensures !NoOperatorStands(s)
  {
    hide Find;
    hide Stands;
    hide StandsAt;
    FoundIffStands(s, OpText(op));
    if op == Equals {
      forall other | Earlier(other, op) ensures !Stands(s, OpText(other)) {
        FoundIffStands(s, OpText(other));
      }
      assert Earlier(Ge, op) && Earlier(Le, op) && Earlier(More, op) && Earlier(Less, op);
      forall i: nat
        ensures FindBalanced(s, "==") == Some(i) ==> StandsAt(s, "==", 0, i)
        ensures StandsAt(s, "==", 0, i) ==> FindBalanced(s, "==").value <= i
      {
        FindIsFirst(s, "==", 0, i);
      }
    }
  }

  lemma FoundWithin(s: string, op: Op)
    requires FindBalanced(s, OpText(op)).Some?
    ensures FindBalanced(s, OpText(op)).value + |OpText(op)| <= |s| && |OpText(Equals)| == 2
  {
  }

  lemma EqualityPanics(s: string, at: nat)
    requires at + 2 <= |s| && !NoOperatorStands(s) && forall i: nat :: OnlyEqualityAt(s, i) <==> i == at
    ensures ComparisonPanics(s) <==> Trim(s[..at]) !in ["", "$", ".", "$."] && LoneQuote(Trim(s[at + 2..]))
  {
    hide OnlyEqualityAt;
    hide NoOperatorStands;
    hide Trim;
    hide LoneQuote;
    assert OnlyEqualityAt(s, at);
  }

  lemma BoundOutcome(s: string, at: nat, op: Op, lib: Numerals)
    requires at + |OpText(op)| <= |s| && op != Equals
    ensures ParseComparison(s, at, op, lib) != Panicked
  {
    hide Trim;
    hide ParsePath;
  }

  lemma BoundPanics(s: string)
    requires !NoOperatorStands(s) && !(exists at: nat :: OnlyEqualityAt(s, at))
    ensures !ComparisonPanics(s)
  {
    hide OnlyEqualityAt;
    hide NoOperatorStands;
  }

  lemma OperatorLeaf(s: string, op: Op, lib: Numerals)
    requires FindBalanced(s, OpText(op)).Some?
    requires forall other | Earlier(other, op) :: FindBalanced(s, OpText(other)) == None
    ensures ParseLeaf(s, OPS, lib) == Panicked <==> ComparisonPanics(s)
  {
    hide *;
    OpsTried(s, op, lib);
    FirstOperator(s, op);
    FoundWithin(s, op);
    var at := FindBalanced(s, OpText(op)).value;
    if op == Equals {
      EqualityOutcome(s, at, lib);
      EqualityPanics(s, at);
    } else {
      BoundOutcome(s, at, op, lib);
      BoundPanics(s);
    }
  }

  lemma {:induction false} NoneTried(s: string, ops: seq<Op>, lib: Numerals)
    requires forall op | op in ops :: FindBalanced(s, OpText(op)) == None
    ensures ParseLeaf(s, ops, lib) == Panicked <==> CutsCharacter(s, 40)
  {
    hide FindBalanced;
    hide ByteLength;
    hide CharBoundary;
    if ops != [] {
      assert ops[0] in ops && forall op | op in ops[1..] :: op in ops;
      NoneTried(s, ops[1..], lib);
    }
  }

  lemma NoOperatorLeaf(s: string, lib: Numerals)
    requires forall op: Op :: FindBalanced(s, OpText(op)) == None
    ensures ParseLeaf(s, OPS, lib) == Panicked <==> ComparisonPanics(s)
  {
    hide FindBalanced;
    hide Stands;
    hide CutsCharacter;
    NoneTried(s, OPS, lib);
    forall op: Op ensures !Stands(s, OpText(op)) {
      FoundIffStands(s, OpText(op));
    }
    assert OpText(Ge) == ">=" && OpText(Le) == "<=" && OpText(More) == ">" && OpText(Less) == "<" && OpText(Equals) == "==";
    forall at: nat ensures !OnlyEqualityAt(s, at) {
      if StandsAt(s, "==", 0, at) {
        StandsSomewhere(s, "==", at);
      }
    }
  }

  lemma StandsSomewhere(s: string, needle: string, i: nat)
    requires StandsAt(s, needle, 0, i)
    ensures Stands(s, needle)
  {
  }

  lemma ComparisonLeaf(s: string, lib: Numerals)
    ensures ParseLeaf(s, OPS, lib) == Panicked <==> ComparisonPanics(s)
  {
    hide FindBalanced;
    hide ParseLeaf;
    hide ComparisonPanics;
    var found := (op: Op) => FindBalanced(s, OpText(op)).Some?;
    if found(Ge) {
      OperatorLeaf(s, Ge, lib);
    } else if found(Le) {
      OperatorLeaf(s, Le, lib);
    } else if found(More) {
      OperatorLeaf(s, More, lib);
    } else if found(Less) {
      OperatorLeaf(s, Less, lib);
    } else if found(Equals) {
      OperatorLeaf(s, Equals, lib);
    } else {
      NoOperatorLeaf(s, lib);
    }
  }

  lemma SearchLeaf(s: string)
    requires SEARCH <= s
    ensures ParseSearch(s) == Panicked <==> SearchPanics(s)
  {
    hide Trim;
    hide TrimMatches;
    hide ByteLength;
    hide CharBoundary;
    var inner := s[|SEARCH|..];
    assert s == SEARCH + inner;
    if inner != [] {
      assert inner[|inner| - 1] == s[|s| - 1];
      assert inner[..|inner| - 1] == s[|SEARCH|..|s| - 1];
    }
  }

  // ---------- All leaves ----------

  /** The trimmed texts between the connectives that the parser splits at, from left to right; a
      connective without a left or right side is an empty leaf. */
  function Leaves(input: string): seq<string>
    decreases |input|
  {
    var s := Trim(input);
    if s == "" || s == "*" || s == "$" || SEARCH <= s then [s]
    else if FindBalanced(s, AND).Some? then
      var at := FindBalanced(s, AND).value;
      if Trim(s[..at]) == "" || Trim(s[at + |AND|..]) == "" then [""]
      else Leaves(s[..at]) + Leaves(s[at + |AND|..])
    else if FindBalanced(s, OR).Some? then
      var at := FindBalanced(s, OR).value;
      if Trim(s[..at]) == "" || Trim(s[at + |OR|..]) == "" then [""]
      else Leaves(s[..at]) + Leaves(s[at + |OR|..])
    else [s]
  }

  ghost predicate AllParsed(leaves: seq<string>, lib: Numerals) {
    forall i | 0 <= i < |leaves| :: Parse(leaves[i], lib).Parsed?
  }

  ghost predicate PanicsAt(leaves: seq<string>, i: nat, lib: Numerals) {
    i < |leaves| && LeafPanics(leaves[i]) && AllParsed(leaves[..i], lib)
  }

  ghost predicate SomePanic(leaves: seq<string>, lib: Numerals) {
    exists i :: PanicsAt(leaves, i, lib)
  }

  lemma JoinParsed(a: seq<string>, b: seq<string>, lib: Numerals)
    ensures AllParsed(a + b, lib) <==> AllParsed(a, lib) && AllParsed(b, lib)
  {
    hide Parse;
    if AllParsed(a + b, lib) {
      assert forall i | 0 <= i < |a| :: a[i] == (a + b)[i];
      assert forall i | 0 <= i < |b| :: b[i] == (a + b)[|a| + i];
    }
  }

  lemma JoinPanics(a: seq<string>, b: seq<string>, lib: Numerals)
    ensures SomePanic(a + b, lib) <==> SomePanic(a, lib) || (AllParsed(a, lib) && SomePanic(b, lib))
  {
    hide LeafPanics;
    hide AllParsed;
    if i: nat :| PanicsAt(a + b, i, lib) {
      if i < |a| {
        assert (a + b)[..i] == a[..i];
        assert PanicsAt(a, i, lib);
      } else {
        assert (a + b)[..i] == a + b[..i - |a|];
        JoinParsed(a, b[..i - |a|], lib);
        assert PanicsAt(b, i - |a|, lib);
      }
    }
    if i: nat :| PanicsAt(a, i, lib) {
      assert (a + b)[..i] == a[..i];
      assert PanicsAt(a + b, i, lib);
    }
    if AllParsed(a, lib) {
      if i: nat :| PanicsAt(b, i, lib) {
        assert (a + b)[..|a| + i] == a + b[..i];
        JoinParsed(a, b[..i], lib);
        assert PanicsAt(a + b, |a| + i, lib);
      }
    }
  }

  lemma OnePanics(s: string, lib: Numerals)
    ensures SomePanic([s], lib) <==> LeafPanics(s)
    ensures AllParsed([s], lib) <==> Parse(s, lib).Parsed?
  {
    hide LeafPanics;
    hide Parse;
    assert [s][0] == s;
    if LeafPanics(s) {
      assert PanicsAt([s], 0, lib);
    }
  }

  predicate Unsplit(s: string) {
    || s == "" || s == "*" || s == "$" || SEARCH <= s
    || (FindBalanced(s, AND).None? && FindBalanced(s, OR).None?)
  }

  /** An input that is not split. */
  lemma LeafPanicsIff(input: string, lib: Numerals)
    requires Unsplit(Trim(input))
    ensures Parse(input, lib) == Parse(Trim(input), lib)
    ensures Parse(input, lib) == Panicked <==> LeafPanics(Trim(input))
  {
    hide FindBalanced;
    hide ParseLeaf;
    hide ParseSearch;
    hide Trim;
    hide SearchPanics;
    hide ComparisonPanics;
    var s := Trim(input);
    TrimTwice(input);
    if s == "" || s == "*" || s == "$" {
    } else if SEARCH <= s {
      SearchLeaf(s);
    } else {
      ComparisonLeaf(s, lib);
    }
  }

  lemma SplitPanics(input: string, left: string, right: string, and: bool, lib: Numerals)
    requires Leaves(input) == Leaves(left) + Leaves(right)
    requires Parse(input, lib) == Both(Parse(left, lib), Parse(right, lib), and)
    requires Parse(left, lib) == Panicked <==> SomePanic(Leaves(left), lib)
    requires Parse(right, lib) == Panicked <==> SomePanic(Leaves(right), lib)
    requires Parse(left, lib).Parsed? <==> AllParsed(Leaves(left), lib)
    requires Parse(right, lib).Parsed? <==> AllParsed(Leaves(right), lib)
    ensures Parse(input, lib) == Panicked <==> SomePanic(Leaves(input), lib)
    ensures Parse(input, lib).Parsed? <==> AllParsed(Leaves(input), lib)
  {
    hide Parse;
    hide Leaves;
    hide AllParsed;
    hide SomePanic;
    JoinPanics(Leaves(left), Leaves(right), lib);
    JoinParsed(Leaves(left), Leaves(right), lib);
  }

  /** Whatever the input: parsing panics if and only if some leaf panics and all before it are
      parsed, and it succeeds if and only if all leaves are parsed. */
  lemma {:induction false} PanicsIff(input: string, lib: Numerals)
    ensures Parse(input, lib) == Panicked <==> SomePanic(Leaves(input), lib)
    ensures Parse(input, lib).Parsed? <==> AllParsed(Leaves(input), lib)
    decreases |input|
  {
    hide FindBalanced;
    hide ParseLeaf;
    hide ParseSearch;
    hide Trim;
    hide LeafPanics;
    hide SomePanic;
    hide AllParsed;
    var s := Trim(input);
    OnePanics(s, lib);
    if Unsplit(s) {
      LeafPanicsIff(input, lib);
    } else {
      var needle := if FindBalanced(s, AND).Some? then AND else OR;
      var at := FindBalanced(s, needle).value;
      var left, right := s[..at], s[at + |needle|..];
      if Trim(left) == "" || Trim(right) == "" {
        OnePanics("", lib);
        EmptyLeaf(lib);
      } else {
        PanicsIff(left, lib);
        PanicsIff(right, lib);
        SplitPanics(input, left, right, needle == AND, lib);
      }
    }
  }

  lemma EmptyLeaf(lib: Numerals)
    ensures !LeafPanics("") && !Parse("", lib).Parsed?
  {
  }

  // ---------- Searches for nothing ----------

  predicate Blank(t: string) {
    forall i | 0 <= i < |t| :: IsSpace(t[i])
  }

  lemma TrimBlank(t: string)
    requires Blank(t)
    ensures Trim(t) == ""
  {
    var i, j := Trimmed(t);
  }

  lemma SpacedSearch(t: string)
    requires Blank(t)
    ensures Trim(SEARCH + t + ")") == SEARCH + t + ")" && SEARCH <= SEARCH + t + ")"
    ensures (SEARCH + t + ")")[|SEARCH|..|SEARCH + t + ")"| - 1] == t
  {
    SolidAround("search(", t, ")");
    TrimSolid(SEARCH + t + ")");
  }

  /** A search for spaces is never parsed; it panics if and only if byte 20 is inside a space. */
  lemma BlankSearchPanicsIff(t: string, lib: Numerals)
    requires Blank(t)
    ensures !Parse(SEARCH + t + ")", lib).Parsed?
    ensures Parse(SEARCH + t + ")", lib) == Panicked <==> CutsCharacter(SEARCH + t + ")", 20)
  {
    hide CutsCharacter;
    hide ByteLength;
    hide CharBoundary;
    hide Trim;
    var s := SEARCH + t + ")";
    SpacedSearch(t);
    TrimBlank(t);
    assert s[|SEARCH|..] == t + ")" && (t + ")")[..|t|] == t;
    assert TrimMatches(TrimMatches("", IsDoubleQuote), IsSingleQuote) == "";
    SearchLeaf(s);
  }

  /** Twelve spaces and an em space, whose bytes are 19 to 21. */
  lemma WideSpacePanics(lib: Numerals)
    ensures Parse(SEARCH + ("            " + "\U{2003}") + ")", lib) == Panicked
  {
    hide Parse;
    hide ByteLength;
    hide CharBoundary;
    var twelve, wide := "            ", "\U{2003}";
    BlankSearchPanicsIff(twelve + wide, lib);
    assert SEARCH + (twelve + wide) + ")" == (SEARCH + twelve) + (wide + ")");
    BytesBefore(SEARCH + twelve, wide + ")", 20);
    WideSpace();
  }

  lemma WideSpace()
    ensures ByteLength("\U{2003}" + ")") == 4 && !CharBoundary("\U{2003}" + ")", 1)
  {
    assert ("\U{2003}" + ")")[1..] == ")" && ")"[1..] == "";
  }

  /** Behind one-byte characters, bytes are counted from there. */
  lemma {:induction false} BytesBefore(a: string, b: string, n: nat)
    requires OneByte(a) && |a| <= n
    ensures ByteLength(a + b) == |a| + ByteLength(b)
    ensures CharBoundary(a + b, n) <==> CharBoundary(b, n - |a|)
  {
    if a == "" {
      assert a + b == b;
    } else {
      assert (a + b)[1..] == a[1..] + b && a[0] as int < 0x80;
      BytesBefore(a[1..], b, n - 1);
    }
  }
}
