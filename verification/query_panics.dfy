/** When the parser panics instead of returning a query or an error. */
module QueryPanics {
  import opened Options
  import opened Queries
  import opened QueryParser
  import opened QueryRoundTrip

  // ---------- Trimming ----------

  lemma {:induction false} FrontDropped(s: string) returns (i: nat)
    ensures i <= |s| && DropFront(s, IsSpace) == s[i..] && (i > 0 ==> IsSpace(s[i - 1]))
    ensures i < |s| ==> !IsSpace(s[i])
  {
    i := 0;
    if s != [] && IsSpace(s[0]) {
      i := FrontDropped(s[1..]);
      i := i + 1;
    }
  }

  lemma {:induction false} BackDropped(s: string) returns (j: nat)
    ensures j <= |s| && DropBack(s, IsSpace) == s[..j] && (j < |s| ==> IsSpace(s[j]))
    ensures j > 0 ==> !IsSpace(s[j - 1])
  {
    j := |s|;
    if s != [] && IsSpace(s[|s| - 1]) {
      j := BackDropped(s[..|s| - 1]);
      assert s[..|s| - 1][..j] == s[..j];
    }
  }

  /** Trimming cuts at spaces, down to nothing or to a text without a space at either end. */
  lemma Trimmed(s: string) returns (i: nat, j: nat)
    ensures i <= j <= |s| && Trim(s) == s[i..j]
    ensures (i > 0 ==> IsSpace(s[i - 1])) && (j < |s| ==> IsSpace(s[j]))
    ensures Trim(s) == "" || Solid(Trim(s))
  {
    i := FrontDropped(s);
    j := BackDropped(s[i..]);
    assert s[i..][..j] == s[i..i + j];
    if 0 < j {
      assert s[i..][0] == s[i] && s[i..][j - 1] == s[i + j - 1];
    }
    j := i + j;
  }

  lemma TrimTwice(s: string)
    ensures Trim(Trim(s)) == Trim(s)
  {
    var i, j := Trimmed(s);
    if Trim(s) != "" {
      TrimSolid(Trim(s));
    } else {
      assert Trim("") == "";
    }
  }

  /** In UTF-8 a character takes as many bytes as its 7, 11, 16 or 21 bits need. */
  lemma WidthIsUtf8(c: char)
    ensures 1 <= Width(c) <= 4
    ensures Width(c) <= 1 <==> c as int < 128
    ensures Width(c) <= 2 <==> c as int < 2048
    ensures Width(c) <= 3 <==> c as int < 65536
  {
  }

  // ---------- Inputs on which no cut can fail ----------

  predicate OneByte(s: string) {
    forall i | 0 <= i < |s| :: s[i] as int < 0x80
  }

  /** The quote, if it is one, has a character after it that is no space, or one before it that is
      neither a space nor `=`. */
  predicate Attached(s: string, i: nat)
    requires i < |s|
  {
    IsQuote(s[i]) ==>
      || (i + 1 < |s| && !IsSpace(s[i + 1]))
      || (i > 0 && !IsSpace(s[i - 1]) && s[i - 1] != '=')
  }

  /** One-byte characters, and no quote that could be a whole operand. */
  predicate Safe(s: string) {
    OneByte(s) && forall i | 0 <= i < |s| :: Attached(s, i)
  }

  /** Cutting at a space, or behind an `=`, keeps an input safe. */
  lemma CutSafe(s: string, i: nat, j: nat)
    requires Safe(s) && i <= j <= |s|
    requires (i > 0 ==> IsSpace(s[i - 1]) || s[i - 1] == '=') && (j < |s| ==> IsSpace(s[j]))
    ensures Safe(s[i..j])
  {
    forall k | 0 <= k < j - i ensures Attached(s[i..j], k) && s[i..j][k] as int < 0x80 {
      assert Attached(s, i + k) && s[i + k] == s[i..j][k];
      if k + 1 < j - i {
        assert s[i..j][k + 1] == s[i + k + 1];
      }
      if k > 0 {
        assert s[i..j][k - 1] == s[i + k - 1];
      }
    }
  }

  lemma TrimSafe(s: string)
    requires Safe(s)
    ensures Safe(Trim(s))
  {
    hide *;
    var i, j := Trimmed(s);
    CutSafe(s, i, j);
  }

  lemma {:induction false} OneByteBoundary(s: string, n: nat)
    requires OneByte(s)
    ensures ByteLength(s) == |s| && (n <= |s| ==> CharBoundary(s, n))
  {
    if s != "" {
      OneByteBoundary(s[1..], if n == 0 then 0 else n - 1);
    }
  }

  predicate LoneQuote(s: string) {
    s == "\"" || s == "'"
  }

  lemma PanickingValue(s: string, lib: Numerals)
    ensures ParseValue(s, lib).None? <==> LoneQuote(Trim(s))
  {
  }

  lemma SafeHasNoLoneQuote(s: string)
    requires Safe(s)
    ensures !LoneQuote(s)
  {
    assert s != "" ==> Attached(s, 0);
  }

  lemma SafeValue(s: string, lib: Numerals)
    requires Safe(s)
    ensures ParseValue(s, lib).Some?
  {
    hide *;
    TrimSafe(s);
    SafeHasNoLoneQuote(Trim(s));
    PanickingValue(s, lib);
  }

  lemma SafeRight(s: string, at: nat, lib: Numerals)
    requires Safe(s) && FindBalanced(s, OpText(Equals)) == Some(at)
    ensures ParseValue(Trim(s[at + 2..]), lib).Some?
  {
    FindIsFirst(s, OpText(Equals), 0, at);
    hide *;
    EqualsStands(s, at);
    CutSafe(s, at + 2, |s|);
    assert s[at + 2..|s|] == s[at + 2..];
    TrimSafe(s[at + 2..]);
    SafeValue(Trim(s[at + 2..]), lib);
  }

  lemma EqualsStands(s: string, at: nat)
    requires FindBalanced(s, OpText(Equals)) == Some(at)
    ensures at + 2 <= |s| && s[at + 1] == '='
  {
    FindIsFirst(s, OpText(Equals), 0, at);
    assert s[at..][1] == "=="[1];
  }

  lemma SafeComparison(s: string, op: Op, lib: Numerals)
    requires Safe(s) && FindBalanced(s, OpText(op)).Some?
    ensures ParseComparison(s, FindBalanced(s, OpText(op)).value, op, lib) != Panicked
  {
    hide FindBalanced;
    hide Trim;
    hide ParseValue;
    hide ParsePath;
    hide Safe;
    if op == Equals {
      SafeRight(s, FindBalanced(s, OpText(op)).value, lib);
    }
  }

  lemma {:induction false} SafeLeaf(s: string, ops: seq<Op>, lib: Numerals)
    requires Safe(s)
    ensures ParseLeaf(s, ops, lib) != Panicked
  {
    hide FindBalanced;
    hide ParseComparison;
    OneByteBoundary(s, 40);
    hide Safe;
    if ops != [] {
      if FindBalanced(s, OpText(ops[0])).Some? {
        SafeComparison(s, ops[0], lib);
      } else {
        SafeLeaf(s, ops[1..], lib);
      }
    }
  }

  lemma SafeParts(s: string, needle: string, at: nat)
    requires Safe(s) && (needle == AND || needle == OR) && FindBalanced(s, needle) == Some(at)
    ensures at + |needle| <= |s| && Safe(s[..at]) && Safe(s[at + |needle|..])
  {
    ConnectiveStands(s, needle, at);
    hide Safe;
    CutSafe(s, 0, at);
    CutSafe(s, at + |needle|, |s|);
    assert s[0..at] == s[..at] && s[at + |needle|..|s|] == s[at + |needle|..];
  }

  /** Whatever is quoted: with one byte to a character and no quote that stands alone as an operand,
      every input is parsed or rejected. */
  lemma {:induction false} SafeNeverPanics(input: string, lib: Numerals)
    requires Safe(input)
    ensures Parse(input, lib) != Panicked
    decreases |input|
  {
    hide FindBalanced;
    hide ParseLeaf;
    hide Trim;
    hide TrimMatches;
    var s := Trim(input);
    TrimSafe(input);
    OneByteBoundary(s, 20);
    hide Safe;
    SafeLeaf(s, OPS, lib);
    if s == "" || s == "*" || s == "$" || SEARCH <= s {
    } else if FindBalanced(s, AND).Some? {
      SafeParts(s, AND, FindBalanced(s, AND).value);
      SafeNeverPanics(s[..FindBalanced(s, AND).value], lib);
      SafeNeverPanics(s[FindBalanced(s, AND).value + |AND|..], lib);
    } else if FindBalanced(s, OR).Some? {
      SafeParts(s, OR, FindBalanced(s, OR).value);
      SafeNeverPanics(s[..FindBalanced(s, OR).value], lib);
      SafeNeverPanics(s[FindBalanced(s, OR).value + |OR|..], lib);
    }
  }

  // ---------- Inputs on which one does ----------

  /** Two spaces at the distance of a connective's own, and its first letter after the first of them. */
  predicate LooksConnective(s: string, needle: string, at: nat)
    requires needle == AND || needle == OR
  {
    at + |needle| <= |s| && s[at] == ' ' && s[at + 1] == needle[1] && s[at + |needle| - 1] == ' '
  }

  lemma ConnectiveStands(s: string, needle: string, at: nat)
    requires needle == AND || needle == OR
    requires FindBalanced(s, needle) == Some(at)
    ensures LooksConnective(s, needle, at)
  {
    FindIsFirst(s, needle, 0, at);
    assert s[at..][0] == needle[0] && s[at..][1] == needle[1] && s[at..][|needle| - 1] == needle[|needle| - 1];
  }

  /** The spaces around `==` are not those of a connective. */
  lemma EqualityLooksPlain(path: string, w: string, needle: string, at: nat)
    requires CleanText(path) && CleanText(w) && (needle == AND || needle == OR)
    ensures !LooksConnective(path + " == " + w, needle, at)
  {
    var s, last := path + " == " + w, at + |needle| - 1;
    if at < |path| {
      assert Clean(path[at]) && s[at] == path[at];
    } else if at > |path| && last < |s| {
      var i := last - |path| - |" == "|;
      assert at <= |path| + 2 ==> s[at] == '=';
      assert at > |path| + 2 ==> Clean(w[i]) && s[last] == w[i];
    }
  }

  lemma EqualityHasNoConnective(path: string, w: string, needle: string)
    requires CleanText(path) && CleanText(w) && (needle == AND || needle == OR)
    ensures FindBalanced(path + " == " + w, needle).None?
  {
    hide FindBalanced;
    hide LooksConnective;
    var found := FindBalanced(path + " == " + w, needle);
    if found.Some? {
      ConnectiveStands(path + " == " + w, needle, found.value);
      EqualityLooksPlain(path, w, needle, found.value);
    }
  }

  lemma QuotedWord(w: string, lib: Numerals)
    requires CleanText(w) && w != ""
    ensures ParseValue(w, lib).None? <==> w == "\"" || w == "'"
  {
    CleanIsSolid(w);
    TrimSolid(w);
  }

  /** An equality with one word compares with the value that the word is read as. */
  lemma EqualityCompares(path: seq<string>, w: string, lib: Numerals)
    requires CanonicalPath(path) && CleanText(w) && w != ""
    ensures ParseLeaf(PrintPath(path) + " == " + w, OPS, lib)
         == var v := ParseValue(w, lib); if v.None? then Panicked else Parsed(Eq(path, v.value))
  {
    hide FindBalanced;
    hide Trim;
    hide ParsePath;
    hide ParseValue;
    hide PrintPath;
    hide CleanText;
    var p := PrintPath(path);
    var s := p + " == " + w;
    assert s == p + " " + OpText(Equals) + " " + w;
    PathWord(path);
    forall other: Op
      ensures other == Equals ==> FindBalanced(s, OpText(other)) == Some(|p| + 1)
      ensures Earlier(other, Equals) ==> FindBalanced(s, OpText(other)) == None
    {
      OperatorFound(p, Equals, w, other);
    }
    OpsTried(s, Equals, lib);
    OperandsCut(p, OpText(Equals), w);
    CleanIsSolid(p);
    CleanIsSolid(w);
    TrimSolid(p);
    TrimSolid(w);
    PathReadBack(path);
  }

  lemma EqualityLeaf(path: seq<string>, w: string, lib: Numerals)
    requires CanonicalPath(path) && CleanText(w) && w != ""
    ensures ParseLeaf(PrintPath(path) + " == " + w, OPS, lib) == Panicked <==> w == "\"" || w == "'"
  {
    hide ParseLeaf;
    hide ParseValue;
    hide PrintPath;
    EqualityCompares(path, w, lib);
    QuotedWord(w, lib);
  }

  /** An equality with one word panics if and only if the word is a lone quote. */
  lemma EqualityPanicsIff(path: seq<string>, w: string, lib: Numerals)
    requires CanonicalPath(path) && CleanText(w) && w != ""
    ensures Parse(PrintPath(path) + " == " + w, lib) == Panicked <==> w == "\"" || w == "'"
  {
    hide FindBalanced;
    hide Trim;
    hide ParseLeaf;
    hide CleanText;
    var p := PrintPath(path);
    var s := p + " == " + w;
    PathWord(path);
    CleanIsSolid(p);
    CleanIsSolid(w);
    SolidAround(p, " == ", w);
    TrimSolid(s);
    assert s[0] == '$' && s[1] == '.';
    EqualityHasNoConnective(p, w, AND);
    EqualityHasNoConnective(p, w, OR);
    EqualityLeaf(path, w, lib);
  }

  lemma FirstOfPrefix(w: string, at: nat, needle: string)
    requires at < |w| && needle != "" && StartsWith(w[at..], needle)
    ensures w[at] == needle[0]
  {
    assert w[at..][0] == needle[0];
  }

  lemma WordHasNo(w: string, needle: string)
    requires CleanText(w) && needle != "" && !Clean(needle[0])
    ensures FindBalanced(w, needle).None?
  {
    hide Find;
    assert forall i | 0 <= i < |w| :: w[i] in w;
    var found := FindBalanced(w, needle);
    if found.Some? {
      FindIsFirst(w, needle, 0, found.value);
      FirstOfPrefix(w, found.value, needle);
    }
  }

  lemma {:induction false} NoOperator(s: string, ops: seq<Op>, lib: Numerals)
    requires CleanText(s)
    ensures ParseLeaf(s, ops, lib) == if ByteLength(s) > 40 && !CharBoundary(s, 40) then Panicked else Rejected(Unparseable)
  {
    hide FindBalanced;
    hide ByteLength;
    hide CharBoundary;
    if ops != [] {
      WordHasNo(s, OpText(ops[0]));
      NoOperator(s, ops[1..], lib);
    }
  }

  /** A single word other than `*` and `$` is never parsed, and cutting it for the message panics
      if and only if byte 40 is inside one of its characters. */
  lemma WordPanicsIff(w: string, lib: Numerals)
    requires CleanText(w) && w != "" && w != "*" && w != "$"
    ensures !Parse(w, lib).Parsed?
    ensures Parse(w, lib) == Panicked <==> ByteLength(w) > 40 && !CharBoundary(w, 40)
  {
    hide FindBalanced;
    hide Trim;
    hide ParseLeaf;
    hide ByteLength;
    hide CharBoundary;
    CleanIsSolid(w);
    TrimSolid(w);
    assert '(' !in w;
    assert SEARCH[|SEARCH| - 1] == '(';
    WordHasNo(w, AND);
    WordHasNo(w, OR);
    NoOperator(w, OPS, lib);
  }
}
