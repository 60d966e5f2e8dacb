/** What the right side of an equality means. */
module QueryOperands {
  import opened Options
  import opened Json
  import opened Queries
  import opened QueryParser
  import opened QueryRoundTrip
  import opened QueryPanics

  /** Between two quotes of one kind stands a string, whatever it is, which may be a number or a
      word with a meaning; the quotes are not part of it. */
  lemma QuotedOperand(s: string, quote: char, lib: Numerals)
    requires IsQuote(quote)
    ensures ParseValue([quote] + s + [quote], lib) == Some(Str(s))
  {
    var w := [quote] + s + [quote];
    TrimSolid(w);
    assert w[1..|w| - 1] == s;
  }

  /** An unquoted word is the integer it reads as, or else the finite float, or else true, false or
      null, or else a string. */
  lemma WordOperand(w: string, lib: Numerals)
    requires Solid(w) && !Quoted(w, '"') && !Quoted(w, '\'')
    ensures var v := ParseValue(w, lib);
      && (forall i :: lib.parseInt(w) == Some(i) ==> v == Some(Num(Int(i))))
      && (forall rank :: lib.parseInt(w).None? && lib.parseFloat(w) == Some(Finite(rank)) ==> v == Some(Num(Real(Finite(rank)))))
      && (NotANumeral(w, lib) ==>
            && (w == "true" ==> v == Some(Bool(true))) && (w == "false" ==> v == Some(Bool(false)))
            && (w == "null" ==> v == Some(Null))
            && (w != "true" && w != "false" && w != "null" ==> v == Some(Str(w))))
  {
    TrimSolid(w);
  }

  /** An equality with an operand in quotes of either kind compares with the string between them. */
  lemma QuotedEquality(path: seq<string>, s: string, quote: char, lib: Numerals)
    requires CanonicalPath(path) && CleanText(s) && IsQuote(quote)
    ensures Parse(PrintPath(path) + " == " + ([quote] + s + [quote]), lib) == Parsed(Eq(path, Str(s)))
  {
    var w := [quote] + s + [quote];
    assert CleanText(w);
    hide CleanText;
    hide FindBalanced;
    hide Trim;
    hide ParseLeaf;
    hide ParseComparison;
    var p := PrintPath(path);
    var text := p + " == " + w;
    PathWord(path);
    CleanIsSolid(p);
    CleanIsSolid(w);
    SolidAround(p, " == ", w);
    TrimSolid(text);
    assert text[0] == '$' && text[1] == '.';
    EqualityHasNoConnective(p, w, AND);
    EqualityHasNoConnective(p, w, OR);
    EqualityCompares(path, w, lib);
    QuotedOperand(s, quote, lib);
  }
}
