/** What the filter of an equality query means, by its characters. */
module CassetteFilters {
  import opened Options
  import opened Json
  import opened Collections
  import opened CollectionQueries
  import opened CassetteDb
  import opened QueryParser
  import opened QueryRoundTrip

  /** No space at either end. */
  predicate Bare(s: string) {
    s == "" || Solid(s)
  }

  /** Neither is there a double quote, nor an `=` anywhere. */
  predicate FilterValue(s: string) {
    Bare(s) && '=' !in s && (s == "" || (s[0] != '"' && s[|s| - 1] != '"'))
  }

  /** The three ways to write a filter. */
  datatype Style = Tight | Spaced | Quoted

  function Filter(key: string, value: string, style: Style): string {
    match style
    case Tight => key + "=" + value
    case Spaced => key + " = " + value
    case Quoted => key + "=\"" + value + "\""
  }

  lemma TrimBare(s: string)
    requires Bare(s)
    ensures Trim(s) == Trim(s + " ") == Trim(" " + s) == s
  {
    if s == "" {
      assert " "[1..] == "" && ""+ " " == " " && " " + "" == " ";
      assert DropFront(" ", IsSpace) == DropFront("", IsSpace) == "";
    } else {
      TrimSolid(s);
    }
  }

  lemma SplitInTwo(left: string, right: string)
    requires '=' !in left && '=' !in right
    ensures Split(left + "=" + right, '=') == [left, right]
  {
    SplitPiece(right, '=');
    SplitAfterPiece(left, right, '=');
  }

  lemma QuotesAround(value: string)
    requires FilterValue(value) && value != ""
    ensures TrimMatches("\"" + value + "\"", IsDoubleQuote) == value
  {
    var closed := value + "\"";
    assert ("\"" + value + "\"")[1..] == closed && closed[0] == value[0] && closed[..|value|] == value;
    assert DropFront("\"" + value + "\"", IsDoubleQuote) == DropFront(closed, IsDoubleQuote) == closed;
    assert DropBack(closed, IsDoubleQuote) == DropBack(value, IsDoubleQuote) == value;
  }

  lemma QuotesOnly()
    ensures TrimMatches("\"\"", IsDoubleQuote) == ""
  {
    assert "\"\""[1..] == "\"" && "\""[1..] == "";
    assert DropFront("\"\"", IsDoubleQuote) == DropFront("\"", IsDoubleQuote) == DropFront("", IsDoubleQuote) == "";
  }

  lemma QuotesDropped(value: string)
    requires FilterValue(value)
    ensures Trim("\"" + value + "\"") == "\"" + value + "\""
    ensures TrimMatches("\"" + value + "\"", IsDoubleQuote) == value == TrimMatches(value, IsDoubleQuote)
  {
    TrimSolid("\"" + value + "\"");
    if value == "" {
      QuotesOnly();
      assert "\"" + value + "\"" == "\"\"";
    } else {
      QuotesAround(value);
    }
  }

  /** However it is written, a filter is read as its key and its value. */
  lemma FilterReadBack(key: string, value: string, style: Style)
    requires Bare(key) && '=' !in key && FilterValue(value)
    ensures FilterParts(Filter(key, value, style)) == Some((key, value))
  {
    hide Split;
    hide Trim;
    hide TrimMatches;
    TrimBare(key);
    TrimBare(value);
    QuotesDropped(value);
    match style {
      case Tight => SplitInTwo(key, value);
      case Spaced =>
        assert key + " = " + value == (key + " ") + "=" + (" " + value);
        SplitInTwo(key + " ", " " + value);
      case Quoted =>
        assert key + "=\"" + value + "\"" == key + "=" + ("\"" + value + "\"");
        SplitInTwo(key, "\"" + value + "\"");
    }
  }

  lemma {:induction false} SplitCounts(s: string, c: char)
    ensures |Split(s, c)| == 1 + multiset(s)[c]
  {
    if s != "" {
      SplitCounts(s[1..], c);
      assert s == [s[0]] + s[1..];
    }
  }

  /** Without an index on its key, a filter is answered with the live documents that have the value
      as a string there; with one, with those that have it as their index key; in document order. */
  lemma FilterAnswer(documents: seq<Doc>, indexed: set<string>, key: string, value: string, style: Style, lib: Texts)
    requires Bare(key) && '=' !in key && FilterValue(value)
    ensures QueryAnswer(documents, indexed, Filter(key, value, style), lib)
         == if key in indexed then Selected(documents, (d: Doc) => KeyOf(d.data, key, lib) == Some(value))
            else Selected(documents, (d: Doc) => Get(d.data, key) == Some(Str(value)))
  {
    hide Filter;
    hide FilterParts;
    hide Selected;
    FilterReadBack(key, value, style);
  }

  /** A filter without an `=`, or with more than one, is answered with all live documents. */
  lemma OtherFilters(documents: seq<Doc>, indexed: set<string>, filter: string, lib: Texts)
    requires multiset(filter)['='] != 1
    ensures QueryAnswer(documents, indexed, filter, lib) == Selected(documents, (d: Doc) => true)
  {
    hide Split;
    SplitCounts(filter, '=');
    AllLive(documents);
  }

  lemma {:induction false} AllLive(documents: seq<Doc>)
    ensures Live(documents) == Selected(documents, (d: Doc) => true)
  {
    if documents != [] {
      AllLive(documents[1..]);
    }
  }

  // ---------- Index keys ----------

  /** A document's index key for a field is the string it has there, or the text of another value;
      without the field it has none. */
  lemma KeyIs(data: Value, field: string, lib: Texts, key: string)
    ensures KeyOf(data, field, lib) == Some(key)
       <==> || Get(data, field) == Some(Str(key))
            || (Get(data, field).Some? && !Get(data, field).value.Str? && lib.render(Get(data, field).value) == key)
  {
  }

  // ---------- Spaces ----------

  /** Of the characters of one byte, the six that are spaces. */
  lemma AsciiSpaces(c: char)
    requires c as int < 128
    ensures IsSpace(c) <==> c in ['\t', '\n', '\U{0B}', '\U{0C}', '\r', ' ']
  {
  }
}
