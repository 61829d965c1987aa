/** `read_datafile`: a scraped chart series such as
    `[[new Date("2010/07/26"),181.543],[new Date("2010/07/27"),null]]`
    is cut at every comma, and the tokens are taken two at a time: the even
    one is the date, the odd one the value. Each pair becomes one
    `date:value` entry. Reading the file is left to the caller: the model
    starts from the file's text. */
module DataFile {
  import opened Text

  /** Characters deleted from a date token: those of the string `[new Date("")`. */
  const DateWrapper: set<char> := {'[', 'n', 'e', 'w', ' ', 'D', 'a', 't', '(', '"', ')'}

  /** Characters deleted from a value token. */
  const ValueWrapper: set<char> := {']'}

  /** The entry made of one date token and the value token after it. */
  function Entry(dateToken: string, valueToken: string): string
  {
    DeleteChars(dateToken, DateWrapper) + ":" + DeleteChars(valueToken, ValueWrapper)
  }

  /** Reference pairing: consecutive (even, odd) tokens, first pair first. */
  function Pairs(tokens: seq<string>): seq<string>
    decreases |tokens|
  {
    if |tokens| < 2 then [] else [Entry(tokens[0], tokens[1])] + Pairs(tokens[2..])
  }

  /** One entry per complete pair, entry i built from tokens 2i and 2i+1. */
  lemma {:induction false} PairsShape(tokens: seq<string>)
    ensures |Pairs(tokens)| == |tokens| / 2
    ensures forall i :: 0 <= i < |tokens| / 2 ==>
      Pairs(tokens)[i] == Entry(tokens[2 * i], tokens[2 * i + 1])
    decreases |tokens|
  {
    if |tokens| >= 2 {
      var rest := tokens[2..];
      PairsShape(rest);
      forall i | 1 <= i < |tokens| / 2
        ensures Pairs(tokens)[i] == Entry(tokens[2 * i], tokens[2 * i + 1])
      {
        assert Pairs(tokens)[i] == Pairs(rest)[i - 1];
        assert rest[2 * (i - 1)] == tokens[2 * i];
        assert rest[2 * (i - 1) + 1] == tokens[2 * i + 1];
      }
    }
  }

  /** A token left without a partner at the end is dropped without a trace. */
  lemma {:induction false} UnpairedTokenDropped(tokens: seq<string>, last: string)
    requires |tokens| % 2 == 0
    ensures Pairs(tokens + [last]) == Pairs(tokens)
    decreases |tokens|
  {
    if |tokens| >= 2 {
      assert (tokens + [last])[2..] == tokens[2..] + [last];
      UnpairedTokenDropped(tokens[2..], last);
    } else {
      assert |tokens| == 0;
    }
  }

  /** `read_datafile` applied to the text of a data file. */
  method ReadDatafile(text: string) returns (result: seq<string>)
    ensures |result| == |Split(text, ',')| / 2
    ensures forall i :: 0 <= i < |result| ==>
      result[i] == Entry(Split(text, ',')[2 * i], Split(text, ',')[2 * i + 1])
    ensures result == Pairs(Split(text, ','))
  {
    var tokens := Split(text, ',');
    result := [];
    var index := 0;
    var key := "";
    while index < |tokens|
      invariant 0 <= index <= |tokens|
      invariant |result| == index / 2
      invariant forall i :: 0 <= i < |result| ==> result[i] == Entry(tokens[2 * i], tokens[2 * i + 1])
      invariant index % 2 == 1 ==> key == DeleteChars(tokens[index - 1], DateWrapper)
    {
      var data := tokens[index];
      if index % 2 == 0 {
        key := DeleteChars(data, DateWrapper);
      } else {
        var value := DeleteChars(data, ValueWrapper);
        result := result + [key + ":" + value];
      }
      index := index + 1;
    }
    PairsShape(tokens);
  }

  /** A `null` value, with or without the closing bracket of the series or of
      the pair, reaches the entry unchanged. */
  lemma NullPassesThrough(dateToken: string)
    ensures Entry(dateToken, "null") == DeleteChars(dateToken, DateWrapper) + ":null"
    ensures Entry(dateToken, "null]") == DeleteChars(dateToken, DateWrapper) + ":null"
    ensures Entry(dateToken, "null]]") == DeleteChars(dateToken, DateWrapper) + ":null"
  {
    assert DeleteChars("null", ValueWrapper) == "null";
    assert DeleteChars("]", ValueWrapper) == "";
    DeleteCharsAppend("null", "]", ValueWrapper);
    DeleteCharsAppend("null]", "]", ValueWrapper);
    assert "null]" == "null" + "]";
    assert "null]]" == "null]" + "]";
  }

  /** A date token `[new Date("D")`, or `[[new Date("D")` at the start of
      the series, leaves exactly the date text D, provided D has none of the
      wrapper's characters (a `YYYY/MM/DD` date has none). */
  lemma {:induction false} DateTokenUnwrapped(date: string)
    requires forall i :: 0 <= i < |date| ==> date[i] !in DateWrapper
    ensures DeleteChars("[new Date(\"" + date + "\")", DateWrapper) == date
    ensures DeleteChars("[[new Date(\"" + date + "\")", DateWrapper) == date
  {
    var p1, p2, q := "[new Date(\"", "[[new Date(\"", "\")";
    assert DeleteChars(p1, DateWrapper) == "";
    assert DeleteChars(p2, DateWrapper) == "";
    assert DeleteChars(q, DateWrapper) == "";
    DeleteCharsNothing(date, DateWrapper);
    DeleteCharsAppend(p1 + date, q, DateWrapper);
    DeleteCharsAppend(p1, date, DateWrapper);
    DeleteCharsAppend(p2 + date, q, DateWrapper);
    DeleteCharsAppend(p2, date, DateWrapper);
  }

  /** A value token `V]` of a pair, or `V]]` at the end of the series, leaves
      exactly V, provided V holds no `]`. */
  lemma {:induction false} ValueTokenUnwrapped(value: string)
    requires ']' !in value
    ensures DeleteChars(value + "]", ValueWrapper) == value
    ensures DeleteChars(value + "]]", ValueWrapper) == value
  {
    DeleteCharsNothing(value, ValueWrapper);
    DeleteCharsAppend(value, "]", ValueWrapper);
    DeleteCharsAppend(value, "]]", ValueWrapper);
  }

  /** The first pair of a scraped series: `[[new Date("2010/07/26")` and
      `181.543]` make `2010/07/26:181.543`. */
  lemma FirstPairExample()
    ensures Entry("[[new Date(\"" + "2010/07/26" + "\")", "181.543" + "]") == "2010/07/26:181.543"
  {
    DateTokenUnwrapped("2010/07/26");
    ValueTokenUnwrapped("181.543");
  }
}
