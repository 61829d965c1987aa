/** The two Python 2 `str` operations the data files are cut up with:
    `s.split(sep)` for a one-character separator, and
    `s.translate(None, deletechars)`, which deletes every character of a set. */
module Text {

  /** Number of occurrences of `c` in `s`. */
  function Count(s: string, c: char): nat
  {
    if |s| == 0 then 0 else (if s[0] == c then 1 else 0) + Count(s[1..], c)
  }

  /** `sep.join(parts)`. */
  function Join(parts: seq<string>, sep: char): string
  {
    if |parts| == 0 then ""
    else if |parts| == 1 then parts[0]
    else parts[0] + [sep] + Join(parts[1..], sep)
  }

  /** `s.split(sep)`: the separator-free pieces between separators, in order.
      There is always one piece more than there are separators, so the empty
      string splits into one empty piece and adjacent separators give an
      empty piece between them. */
  function Split(s: string, sep: char): (parts: seq<string>)
    ensures |parts| == Count(s, sep) + 1
    ensures forall i :: 0 <= i < |parts| ==> sep !in parts[i]
    ensures Join(parts, sep) == s
  {
    if |s| == 0 then [""]
    else
      var rest := Split(s[1..], sep);
      if s[0] == sep then
        [""] + rest
      else
        var parts := [[s[0]] + rest[0]] + rest[1..];
        assert Join(parts, sep) == s by {
          if |rest| > 1 {
            assert rest == [rest[0]] + rest[1..];
            assert parts[1..] == rest[1..];
          }
          assert [s[0]] + s[1..] == s;
        }
        parts
  }

  /** A piece boundary in the input is a piece boundary in the output. */
  lemma {:induction false} SplitAround(a: string, b: string, sep: char)
    ensures Split(a + [sep] + b, sep) == Split(a, sep) + Split(b, sep)
    decreases |a|
  {
    if |a| == 0 {
      assert a + [sep] + b == [sep] + b;
      assert ([sep] + b)[1..] == b;
    } else {
      assert (a + [sep] + b)[1..] == a[1..] + [sep] + b;
      SplitAround(a[1..], b, sep);
    }
  }

  /** A separator-free string is a single piece. */
  lemma {:induction false} SplitNoSeparator(a: string, sep: char)
    requires sep !in a
    ensures Split(a, sep) == [a]
    decreases |a|
  {
    if |a| > 0 {
      assert sep !in a[1..];
      SplitNoSeparator(a[1..], sep);
      assert [a[0]] + a[1..] == a;
    }
  }

  /** Splitting undoes joining, as long as no piece holds the separator. */
  lemma {:induction false} SplitJoin(parts: seq<string>, sep: char)
    requires |parts| >= 1
    requires forall i :: 0 <= i < |parts| ==> sep !in parts[i]
    ensures Split(Join(parts, sep), sep) == parts
    decreases |parts|
  {
    SplitNoSeparator(parts[0], sep);
    if |parts| > 1 {
      SplitJoin(parts[1..], sep);
      SplitAround(parts[0], Join(parts[1..], sep), sep);
      assert [parts[0]] + parts[1..] == parts;
    }
  }

  /** `s.translate(None, deleted)`: `s` with every character of `deleted`
      removed and the others kept in order. */
  function DeleteChars(s: string, deleted: set<char>): (r: string)
    ensures |r| <= |s|
    ensures forall i :: 0 <= i < |r| ==> r[i] !in deleted
  {
    if |s| == 0 then ""
    else (if s[0] in deleted then "" else [s[0]]) + DeleteChars(s[1..], deleted)
  }

  /** Deleting distributes over concatenation: no character is moved. */
  lemma {:induction false} DeleteCharsAppend(a: string, b: string, deleted: set<char>)
    ensures DeleteChars(a + b, deleted) == DeleteChars(a, deleted) + DeleteChars(b, deleted)
    decreases |a|
  {
    if |a| > 0 {
      assert (a + b)[1..] == a[1..] + b;
      DeleteCharsAppend(a[1..], b, deleted);
    } else {
      assert a + b == b;
    }
  }

  /** Every kept character keeps its number of occurrences; every deleted
      one has none left. */
  lemma {:induction false} DeleteCharsCounts(s: string, deleted: set<char>)
    ensures forall c :: c !in deleted ==> multiset(DeleteChars(s, deleted))[c] == multiset(s)[c]
    ensures forall c :: c in deleted ==> multiset(DeleteChars(s, deleted))[c] == 0
    decreases |s|
  {
    if |s| > 0 {
      DeleteCharsCounts(s[1..], deleted);
      assert s == [s[0]] + s[1..];
    }
  }

  /** A string with nothing to delete is returned as it is; in particular
      deleting twice is deleting once. */
  lemma {:induction false} DeleteCharsNothing(s: string, deleted: set<char>)
    requires forall i :: 0 <= i < |s| ==> s[i] !in deleted
    ensures DeleteChars(s, deleted) == s
    decreases |s|
  {
    if |s| > 0 {
      DeleteCharsNothing(s[1..], deleted);
      assert [s[0]] + s[1..] == s;
    }
  }

  /** A string made only of deleted characters vanishes. */
  lemma {:induction false} DeleteCharsAll(s: string, deleted: set<char>)
    requires forall i :: 0 <= i < |s| ==> s[i] in deleted
    ensures DeleteChars(s, deleted) == ""
    decreases |s|
  {
    if |s| > 0 {
      DeleteCharsAll(s[1..], deleted);
    }
  }
}
