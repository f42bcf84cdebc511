/** Go's `strings.Split` for a one-character separator, and its inverse `strings.Join`. */
module GoStrings {

  predicate Free(s: string, sep: char) { forall i :: 0 <= i < |s| ==> s[i] != sep }

  function Occurrences(s: string, c: char): nat
  {
    if |s| == 0 then 0 else (if s[0] == c then 1 else 0) + Occurrences(s[1..], c)
  }

  /**
    * `strings.Split(s, sep)`: the pieces between separators, in order. There is always
    * at least one piece; the empty string splits into one empty piece.
    */
  function Split(s: string, sep: char): (parts: seq<string>)
    ensures |parts| == Occurrences(s, sep) + 1
    ensures forall i :: 0 <= i < |parts| ==> Free(parts[i], sep)
  {
    if |s| == 0 then [""]
    else
      var rest := Split(s[1..], sep);
      if s[0] == sep then [""] + rest
      else [[s[0]] + rest[0]] + rest[1..]
  }

  /** `strings.Join(parts, sep)`. */
  function Join(parts: seq<string>, sep: char): string
    requires |parts| > 0
  {
    if |parts| == 1 then parts[0] else parts[0] + [sep] + Join(parts[1..], sep)
  }

  /** Joining the pieces with the separator gives back the original string. */
  lemma {:induction false} JoinSplit(s: string, sep: char)
    ensures Join(Split(s, sep), sep) == s
  {
    if |s| > 0 {
      var rest := Split(s[1..], sep);
      JoinSplit(s[1..], sep);
      if s[0] != sep {
        var parts := Split(s, sep);
        if |rest| == 1 {
          assert parts == [[s[0]] + rest[0]];
        } else {
          assert parts[1..] == rest[1..];
          assert Join(rest, sep) == rest[0] + [sep] + Join(rest[1..], sep);
        }
      }
    }
  }

  /** A string without separators is one piece. */
  lemma {:induction false} SplitFree(x: string, sep: char)
    requires Free(x, sep)
    ensures Split(x, sep) == [x]
  {
    if |x| > 0 {
      SplitFree(x[1..], sep);
      assert [x[0]] + x[1..] == x;
    }
  }

  /** A separator-free prefix followed by a separator becomes the first piece. */
  lemma {:induction false} SplitPrefix(x: string, sep: char, y: string)
    requires Free(x, sep)
    ensures Split(x + [sep] + y, sep) == [x] + Split(y, sep)
  {
    if |x| == 0 {
      assert x + [sep] + y == [sep] + y;
      assert ([sep] + y)[1..] == y;
    } else {
      var s := x + [sep] + y;
      assert s[1..] == x[1..] + [sep] + y;
      SplitPrefix(x[1..], sep, y);
      assert [x[0]] + x[1..] == x;
    }
  }

  /** Two separator-free strings joined by one separator split back into exactly those two. */
  lemma SplitPair(x: string, sep: char, y: string)
    requires Free(x, sep) && Free(y, sep)
    ensures Split(x + [sep] + y, sep) == [x, y]
  {
    SplitPrefix(x, sep, y);
    SplitFree(y, sep);
  }

  /** A string that starts with the separator has an empty first piece. */
  lemma SplitLeadingSeparator(s: string, sep: char)
    requires |s| > 0 && s[0] == sep
    ensures Split(s, sep)[0] == ""
  {
  }
}
