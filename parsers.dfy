/**
  * The two parsing helpers of the movie handlers: `convertStringsToInts`, which parses
  * every string of a repeated query parameter, and `parseDecade`, which expands a
  * `"yyyy-yyyy"` range into its years.
  */
module Parsers {
  import opened Wrappers
  import opened Strconv
  import opened GoStrings

  /** All strings parsed with Atoi, position by position; None as soon as one of them does not parse. */
  function ParseAll(strs: seq<string>): (r: Option<seq<int>>)
    ensures r.Some? ==> |r.value| == |strs|
  {
    if |strs| == 0 then Some([])
    else
      match ParseAll(strs[..|strs| - 1])
      case None => None
      case Some(init) =>
        match Atoi(strs[|strs| - 1])
        case None => None
        case Some(n) => Some(init + [n])
  }

  /**
    * ParseAll succeeds exactly when every string parses, and then holds each string's
    * value at that string's position; one bad string leaves no partial result.
    */
  lemma {:induction false} ParseAllSpec(strs: seq<string>)
    ensures ParseAll(strs).Some? <==> forall i :: 0 <= i < |strs| ==> Atoi(strs[i]).Some?
    ensures ParseAll(strs).Some? ==>
      forall i :: 0 <= i < |strs| ==> Atoi(strs[i]) == Some(ParseAll(strs).value[i])
  {
    if |strs| > 0 {
      var init := strs[..|strs| - 1];
      ParseAllSpec(init);
      assert forall i :: 0 <= i < |init| ==> init[i] == strs[i];
    }
  }

  /** `convertStringsToInts`: fills a slice of the input's length, stopping at the first failure. */
  method ConvertStringsToInts(strs: seq<string>) returns (r: Option<seq<int>>)
    ensures r == ParseAll(strs)
  {
    var ints := new int[|strs|];
    var i := 0;
    while i < |strs|
      invariant 0 <= i <= |strs|
      invariant ParseAll(strs[..i]) == Some(ints[..i])
    {
      var n := Atoi(strs[i]);
      if n.None? {
        ParseAllSpec(strs);
        return None;
      }
      ints[i] := n.value;
      assert strs[..i + 1][..i] == strs[..i];
      assert ints[..i + 1] == ints[..i] + [n.value];
      i := i + 1;
    }
    assert strs[..i] == strs;
    assert ints[..i] == ints[..];
    return Some(ints[..]);
  }

  /** The inclusive run of consecutive years from `a` to `b`; empty when `a > b`. */
  function YearRange(a: int, b: int): (r: seq<int>)
    ensures |r| == if a <= b then b - a + 1 else 0
    ensures forall i :: 0 <= i < |r| ==> r[i] == a + i
    decreases b - a
  {
    if a > b then [] else YearRange(a, b - 1) + [b]
  }

  /** The years of a range are exactly those between its bounds. */
  lemma YearRangeMembers(a: int, b: int, y: int)
    ensures y in YearRange(a, b) <==> a <= y <= b
  {
    if a <= y <= b {
      assert YearRange(a, b)[y - a] == y;
    }
  }

  /**
    * The two bounds of a decade string: it must split on `-` into exactly two pieces,
    * both must parse, and the first must not exceed the second.
    */
  function DecadeBounds(decade: string): Option<(int, int)>
  {
    var parts := Split(decade, '-');
    if |parts| != 2 then None
    else
      match (Atoi(parts[0]), Atoi(parts[1]))
      case (Some(a), Some(b)) => if a <= b then Some((a, b)) else None
      case _ => None
  }

  /** `parseDecade` as a value: the years of the range, or None for a malformed range. */
  function DecadeYears(decade: string): (r: Option<seq<int>>)
    ensures r.Some? <==> DecadeBounds(decade).Some?
  {
    match DecadeBounds(decade)
    case None => None
    case Some((a, b)) => Some(YearRange(a, b))
  }

  /** `parseDecade`: split, parse both bounds, then append the years one by one. */
  method ParseDecade(decade: string) returns (r: Option<seq<int>>)
    ensures r == DecadeYears(decade)
  {
    var parts := Split(decade, '-');
    if |parts| != 2 {
      return None;
    }
    var start := Atoi(parts[0]);
    var end := Atoi(parts[1]);
    if start.None? || end.None? || start.value > end.value {
      return None;
    }
    var years: seq<int> := [];
    var y := start.value;
    while y <= end.value
      invariant start.value <= y <= end.value + 1
      invariant years == YearRange(start.value, y - 1)
    {
      years := years + [y];
      y := y + 1;
    }
    return Some(years);
  }

  /**
    * A successful expansion is the ascending, gap-free list from the first bound to the
    * second, both included.
    */
  lemma DecadeYearsShape(decade: string)
    requires DecadeYears(decade).Some?
    ensures var (a, b) := DecadeBounds(decade).value;
      var ys := DecadeYears(decade).value;
      a <= b && |ys| == b - a + 1 && ys[0] == a && ys[|ys| - 1] == b &&
      (forall i :: 0 <= i < |ys| - 1 ==> ys[i + 1] == ys[i] + 1) &&
      (forall y :: y in ys <==> a <= y <= b)
  {
    var (a, b) := DecadeBounds(decade).value;
    forall y ensures y in YearRange(a, b) <==> a <= y <= b {
      YearRangeMembers(a, b, y);
    }
  }

  /** A well-formed range of non-negative years is read back as exactly its two bounds. */
  lemma DecadeBoundsOfFormatted(a: int, b: int)
    requires 0 <= a && 0 <= b && InInt64(a) && InInt64(b)
    ensures DecadeBounds(Itoa(a) + "-" + Itoa(b)) == if a <= b then Some((a, b)) else None
  {
    ItoaNoInnerMinus(a);
    ItoaNoInnerMinus(b);
    SplitPair(Itoa(a), '-', Itoa(b));
    AtoiItoa(a);
    AtoiItoa(b);
  }

  /**
    * A leading minus sign is never a negative start year: the first piece is empty and
    * fails to parse, or there are more than two pieces.
    */
  lemma DecadeLeadingMinus(decade: string)
    requires |decade| > 0 && decade[0] == '-'
    ensures DecadeYears(decade) == None
  {
    SplitLeadingSeparator(decade, '-');
    AtoiRejectsEmpty();
  }

  /** The worked example of a five-year range. */
  lemma DecadeExampleRange()
    ensures DecadeYears("1990-1994") == Some([1990, 1991, 1992, 1993, 1994])
  {
    ExampleDecadeText();
    DecadeBoundsOfFormatted(1990, 1994);
    ExampleDecadeYears();
  }

  lemma ExampleDecadeText()
    ensures Itoa(1990) + "-" + Itoa(1994) == "1990-1994"
  {
    assert Itoa(1990) == "1990";
    assert Itoa(1994) == "1994";
  }

  lemma ExampleDecadeYears()
    ensures YearRange(1990, 1994) == [1990, 1991, 1992, 1993, 1994]
  {
    var ys := YearRange(1990, 1994);
    assert |ys| == 5 && ys[0] == 1990 && ys[1] == 1991 && ys[2] == 1992 && ys[3] == 1993 && ys[4] == 1994;
  }

  /** The worked example of a reversed range. */
  lemma DecadeExampleReversed()
    ensures DecadeYears("1994-1990") == None
  {
    assert Itoa(1994) + "-" + Itoa(1990) == "1994-1990";
    DecadeBoundsOfFormatted(1994, 1990);
  }

  /** The worked example of a non-numeric year. */
  lemma DecadeExampleNotNumeric()
    ensures DecadeYears("199x-2000") == None
  {
    SplitPair("199x", '-', "2000");
    assert "199x" + "-" + "2000" == "199x-2000";
    AtoiRejectsLetter();
  }

  lemma AtoiRejectsLetter()
    ensures Atoi("199x").None?
  {
    assert !IsDigit("199x"[3]);
  }

  // The source's loop runs on 64-bit integers: after MaxInt64, `y++` wraps to MinInt64.

  /** Two's-complement wrap-around of an integer into the signed 64-bit range. */
  function Wrap64(n: int): (r: int)
    ensures InInt64(r)
    ensures InInt64(n) ==> r == n
    ensures (r - n) % 0x1_0000_0000_0000_0000 == 0
  {
    (n - MinInt64) % 0x1_0000_0000_0000_0000 + MinInt64
  }

  /**
    * The years `parseDecade`'s loop appends, as written with 64-bit `y`, in at most
    * `fuel` iterations starting at `y`.
    */
  function YearsAsWritten(y: int, end: int, fuel: nat): seq<int>
    decreases fuel
  {
    if fuel == 0 || y > end then [] else [y] + YearsAsWritten(Wrap64(y + 1), end, fuel - 1)
  }

  /** With the end year at MaxInt64 the loop's guard holds forever: every iteration appends. */
  lemma {:induction false} DecadeLoopAtMaxNeverEnds(y: int, fuel: nat)
    requires InInt64(y)
    ensures |YearsAsWritten(y, MaxInt64, fuel)| == fuel
    decreases fuel
  {
    if fuel > 0 {
      DecadeLoopAtMaxNeverEnds(Wrap64(y + 1), fuel - 1);
    }
  }

  /** Concretely: the range "MaxInt64-MaxInt64" yields MaxInt64 and then MinInt64. */
  lemma DecadeLoopWrapsAtMax()
    ensures YearsAsWritten(MaxInt64, MaxInt64, 2) == [MaxInt64, MinInt64]
    ensures YearRange(MaxInt64, MaxInt64) == [MaxInt64]
  {
  }

  lemma {:induction false} YearRangeCons(a: int, b: int)
    requires a <= b
    ensures YearRange(a, b) == [a] + YearRange(a + 1, b)
    decreases b - a
  {
    if a < b {
      YearRangeCons(a, b - 1);
    }
  }

  /** Below MaxInt64 the as-written loop produces exactly the intended range. */
  lemma {:induction false} YearsAsWrittenBelowMax(a: int, b: int, fuel: nat)
    requires InInt64(a) && InInt64(b) && b < MaxInt64 && fuel > b - a
    ensures YearsAsWritten(a, b, fuel) == YearRange(a, b)
    decreases b - a
  {
    if a <= b {
      YearRangeCons(a, b);
      YearsAsWrittenBelowMax(a + 1, b, fuel - 1);
    }
  }
}
