/** String helpers (String.cpp): the rightmost delimited segments of a
  * string, and the text forms of booleans and integers. */
module Strings {
  import opened Wrappers

  // ---------------------------------------------------------------------
  // String views.

  /** FStringView::FindLastChar: the index of the last occurrence of c. */
  function LastIndexOf(s: string, c: char): (r: Option<nat>)
    ensures r.None? ==> Count(s, c) == 0
    ensures r.Some? ==> r.value < |s| && s[r.value] == c && Count(s[r.value + 1..], c) == 0
  {
    if |s| == 0 then None
    else if s[|s| - 1] == c then
      assert s[|s|..] == [];
      Some(|s| - 1)
    else
      var r := LastIndexOf(s[..|s| - 1], c);
      CountSplit(s[..|s| - 1], [s[|s| - 1]], c);
      assert s[..|s| - 1] + [s[|s| - 1]] == s;
      if r.Some? then
        CountSplit(s[..|s| - 1][r.value + 1..], [s[|s| - 1]], c);
        assert s[..|s| - 1][r.value + 1..] + [s[|s| - 1]] == s[r.value + 1..];
        r
      else r
  }

  /** FStringView::RightChop: all but the first n characters, or nothing. */
  function RightChop(s: string, n: nat): (r: string)
    ensures |s| >= n ==> r == s[n..]
    ensures |s| < n ==> r == []
  {
    if n <= |s| then s[n..] else []
  }

  /** The number of occurrences of c in s. */
  function Count(s: string, c: char): nat
  {
    if |s| == 0 then 0 else (if s[0] == c then 1 else 0) + Count(s[1..], c)
  }

  predicate IsSuffix(r: string, s: string)
  {
    |r| <= |s| && s[|s| - |r|..] == r
  }

  // ---------------------------------------------------------------------
  // GetRightmostSegments (String.cpp:9-30).

  /** The view left after `elems` turns of the loop of String.cpp:15-26,
    * each cutting the view before its last delimiter; None when a turn finds
    * no delimiter, which resets the view and leaves the loop. */
  function Cut(view: string, c: char, elems: int): Option<string>
    decreases if elems > 0 then elems else 0
  {
    if elems <= 0 then Some(view)
    else match LastIndexOf(view, c)
      case None => None
      case Some(i) => Cut(view[..i], c, elems - 1)
  }

  /** The result of GetRightmostSegments as written (String.cpp:29): when the
    * loop ends on an empty view, for either reason, the whole string. */
  function RightmostSegmentsAsWritten(s: string, c: char, elems: int): string
  {
    match Cut(s, c, elems)
      case None => s
      case Some(view) => if |view| == 0 then s else RightChop(s, |view| + 1)
  }

  /** GetRightmostSegments as intended: the whole string only when the
    * loop ran out of delimiters, and otherwise what follows the view and
    * the delimiter after it, even when the view is empty. */
  function RightmostSegments(s: string, c: char, elems: int): string
  {
    match Cut(s, c, elems)
      case None => s
      case Some(view) => RightChop(s, |view| + 1)
  }

  /** GetRightmostSegments (String.cpp:9-30), the loop as written. */
  method GetRightmostSegmentsAsWritten(s: string, c: char, elems: int) returns (r: string)
    ensures r == RightmostSegmentsAsWritten(s, c, elems)
  {
    var view := s;
    var elem := elems;
    while elem > 0
      invariant Cut(s, c, elems) == Cut(view, c, elem)
      decreases elem
    {
      var found := LastIndexOf(view, c);
      if found.None? {
        view := [];
        break;
      }
      view := view[..found.value];
      elem := elem - 1;
    }
    r := if |view| == 0 then s else RightChop(s, |view| + 1);
  }

  /** GetRightmostSegments, corrected: the loop remembers whether it ran out of
    * delimiters instead of testing the view for emptiness. */
  method GetRightmostSegments(s: string, c: char, elems: int) returns (r: string)
    ensures r == RightmostSegments(s, c, elems)
  {
    var view := s;
    var elem := elems;
    var exhausted := false;
    while elem > 0 && !exhausted
      invariant exhausted ==> Cut(s, c, elems).None?
      invariant !exhausted ==> Cut(s, c, elems) == Cut(view, c, elem)
      decreases elem, if exhausted then 0 else 1
    {
      var found := LastIndexOf(view, c);
      if found.None? {
        exhausted := true;
      } else {
        view := view[..found.value];
        elem := elem - 1;
      }
    }
    r := if exhausted then s else RightChop(s, |view| + 1);
  }

  /** What the loop leaves: either it ran out, and then the string has fewer
    * than `elems` delimiters, or the view is followed by a delimiter and
    * exactly `elems - 1` more. */
  lemma {:induction false} CutMeaning(s: string, c: char, elems: int)
    requires elems >= 1
    ensures Cut(s, c, elems).None? ==> Count(s, c) < elems
    ensures Cut(s, c, elems).Some? ==>
      var view := Cut(s, c, elems).value;
      && |view| < |s| && s[..|view|] == view && s[|view|] == c
      && Count(s[|view| + 1..], c) == elems - 1
    decreases elems
  {
    var found := LastIndexOf(s, c);
    if found.Some? {
      var i := found.value;
      assert s == s[..i] + [c] + s[i + 1..];
      CountSplit(s[..i] + [c], s[i + 1..], c);
      CountSplit(s[..i], [c], c);
      if elems > 1 {
        CutMeaning(s[..i], c, elems - 1);
        if Cut(s[..i], c, elems - 1).Some? {
          CutStep(s, c, i, Cut(s[..i], c, elems - 1).value, elems - 2);
        }
      }
    }
  }

  /** A view found before an earlier delimiter of the string is followed by
    * one more delimiter in the whole string. */
  lemma CutStep(s: string, c: char, i: nat, view: string, k: nat)
    requires i < |s| && s[i] == c && Count(s[i + 1..], c) == 0
    requires |view| < i && s[..i][..|view|] == view && s[..i][|view|] == c
    requires Count(s[..i][|view| + 1..], c) == k
    ensures |view| < |s| && s[..|view|] == view && s[|view|] == c
    ensures Count(s[|view| + 1..], c) == k + 1
  {
    var rest := s[..i][|view| + 1..];
    assert s[|view| + 1..] == rest + [c] + s[i + 1..];
    CountSplit(rest + [c], s[i + 1..], c);
    CountSplit(rest, [c], c);
  }

  /** The corrected member keeps the rightmost `elems` segments: a suffix of
    * the string holding fewer than `elems` delimiters, and either the whole
    * string or a suffix following a delimiter and holding exactly
    * `elems - 1` of them. With no segments asked for the result is empty. */
  lemma RightmostSegmentsMeaning(s: string, c: char, elems: int)
    ensures IsSuffix(RightmostSegments(s, c, elems), s)
    ensures elems <= 0 ==> RightmostSegments(s, c, elems) == []
    ensures elems >= 1 ==>
      var r := RightmostSegments(s, c, elems);
      && Count(r, c) < elems
      && (r == s || (|r| < |s| && s[|s| - |r| - 1] == c && Count(r, c) == elems - 1))
  {
    if elems >= 1 {
      CutMeaning(s, c, elems);
    }
  }

  /** Asking for at least as many segments as the string has gives the whole
    * string. */
  lemma AllSegmentsGiveWholeString(s: string, c: char, elems: int)
    requires elems > Count(s, c)
    ensures RightmostSegments(s, c, elems) == s
    ensures RightmostSegmentsAsWritten(s, c, elems) == s
  {
    CutRunsOut(s, c, elems);
  }

  /** With fewer delimiters than turns, the loop runs out of them. */
  lemma CutRunsOut(s: string, c: char, elems: int)
    requires elems > Count(s, c)
    ensures Cut(s, c, elems).None?
  {
    CutMeaning(s, c, elems);
    match Cut(s, c, elems)
    case None =>
    case Some(view) =>
      var head := s[..|view|];
      var rest := s[|view| + 1..];
      assert s == head + [c] + rest;
      CountSplit(head + [c], rest, c);
      CountSplit(head, [c], c);
  }

  /** As written, the result is still a suffix of the string, empty when no
    * segment is asked of a string. */
  lemma AsWrittenIsSuffix(s: string, c: char, elems: int)
    ensures IsSuffix(RightmostSegmentsAsWritten(s, c, elems), s)
    ensures elems <= 0 ==> RightmostSegmentsAsWritten(s, c, elems) == []
  {
    if elems >= 1 {
      CutMeaning(s, c, elems);
    }
  }

  /** The two members differ only on strings that start with the delimiter. */
  lemma AsWrittenAgreesWithoutLeadingDelimiter(s: string, c: char, elems: int)
    requires |s| == 0 || s[0] != c
    ensures RightmostSegmentsAsWritten(s, c, elems) == RightmostSegments(s, c, elems)
  {
    if elems >= 1 {
      CutMeaning(s, c, elems);
    }
  }

  /** As written, one segment of ".b" is the whole ".b", which holds a
    * delimiter; the corrected member gives "b". */
  lemma LeadingDelimiterCounterexample()
    ensures RightmostSegmentsAsWritten(".b", '.', 1) == ".b"
    ensures Count(".b", '.') == 1
    ensures RightmostSegments(".b", '.', 1) == "b"
  {
    assert LastIndexOf(".b", '.') == Some(0);
    assert Cut(".b", '.', 1) == Some("");
  }

  /** The examples of String.h:10-14 and StringTest.cpp:12-19. */
  lemma RightmostSegmentsExamples()
    ensures RightmostSegments("", '.', 3) == ""
    ensures RightmostSegments("abc.def.ghi", '.', 0) == ""
    ensures RightmostSegments("abc.def.ghi", '.', 1) == "ghi"
    ensures RightmostSegments("abc.def.ghi", '.', 2) == "def.ghi"
    ensures RightmostSegments("abc.def.ghi", '.', 3) == "abc.def.ghi"
    ensures RightmostSegments("abc.def.ghi", '.', 4) == "abc.def.ghi"
    ensures forall elems :: RightmostSegmentsAsWritten("abc.def.ghi", '.', elems)
                            == RightmostSegments("abc.def.ghi", '.', elems)
  {
    forall elems {
      AsWrittenAgreesWithoutLeadingDelimiter("abc.def.ghi", '.', elems);
    }
    var s := "abc.def.ghi";
    LastIndexOfUnique(s, '.', 7);
    assert s[..7] == "abc.def";
    LastIndexOfUnique("abc.def", '.', 3);
    assert "abc.def"[..3] == "abc";
    LastIndexOfAbsent("abc", '.');
    assert s[8..] == "ghi";
    assert s[4..] == "def.ghi";
  }

  /** The last index of c is the position of c that no other c follows. */
  lemma {:induction false} LastIndexOfUnique(s: string, c: char, i: nat)
    requires i < |s| && s[i] == c
    requires forall k :: i < k < |s| ==> s[k] != c
    ensures LastIndexOf(s, c) == Some(i)
  {
    if i < |s| - 1 {
      LastIndexOfUnique(s[..|s| - 1], c, i);
    }
  }

  lemma {:induction false} LastIndexOfAbsent(s: string, c: char)
    requires forall k :: 0 <= k < |s| ==> s[k] != c
    ensures LastIndexOf(s, c) == None
  {
    if |s| > 0 {
      LastIndexOfAbsent(s[..|s| - 1], c);
    }
  }

  /** Count distributes over concatenation. */
  lemma {:induction false} CountSplit(a: string, b: string, c: char)
    ensures Count(a + b, c) == Count(a, c) + Count(b, c)
  {
    if |a| == 0 {
      assert a + b == b;
    } else {
      assert (a + b)[0] == a[0];
      assert (a + b)[1..] == a[1..] + b;
      CountSplit(a[1..], b, c);
    }
  }

  // ---------------------------------------------------------------------
  // BoolToString and IntToString (String.cpp:38-52).

  /** BoolToString (String.cpp:38-45). */
  function BoolToString(b: bool): string
  {
    if b then "True" else "False"
  }

  /** The text form names the boolean: "True" exactly for true, "False"
    * exactly for false. */
  lemma BoolToStringNames(b: bool)
    ensures BoolToString(b) == "True" <==> b
    ensures BoolToString(b) == "False" <==> !b
  {
  }

  /** The decimal digits of n, most significant first, without leading
    * zeros (the digit 0 alone for zero). */
  function Digits(n: nat): string
  {
    if n < 10 then [DigitChar(n)] else Digits(n / 10) + [DigitChar(n % 10)]
  }

  function DigitChar(d: nat): char
    requires d < 10
  {
    (48 + d) as char
  }

  predicate IsDigit(ch: char)
  {
    '0' <= ch <= '9'
  }

  /** FString::FromInt: the decimal form, with '-' before a negative value. */
  function FromInt(v: int): string
  {
    if v < 0 then "-" + Digits(-v) else Digits(v)
  }

  /** IntToString (String.cpp:47-52). */
  function IntToString(v: int, addSign: bool): string
  {
    if !addSign then FromInt(v)
    else if v < 0 then FromInt(v)
    else "+" + FromInt(v)
  }

  /** The value of a string of decimal digits. */
  function ParseDigits(s: string): nat
    requires forall i :: 0 <= i < |s| ==> IsDigit(s[i])
  {
    if |s| == 0 then 0
    else
      assert IsDigit(s[|s| - 1]);
      10 * ParseDigits(s[..|s| - 1]) + (s[|s| - 1] as int - 48)
  }

  /** The value of a decimal form with an optional '+' or '-' sign, if it
    * is one. */
  function ParseInt(s: string): Option<int>
  {
    if |s| > 0 && (s[0] == '-' || s[0] == '+') then
      var digits := s[1..];
      if |digits| > 0 && forall i :: 0 <= i < |digits| ==> IsDigit(digits[i]) then
        var magnitude: int := ParseDigits(digits);
        Some(if s[0] == '-' then -magnitude else magnitude)
      else None
    else if |s| > 0 && forall i :: 0 <= i < |s| ==> IsDigit(s[i]) then Some(ParseDigits(s))
    else None
  }

  lemma {:induction false} DigitsRoundTrip(n: nat)
    ensures |Digits(n)| > 0
    ensures forall i :: 0 <= i < |Digits(n)| ==> IsDigit(Digits(n)[i])
    ensures ParseDigits(Digits(n)) == n
  {
    if n >= 10 {
      DigitsRoundTrip(n / 10);
      var s := Digits(n);
      assert s[..|s| - 1] == Digits(n / 10);
    }
  }

  /** IntToString loses nothing: its text reads back as the value, with or
    * without the sign. */
  lemma IntToStringRoundTrip(v: int, addSign: bool)
    ensures ParseInt(IntToString(v, addSign)) == Some(v)
  {
    var digits := Digits(if v < 0 then -v else v);
    DigitsRoundTrip(if v < 0 then -v else v);
    var s := IntToString(v, addSign);
    if v < 0 || addSign {
      assert s[1..] == digits;
    } else {
      assert s == digits;
    }
  }

  /** IntToString signs exactly the non-negative values when asked to, so
    * zero becomes "+0". */
  lemma IntToStringSign(v: int, addSign: bool)
    ensures IntToString(v, addSign)[0] == '+' <==> addSign && v >= 0
    ensures IntToString(v, addSign)[0] == '-' <==> v < 0
    ensures IntToString(0, true) == "+0"
  {
    DigitsRoundTrip(if v < 0 then -v else v);
  }
}
