/** The numeric range argument (`--prepend_range`, `--append_range`):
    `generate_number_range` in mutated.py. */
module RangeParser {
  import opened Results
  import opened Decimal

  /** The `ValueError` raised for a range argument that does not match; it
      carries the offending argument, as the message does. */
  datatype RangeError = InvalidRangeFormat(input: string)

  /** The tokens `str(start), str(start + 1), ..., str(end)`, that is
      `[str(i) for i in range(start, end + 1)]`. */
  function NumberRange(start: nat, end: nat): seq<string>
    decreases end + 1 - start
  {
    if end < start then [] else [Str(start)] + NumberRange(start + 1, end)
  }

  /** Length and contents of a range: `end - start + 1` tokens (none when
      `end < start`), token `k` is the decimal rendering of `start + k`. */
  lemma {:induction false} NumberRangeAt(start: nat, end: nat)
    ensures |NumberRange(start, end)| == if end < start then 0 else end - start + 1
    ensures forall k :: 0 <= k < |NumberRange(start, end)| ==>
      NumberRange(start, end)[k] == Str(start + k)
    decreases end + 1 - start
  {
    if start <= end {
      NumberRangeAt(start + 1, end);
      var r, tail := NumberRange(start, end), NumberRange(start + 1, end);
      assert r == [Str(start)] + tail;
      forall k | 0 <= k < |r|
        ensures r[k] == Str(start + k)
      {
        if k > 0 {
          assert r[k] == tail[k - 1];
        }
      }
    }
  }

  /** The tokens are canonical decimals in strictly ascending numeric order. */
  lemma NumberRangeAscending(start: nat, end: nat)
    ensures forall k :: 0 <= k < |NumberRange(start, end)| ==>
      IsCanonical(NumberRange(start, end)[k]) && Value(NumberRange(start, end)[k]) == start + k
  {
    NumberRangeAt(start, end);
    forall k | 0 <= k < |NumberRange(start, end)|
      ensures Value(NumberRange(start, end)[k]) == start + k
    {
      ValueOfStr(start + k);
    }
  }

  /** Length of the longest run of ASCII digits at the front of `s`: what the
      greedy group `(\d+)` consumes. */
  function DigitRun(s: string): (n: nat)
    ensures n <= |s|
    ensures n < |s| ==> !IsDigit(s[n])
  {
    if s == [] || !IsDigit(s[0]) then 0 else 1 + DigitRun(s[1..])
  }

  /** The run consists of digits only. */
  lemma {:induction false} DigitRunIsDigits(s: string)
    ensures AllDigits(s[..DigitRun(s)])
  {
    if s != [] && IsDigit(s[0]) {
      DigitRunIsDigits(s[1..]);
      assert s[..DigitRun(s)] == [s[0]] + s[1..][..DigitRun(s[1..])];
    }
  }

  /** Whatever digits a prefix of `s` holds, if a non-digit follows them the
      digit run stops there. */
  lemma DigitRunStops(s: string, i: nat)
    requires i < |s| && AllDigits(s[..i]) && !IsDigit(s[i])
    ensures DigitRun(s) == i
  {
    DigitRunIsDigits(s);
  }

  /** `re.match(r"(\d+)-(\d+)", s)` succeeds: `s` begins with one or more
      digits, a hyphen and one or more digits; anything after is ignored. */
  ghost predicate MatchesRange(s: string) {
    exists i, j :: MatchesRangeAt(s, i, j)
  }

  /** The match with the first group `s[..i]` and the second `s[i + 1..j]`. */
  predicate MatchesRangeAt(s: string, i: nat, j: nat) {
    0 < i && i + 1 < j <= |s| && s[i] == '-' && AllDigits(s[..i]) && AllDigits(s[i + 1..j])
  }

  /** `generate_number_range(s)`: parse the two digit groups and expand the
      inclusive range, or raise `ValueError` when the pattern does not match. */
  function GenerateNumberRange(s: string): (r: Result<seq<string>, RangeError>)
    ensures r.Err? <==> !MatchesRange(s)
    ensures r.Err? ==> r.error == InvalidRangeFormat(s)
    ensures r.Ok? ==>
      (forall k :: 0 <= k < |r.value| ==> IsCanonical(r.value[k])) &&
      (forall k :: 0 < k < |r.value| ==> Value(r.value[k]) == Value(r.value[k - 1]) + 1)
  {
    var i := DigitRun(s);
    if i == 0 || i == |s| || s[i] != '-' then
      NoMatch(s);
      Err(InvalidRangeFormat(s))
    else
      var rest := s[i + 1..];
      var j := DigitRun(rest);
      DigitRunIsDigits(s);
      DigitRunIsDigits(rest);
      if j == 0 then
        NoMatch(s);
        Err(InvalidRangeFormat(s))
      else
        assert MatchesRangeAt(s, i, i + 1 + j) by {
          assert rest[..j] == s[i + 1..i + 1 + j];
        }
        NumberRangeAscending(Value(s[..i]), Value(rest[..j]));
        Ok(NumberRange(Value(s[..i]), Value(rest[..j])))
  }

  /** When the first digit run is empty, is not followed by `-`, or the
      hyphen is not followed by a digit, the pattern cannot match. */
  lemma NoMatch(s: string)
    requires var i := DigitRun(s);
      i == 0 || i == |s| || s[i] != '-' || DigitRun(s[i + 1..]) == 0
    ensures !MatchesRange(s)
  {
    if MatchesRange(s) {
      var i: nat, j: nat :| MatchesRangeAt(s, i, j);
      MatchRuns(s, i, j);
    }
  }

  /** In a match, the first digit run is the first group and a second run
      follows the hyphen. */
  lemma MatchRuns(s: string, i: nat, j: nat)
    requires MatchesRangeAt(s, i, j)
    ensures DigitRun(s) == i && DigitRun(s[i + 1..]) > 0
  {
    DigitRunStops(s, i);
    var rest := s[i + 1..];
    assert rest[0] == s[i + 1..j][0];
  }

  /** `s` is the digit group `d1`, a hyphen, the digit group `d2` and a
      `tail` that does not continue the second group. */
  predicate SplitsAsRange(s: string, d1: string, d2: string, tail: string) {
    |d1| > 0 && AllDigits(d1) && |d2| > 0 && AllDigits(d2) &&
    (tail == [] || !IsDigit(tail[0])) && s == d1 + "-" + d2 + tail
  }

  /** A string made of a digit group, `-`, a digit group and a tail that does
      not start with a digit parses to the range of the two groups' values. */
  lemma ParseDecomposed(d1: string, d2: string, tail: string)
    requires |d1| > 0 && AllDigits(d1) && |d2| > 0 && AllDigits(d2)
    requires tail == [] || !IsDigit(tail[0])
    ensures GenerateNumberRange(d1 + "-" + d2 + tail) == Ok(NumberRange(Value(d1), Value(d2)))
  {
    var s := d1 + "-" + d2 + tail;
    var rest := d2 + tail;
    GroupBeforeSeparator(d1, rest);
    assert s == d1 + "-" + rest;
    GroupBeforeTail(d2, tail);
    Accepts(s, |d1|, |d2|);
  }

  /** The first digit group ends at the hyphen. */
  lemma GroupBeforeSeparator(d: string, rest: string)
    requires |d| > 0 && AllDigits(d)
    ensures DigitRun(d + "-" + rest) == |d|
    ensures (d + "-" + rest)[..|d|] == d && (d + "-" + rest)[|d|] == '-'
    ensures (d + "-" + rest)[|d| + 1..] == rest
  {
    var s := d + "-" + rest;
    assert s[..|d|] == d;
    DigitRunStops(s, |d|);
    assert s[|d| + 1..] == rest;
  }

  /** The second digit group ends where the tail starts. */
  lemma GroupBeforeTail(d: string, tail: string)
    requires |d| > 0 && AllDigits(d)
    requires tail == [] || !IsDigit(tail[0])
    ensures DigitRun(d + tail) == |d| && (d + tail)[..|d|] == d
  {
    var rest := d + tail;
    assert rest[..|d|] == d;
    if tail != [] {
      assert rest[|d|] == tail[0];
      DigitRunStops(rest, |d|);
    }
  }

  /** How `GenerateNumberRange` reads `s` once both digit runs are known. */
  lemma Accepts(s: string, i: nat, j: nat)
    requires DigitRun(s) == i && 0 < i < |s| && s[i] == '-'
    requires DigitRun(s[i + 1..]) == j && 0 < j
    ensures AllDigits(s[..i]) && AllDigits(s[i + 1..][..j])
    ensures GenerateNumberRange(s) == Ok(NumberRange(Value(s[..i]), Value(s[i + 1..][..j])))
  {
    DigitRunIsDigits(s);
    DigitRunIsDigits(s[i + 1..]);
  }

  /** Conversely, every accepted string has that shape, and its tokens are
      the range of the two digit groups' values. */
  lemma ParseAccepted(s: string)
    requires GenerateNumberRange(s).Ok?
    ensures exists d1, d2, tail ::
      SplitsAsRange(s, d1, d2, tail) && GenerateNumberRange(s).value == NumberRange(Value(d1), Value(d2))
  {
    var i := DigitRun(s);
    var rest := s[i + 1..];
    var j := DigitRun(rest);
    var d1, d2, tail := s[..i], rest[..j], rest[j..];
    DigitRunIsDigits(s);
    DigitRunIsDigits(rest);
    assert 0 < i < |s| && s[i] == '-' && 0 < j;
    assert tail == [] || !IsDigit(tail[0]);
    assert GenerateNumberRange(s).value == NumberRange(Value(d1), Value(d2));
    assert s == d1 + "-" + d2 + tail;
    assert SplitsAsRange(s, d1, d2, tail);
  }

  /** `"5-8"` gives the four tokens `5` to `8`, and so does `"5-8abc"`: text
      after the second digit group is ignored. */
  lemma PlainRangeExample()
    ensures GenerateNumberRange("5-8") == Ok(["5", "6", "7", "8"])
    ensures GenerateNumberRange("5-8abc") == Ok(["5", "6", "7", "8"])
  {
    assert Value("5") == 5 && Value("8") == 8;
    RangeFiveToEight();
    ParseDecomposed("5", "8", "");
    assert "5" + "-" + "8" + "" == "5-8";
    ParseDecomposed("5", "8", "abc");
    assert "5" + "-" + "8" + "abc" == "5-8abc";
  }

  /** Leading zeros are read by `int()` and not reproduced by `str()`. */
  lemma LeadingZerosExample()
    ensures GenerateNumberRange("007-9") == Ok(["7", "8", "9"])
  {
    ParseDecomposed("007", "9", "");
    assert "007" + "-" + "9" + "" == "007-9";
    assert Value("007") == 7 by {
      assert "007"[..2] == "00" && "00"[..1] == "0" && "0"[..0] == "";
    }
    assert Value("9") == 9;
    NumberRangeAt(7, 9);
    assert Str(7) == "7" && Str(8) == "8" && Str(9) == "9";
    assert NumberRange(7, 9) == ["7", "8", "9"];
  }

  /** The range 5 to 8, token by token. */
  lemma RangeFiveToEight()
    ensures NumberRange(5, 8) == ["5", "6", "7", "8"]
  {
    NumberRangeAt(5, 8);
    assert Str(5) == "5" && Str(6) == "6" && Str(7) == "7" && Str(8) == "8";
  }

  /** Equal bounds give one token; a reversed range gives none and no error. */
  lemma DegenerateRangeExamples()
    ensures GenerateNumberRange("3-3") == Ok(["3"])
    ensures GenerateNumberRange("9-5") == Ok([])
  {
    ParseDecomposed("3", "3", "");
    assert "3" + "-" + "3" + "" == "3-3";
    assert Value("3") == 3;
    NumberRangeAt(3, 3);
    assert Str(3) == "3";
    assert NumberRange(3, 3) == ["3"];
    ParseDecomposed("9", "5", "");
    assert "9" + "-" + "5" + "" == "9-5";
    assert Value("9") == 9 && Value("5") == 5;
  }

  /** An argument without a leading digit group is rejected. */
  lemma RejectedExamples()
    ensures GenerateNumberRange("abc") == Err(InvalidRangeFormat("abc"))
    ensures GenerateNumberRange("-5-8") == Err(InvalidRangeFormat("-5-8"))
  {
  }
}
