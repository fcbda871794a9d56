/** The prepend and append lists chosen from the command-line options, and
    the whole run of the script: `main` in mutated.py after argument parsing. */
module Options {
  import opened Results
  import opened Decimal
  import opened RangeParser
  import opened Mutation
  import opened PasswordFile

  /** The value of `-p`/`--prepend` or `-a`/`--append`: not given,
      `special` or `number`. */
  datatype Mode = NoMode | Special | Number

  /** The fixed special characters, in the order they are tried. */
  const SpecialCharacters: seq<string> := ["!", "@", "#", "$", "%", "^", "&", "*"]

  /** A token the script can put before or after a word: nothing, one
      special character, or the decimal rendering of a number. */
  predicate IsToken(t: string) {
    t == "" || t in SpecialCharacters || IsCanonical(t)
  }

  /** A range option counts as given only when it is a non-empty string, as
      Python's truth test on `args.prepend_range` has it. */
  predicate RangeGiven(range: Option<string>) {
    range.Some? && range.value != ""
  }

  /** One slot's token list: the special characters for `special`, the parsed
      range for `number` with a range, and the single empty token otherwise. */
  function SelectTokens(mode: Mode, range: Option<string>): (r: Result<seq<string>, RangeError>)
    ensures r.Err? <==> mode == Number && RangeGiven(range) && !MatchesRange(range.value)
    ensures r.Err? ==> r.error == InvalidRangeFormat(range.value)
    ensures r.Ok? ==> forall k :: 0 <= k < |r.value| ==> IsToken(r.value[k])
    ensures r.Ok? && r.value == [] ==> mode == Number && RangeGiven(range)
  {
    if mode == Special then Ok(SpecialCharacters)
    else if mode == Number && RangeGiven(range) then GenerateNumberRange(range.value)
    else Ok([""])
  }

  /** The range option is consulted only in `number` mode; a missing or
      empty range there falls back to the single empty token. */
  lemma SlotSelection(range: Option<string>)
    ensures SelectTokens(Special, range) == Ok(["!", "@", "#", "$", "%", "^", "&", "*"])
    ensures SelectTokens(NoMode, range) == Ok([""])
    ensures RangeGiven(range) ==> SelectTokens(Number, range) == GenerateNumberRange(range.value)
    ensures !RangeGiven(range) ==> SelectTokens(Number, range) == Ok([""])
  {
  }

  /** A `number` slot yields no token at all exactly when its range is
      reversed; the list is never empty otherwise. */
  lemma EmptyTokenList(d1: string, d2: string, tail: string)
    requires |d1| > 0 && AllDigits(d1) && |d2| > 0 && AllDigits(d2)
    requires tail == [] || !IsDigit(tail[0])
    ensures SelectTokens(Number, Some(d1 + "-" + d2 + tail)) == Ok([]) <==> Value(d2) < Value(d1)
  {
    ParseDecomposed(d1, d2, tail);
    NumberRangeAt(Value(d1), Value(d2));
  }

  /** The two token lists a run uses. */
  datatype Config = Config(prependList: seq<string>, appendList: seq<string>)

  /** Both slots resolved, the prepend slot first: a bad prepend range is
      the error reported even when the append range is bad too. */
  function Configure(prepend: Mode, prependRange: Option<string>, append: Mode, appendRange: Option<string>)
    : (r: Result<Config, RangeError>)
    ensures r.Ok? <==> SelectTokens(prepend, prependRange).Ok? && SelectTokens(append, appendRange).Ok?
    ensures r.Ok? ==> r.value == Config(SelectTokens(prepend, prependRange).value, SelectTokens(append, appendRange).value)
    ensures SelectTokens(prepend, prependRange).Err? ==> r == Err(SelectTokens(prepend, prependRange).error)
    ensures SelectTokens(prepend, prependRange).Ok? && SelectTokens(append, appendRange).Err? ==>
      r == Err(SelectTokens(append, appendRange).error)
  {
    match SelectTokens(prepend, prependRange)
    case Err(e) => Err(e)
    case Ok(prependList) =>
      match SelectTokens(append, appendRange)
      case Err(e) => Err(e)
      case Ok(appendList) => Ok(Config(prependList, appendList))
  }

  /** The script run on an input file with the given lines: either the text
      of the output file, or the range error raised before anything is
      written. */
  function Run(lines: seq<string>, prepend: Mode, prependRange: Option<string>, append: Mode, appendRange: Option<string>)
    : (r: Result<string, RangeError>)
    ensures r.Err? <==> Configure(prepend, prependRange, append, appendRange).Err?
    ensures r.Err? ==> r.error == Configure(prepend, prependRange, append, appendRange).error
  {
    match Configure(prepend, prependRange, append, appendRange)
    case Err(e) => Err(e)
    case Ok(c) => Ok(Render(ExpandLines(lines, c.prependList, c.appendList)))
  }

  /** A run fails exactly when a slot in `number` mode has a range that does
      not match, and then no output is produced at all. The error names the
      prepend range when that one is bad, and the append range otherwise. */
  lemma RunFails(lines: seq<string>, prepend: Mode, prependRange: Option<string>, append: Mode, appendRange: Option<string>)
    ensures Run(lines, prepend, prependRange, append, appendRange).Err? <==>
      (prepend == Number && RangeGiven(prependRange) && !MatchesRange(prependRange.value)) ||
      (append == Number && RangeGiven(appendRange) && !MatchesRange(appendRange.value))
    ensures prepend == Number && RangeGiven(prependRange) && !MatchesRange(prependRange.value) ==>
      Run(lines, prepend, prependRange, append, appendRange) == Err(InvalidRangeFormat(prependRange.value))
    ensures (!(prepend == Number && RangeGiven(prependRange) && !MatchesRange(prependRange.value)) &&
      append == Number && RangeGiven(appendRange) && !MatchesRange(appendRange.value)) ==>
      Run(lines, prepend, prependRange, append, appendRange) == Err(InvalidRangeFormat(appendRange.value))
  {
  }

  /** Without `-p` or `-a` the output file lists the stripped input lines. */
  lemma RunWithoutModes(lines: seq<string>, prependRange: Option<string>, appendRange: Option<string>)
    ensures Run(lines, NoMode, prependRange, NoMode, appendRange) == Ok(Render(StripLines(lines)))
  {
    ExpandPasswordsIdentity(StripLines(lines));
  }

  /** Every line of a successful run is a pair of tokens around a stripped
      input line, and there are `|P| * |A|` of them per input line. */
  lemma RunOutput(lines: seq<string>, prepend: Mode, prependRange: Option<string>, append: Mode, appendRange: Option<string>)
    requires Configure(prepend, prependRange, append, appendRange).Ok?
    ensures var c := Configure(prepend, prependRange, append, appendRange).value;
      var out := ExpandLines(lines, c.prependList, c.appendList);
      Run(lines, prepend, prependRange, append, appendRange) == Ok(Render(out)) &&
      |out| == |lines| * (|c.prependList| * |c.appendList|) &&
      forall m :: m in out ==> exists b :: 0 <= b < |lines| && IsMutation(m, Strip(lines[b]), c.prependList, c.appendList)
  {
    var c := Configure(prepend, prependRange, append, appendRange).value;
    var passwords := StripLines(lines);
    ExpandPasswordsLength(passwords, c.prependList, c.appendList);
    forall m | m in ExpandPasswords(passwords, c.prependList, c.appendList)
      ensures exists b :: 0 <= b < |lines| && IsMutation(m, Strip(lines[b]), c.prependList, c.appendList)
    {
      var b := ExpandPasswordsMember(passwords, c.prependList, c.appendList, m);
      MutationsMembers(passwords[b], c.prependList, c.appendList, m);
    }
  }

  /** A word list line with its newline stripped. */
  lemma StripNewline(word: string)
    requires IsTrimmed(word)
    ensures Strip(word + "\n") == word
  {
    var s := word + "\n";
    assert s[0..|word|] == word && s[..0] == [] && s[|word|..] == "\n";
    StripUnique(s, word, 0);
  }

  /** `0-1` gives the tokens `0` and `1`. */
  lemma RangeZeroToOne()
    ensures GenerateNumberRange("0-1") == Ok(["0", "1"])
  {
    ParseDecomposed("0", "1", "");
    assert "0" + "-" + "1" + "" == "0-1";
    assert Value("0") == 0 && Value("1") == 1;
    NumberRangeAt(0, 1);
    assert Str(0) == "0" && Str(1) == "1";
    assert NumberRange(0, 1) == ["0", "1"];
  }

  /** Prepending the range `0-1` to the words `pass1` and `pass2`. */
  lemma NumberPrependExample()
    ensures Run(["pass1\n", "pass2\n"], Number, Some("0-1"), NoMode, None) == Ok(Render(["0pass1", "1pass1", "0pass2", "1pass2"]))
  {
    NumberPrependConfig();
    NumberPrependLines();
  }

  lemma NumberPrependConfig()
    ensures Configure(Number, Some("0-1"), NoMode, None) == Ok(Config(["0", "1"], [""]))
  {
    RangeZeroToOne();
  }

  lemma NumberPrependLines()
    ensures ExpandLines(["pass1\n", "pass2\n"], ["0", "1"], [""]) == ["0pass1", "1pass1", "0pass2", "1pass2"]
  {
    var w1, w2 := "pass1", "pass2";
    assert ["pass1\n", "pass2\n"] == [w1 + "\n", w2 + "\n"] by {
      assert w1 + "\n" == "pass1\n" && w2 + "\n" == "pass2\n";
    }
    assert ["0" + w1, "1" + w1, "0" + w2, "1" + w2] == ["0pass1", "1pass1", "0pass2", "1pass2"] by {
      assert "0" + w1 == "0pass1" && "1" + w1 == "1pass1" && "0" + w2 == "0pass2" && "1" + w2 == "1pass2";
    }
    TwoWordsTwoPrepends(w1, w2, "0", "1");
  }

  /** Two input lines, two prepend tokens, no append: each line's two
      mutations, the first line's block first. */
  lemma TwoWordsTwoPrepends(w1: string, w2: string, t0: string, t1: string)
    requires IsTrimmed(w1) && IsTrimmed(w2)
    ensures ExpandLines([w1 + "\n", w2 + "\n"], [t0, t1], [""]) == [t0 + w1, t1 + w1, t0 + w2, t1 + w2]
  {
    var lines := [w1 + "\n", w2 + "\n"];
    StripNewline(w1);
    StripNewline(w2);
    assert lines[..1] == [w1 + "\n"] && lines[..1][..0] == [];
    assert StripLines(lines) == [w1, w2];
    var tokens := [t0, t1];
    PrependBlock(w1, tokens);
    PrependBlock(w2, tokens);
    assert [w1, w2][..1] == [w1] && [w1][..0] == [];
    assert ExpandPasswords([w1], tokens, [""]) == Mutations(w1, tokens, [""]);
    assert ExpandPasswords([w1, w2], tokens, [""]) == Mutations(w1, tokens, [""]) + Mutations(w2, tokens, [""]);
  }

  /** Two prepend tokens and no append: one line per token. */
  lemma PrependBlock(word: string, tokens: seq<string>)
    requires |tokens| == 2
    ensures Mutations(word, tokens, [""]) == [tokens[0] + word, tokens[1] + word]
  {
    MutationsAt(word, tokens, [""], 0, 0);
    MutationsAt(word, tokens, [""], 1, 0);
    assert tokens[0] + word + "" == tokens[0] + word;
    assert tokens[1] + word + "" == tokens[1] + word;
  }

  /** Appending the special characters to `hello`. */
  lemma SpecialAppendExample()
    ensures Run(["hello\n"], NoMode, None, Special, None) ==
      Ok(Render(["hello!", "hello@", "hello#", "hello$", "hello%", "hello^", "hello&", "hello*"]))
  {
    assert Configure(NoMode, None, Special, None) == Ok(Config([""], SpecialCharacters));
    SpecialAppendLines();
  }

  lemma SpecialAppendLines()
    ensures ExpandLines(["hello\n"], [""], SpecialCharacters) ==
      ["hello!", "hello@", "hello#", "hello$", "hello%", "hello^", "hello&", "hello*"]
  {
    var w := "hello";
    assert ["hello\n"] == [w + "\n"] by {
      assert w + "\n" == "hello\n";
    }
    var out := [w + "!", w + "@", w + "#", w + "$", w + "%", w + "^", w + "&", w + "*"];
    assert seq(|SpecialCharacters|, j requires 0 <= j < |SpecialCharacters| => w + SpecialCharacters[j]) == out;
    assert out == ["hello!", "hello@", "hello#", "hello$", "hello%", "hello^", "hello&", "hello*"] by {
      assert w + "!" == "hello!" && w + "@" == "hello@" && w + "#" == "hello#" && w + "$" == "hello$";
      assert w + "%" == "hello%" && w + "^" == "hello^" && w + "&" == "hello&" && w + "*" == "hello*";
    }
    OneWordAppends(w, SpecialCharacters);
  }

  /** One input line and no prepend: one output line per append token, in order. */
  lemma OneWordAppends(w: string, appends: seq<string>)
    requires IsTrimmed(w)
    ensures ExpandLines([w + "\n"], [""], appends) == seq(|appends|, j requires 0 <= j < |appends| => w + appends[j])
  {
    StripNewline(w);
    assert StripLines([w + "\n"]) == [w];
    assert [""][..0] == [];
    var out := Row("", w, appends);
    assert Mutations(w, [""], appends) == out;
    RowAt("", w, appends);
    forall j | 0 <= j < |appends|
      ensures out[j] == w + appends[j]
    {
      assert "" + w == w;
    }
    assert [w][..0] == [];
    assert ExpandPasswords([w], [""], appends) == out;
  }
}
