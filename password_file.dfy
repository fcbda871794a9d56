/** The per-line loop of `process_password_file` in mutated.py, with the
    input file given as its sequence of lines and the output file as the
    text written to it. */
module PasswordFile {
  import opened Mutation

  /** The characters `str.strip()` removes, those for which `str.isspace()`
      holds: tab, line feed, vertical tab, form feed, carriage return, the
      four ASCII separators, space, next line, no-break space and the Unicode
      space separators, line and paragraph separators. */
  predicate IsWhitespace(c: char) {
    '\t' <= c <= '\r' || '\U{1C}' <= c <= '\U{1F}' || c == ' ' || c == '\U{85}' || c == '\U{A0}' ||
    c == '\U{1680}' || '\U{2000}' <= c <= '\U{200A}' || c == '\U{2028}' || c == '\U{2029}' ||
    c == '\U{202F}' || c == '\U{205F}' || c == '\U{3000}'
  }

  predicate AllWhitespace(s: string) {
    forall i :: 0 <= i < |s| ==> IsWhitespace(s[i])
  }

  /** How many whitespace characters `s` starts with: the run stops at the
      first character that is not whitespace. */
  function LeadingWhitespace(s: string): (n: nat)
    ensures n <= |s|
    ensures n < |s| ==> !IsWhitespace(s[n])
  {
    if s != [] && IsWhitespace(s[0]) then 1 + LeadingWhitespace(s[1..]) else 0
  }

  /** Everything before that first non-whitespace character is whitespace. */
  lemma {:induction false} LeadingWhitespaceIsWhitespace(s: string)
    ensures AllWhitespace(s[..LeadingWhitespace(s)])
  {
    if s != [] && IsWhitespace(s[0]) {
      LeadingWhitespaceIsWhitespace(s[1..]);
      assert s[..LeadingWhitespace(s)] == [s[0]] + s[1..][..LeadingWhitespace(s[1..])];
    }
  }

  /** How many whitespace characters `s` ends with: the run stops at the
      last character that is not whitespace. */
  function TrailingWhitespace(s: string): (n: nat)
    ensures n <= |s|
    ensures n < |s| ==> !IsWhitespace(s[|s| - 1 - n])
  {
    if s != [] && IsWhitespace(s[|s| - 1]) then 1 + TrailingWhitespace(s[..|s| - 1]) else 0
  }

  /** Everything after that last non-whitespace character is whitespace. */
  lemma {:induction false} TrailingWhitespaceIsWhitespace(s: string)
    ensures AllWhitespace(s[|s| - TrailingWhitespace(s)..])
  {
    if s != [] && IsWhitespace(s[|s| - 1]) {
      var front := s[..|s| - 1];
      TrailingWhitespaceIsWhitespace(front);
      var t, u := TrailingWhitespace(s), TrailingWhitespace(front);
      assert t == u + 1;
      var ending, frontEnding := s[|s| - t..], front[|front| - u..];
      forall k | 0 <= k < |ending|
        ensures IsWhitespace(ending[k])
      {
        if k < u {
          assert ending[k] == frontEnding[k];
        } else {
          assert ending[k] == s[|s| - 1];
        }
      }
    }
  }

  /** `r` is the segment of `s` starting at `i` with only whitespace around it. */
  predicate IsTrimmedSegment(s: string, r: string, i: nat) {
    i + |r| <= |s| && r == s[i..i + |r|] && AllWhitespace(s[..i]) && AllWhitespace(s[i + |r|..])
  }

  /** Neither end of `r` is whitespace. */
  predicate IsTrimmed(r: string) {
    r == [] || (!IsWhitespace(r[0]) && !IsWhitespace(r[|r| - 1]))
  }

  /** `line.strip()`: the line with whitespace removed from both ends. */
  function Strip(s: string): (r: string)
    ensures IsTrimmed(r)
  {
    var i := LeadingWhitespace(s);
    var j := |s| - TrailingWhitespace(s[i..]);
    s[i..j]
  }

  /** The stripped line is the segment of the line that only whitespace surrounds. */
  lemma StripSegment(s: string)
    ensures exists i :: IsTrimmedSegment(s, Strip(s), i)
  {
    var i := LeadingWhitespace(s);
    var rest := s[i..];
    var j := |s| - TrailingWhitespace(rest);
    var r := Strip(s);
    assert r == s[i..j] && i + |r| == j;
    LeadingWhitespaceIsWhitespace(s);
    assert AllWhitespace(s[j..]) by {
      TrailingWhitespaceIsWhitespace(rest);
      assert s[j..] == rest[|rest| - TrailingWhitespace(rest)..];
    }
    assert IsTrimmedSegment(s, r, i);
  }

  /** Those two properties determine the stripped line uniquely. */
  lemma StripUnique(s: string, r: string, i: nat)
    requires IsTrimmed(r) && IsTrimmedSegment(s, r, i)
    ensures r == Strip(s)
  {
    var t := Strip(s);
    StripSegment(s);
    var k: nat :| IsTrimmedSegment(s, t, k);
    if r != [] && t != [] {
      TrimmedStart(s, r, i, t, k);
      TrimmedStart(s, t, k, r, i);
      TrimmedEnd(s, r, i, t, k);
      TrimmedEnd(s, t, k, r, i);
    } else if r != [] {
      EmptySegment(s, k);
    } else if t != [] {
      EmptySegment(s, i);
    }
  }

  /** A trimmed non-empty segment cannot start inside the whitespace before another segment. */
  lemma TrimmedStart(s: string, r: string, i: nat, t: string, k: nat)
    requires r != [] && IsTrimmed(r) && IsTrimmedSegment(s, r, i) && IsTrimmedSegment(s, t, k)
    ensures i >= k
  {
  }

  /** A trimmed non-empty segment cannot end inside the whitespace after another segment. */
  lemma TrimmedEnd(s: string, r: string, i: nat, t: string, k: nat)
    requires r != [] && IsTrimmed(r) && IsTrimmedSegment(s, r, i) && IsTrimmedSegment(s, t, k)
    ensures i + |r| <= k + |t|
  {
  }

  /** Only a line made entirely of whitespace has the empty segment. */
  lemma EmptySegment(s: string, k: nat)
    requires IsTrimmedSegment(s, [], k)
    ensures AllWhitespace(s)
  {
    assert s == s[..k] + s[k..];
  }

  /** Stripping twice is stripping once. */
  lemma StripIdempotent(s: string)
    ensures Strip(Strip(s)) == Strip(s)
  {
    var r := Strip(s);
    assert IsTrimmedSegment(r, r, 0) by {
      assert r[..0] == [] && r[|r|..] == [];
    }
    StripUnique(r, r, 0);
  }

  /** Reading one more line adds its stripped form at the end. */
  lemma StripLinesNext(lines: seq<string>, b: nat)
    requires b < |lines|
    ensures StripLines(lines[..b + 1]) == StripLines(lines[..b]) + [Strip(lines[b])]
  {
  }

  /** Processing one more input line appends that line's block of mutations. */
  lemma ExpandLinesNext(lines: seq<string>, prepends: seq<string>, appends: seq<string>, b: nat)
    requires b < |lines|
    ensures ExpandPasswords(StripLines(lines[..b + 1]), prepends, appends) ==
      ExpandPasswords(StripLines(lines[..b]), prepends, appends) + Mutations(Strip(lines[b]), prepends, appends)
  {
    var done := StripLines(lines[..b]);
    StripLinesNext(lines, b);
    assert (done + [Strip(lines[b])])[..|done|] == done;
  }

  /** Every input line stripped, in order. */
  function StripLines(lines: seq<string>): seq<string>
  {
    seq(|lines|, k requires 0 <= k < |lines| => Strip(lines[k]))
  }

  /** The output lines for the base words `passwords`: the mutations of
      each, the blocks concatenated in input order. */
  function ExpandPasswords(passwords: seq<string>, prepends: seq<string>, appends: seq<string>): seq<string>
  {
    if passwords == [] then []
    else ExpandPasswords(passwords[..|passwords| - 1], prepends, appends) + Mutations(passwords[|passwords| - 1], prepends, appends)
  }

  /** The output lines for the input file's `lines`. */
  function ExpandLines(lines: seq<string>, prepends: seq<string>, appends: seq<string>): seq<string>
  {
    ExpandPasswords(StripLines(lines), prepends, appends)
  }

  /** Expanding two parts of a word list is expanding each part in turn: a
      word's block is complete before the next word's begins. */
  lemma {:induction false} ExpandPasswordsAppend(first: seq<string>, second: seq<string>, prepends: seq<string>, appends: seq<string>)
    ensures ExpandPasswords(first + second, prepends, appends) ==
      ExpandPasswords(first, prepends, appends) + ExpandPasswords(second, prepends, appends)
  {
    if second != [] {
      var n := |second| - 1;
      assert (first + second)[..|first + second| - 1] == first + second[..n];
      ExpandPasswordsAppend(first, second[..n], prepends, appends);
    } else {
      assert first + second == first;
    }
  }

  /** Every base word contributes `|P| * |A|` output lines. */
  lemma {:induction false} ExpandPasswordsLength(passwords: seq<string>, prepends: seq<string>, appends: seq<string>)
    ensures |ExpandPasswords(passwords, prepends, appends)| == |passwords| * (|prepends| * |appends|)
  {
    if passwords != [] {
      var n, size := |passwords| - 1, |prepends| * |appends|;
      ExpandPasswordsLength(passwords[..n], prepends, appends);
      MutationsLength(passwords[n], prepends, appends);
      assert |ExpandPasswords(passwords, prepends, appends)| == n * size + size;
      MulSucc(n, size);
    }
  }

  /** One more block of `size` lines: kept apart so that the multiplication
      is reasoned about in a small context. */
  lemma MulSucc(n: nat, size: nat)
    ensures (n + 1) * size == n * size + size
  {
  }

  /** The block of base word `b` sits between the blocks of the words
      before it and the blocks of the words after it. */
  lemma ExpandPasswordsBlock(passwords: seq<string>, prepends: seq<string>, appends: seq<string>, b: nat)
    requires b < |passwords|
    ensures ExpandPasswords(passwords, prepends, appends) ==
      ExpandPasswords(passwords[..b], prepends, appends) + Mutations(passwords[b], prepends, appends) +
      ExpandPasswords(passwords[b + 1..], prepends, appends)
  {
    assert passwords == passwords[..b] + [passwords[b]] + passwords[b + 1..];
    ExpandPasswordsAppend(passwords[..b] + [passwords[b]], passwords[b + 1..], prepends, appends);
    assert (passwords[..b] + [passwords[b]])[..b] == passwords[..b];
  }

  /** Output line `b * |P| * |A| + m` is mutation `m` of base word `b`;
      with `MutationsAt`, line `b * |P| * |A| + i * |A| + j` is `P[i]`, then
      word `b`, then `A[j]`. */
  lemma ExpandPasswordsAt(passwords: seq<string>, prepends: seq<string>, appends: seq<string>, b: nat, m: nat)
    requires b < |passwords| && m < |prepends| * |appends|
    ensures |Mutations(passwords[b], prepends, appends)| == |prepends| * |appends|
    ensures b * (|prepends| * |appends|) + m < |ExpandPasswords(passwords, prepends, appends)|
    ensures ExpandPasswords(passwords, prepends, appends)[b * (|prepends| * |appends|) + m] ==
      Mutations(passwords[b], prepends, appends)[m]
  {
    var before := ExpandPasswords(passwords[..b], prepends, appends);
    var block := Mutations(passwords[b], prepends, appends);
    var after := ExpandPasswords(passwords[b + 1..], prepends, appends);
    ExpandPasswordsBlock(passwords, prepends, appends, b);
    ExpandPasswordsLength(passwords[..b], prepends, appends);
    MutationsLength(passwords[b], prepends, appends);
    IndexIntoMiddle(before, block, after, m);
  }

  /** Every output line comes from the block of some base word. */
  lemma {:induction false} ExpandPasswordsMember(passwords: seq<string>, prepends: seq<string>, appends: seq<string>, m: string)
    returns (b: nat)
    requires m in ExpandPasswords(passwords, prepends, appends)
    ensures b < |passwords| && m in Mutations(passwords[b], prepends, appends)
  {
    var n := |passwords| - 1;
    if m in Mutations(passwords[n], prepends, appends) {
      b := n;
    } else {
      b := ExpandPasswordsMember(passwords[..n], prepends, appends, m);
      assert passwords[..n][b] == passwords[b];
    }
  }

  /** Index `|front| + k` of a three-part concatenation lands on `middle[k]`. */
  lemma IndexIntoMiddle(front: seq<string>, middle: seq<string>, back: seq<string>, k: nat)
    requires k < |middle|
    ensures |front| + k < |front + middle + back| && (front + middle + back)[|front| + k] == middle[k]
  {
  }

  /** Without any mutation mode the output is the input with each line stripped. */
  lemma {:induction false} ExpandPasswordsIdentity(passwords: seq<string>)
    ensures ExpandPasswords(passwords, [""], [""]) == passwords
  {
    if passwords != [] {
      var n := |passwords| - 1;
      ExpandPasswordsIdentity(passwords[..n]);
      IdentityMutation(passwords[n]);
      assert passwords == passwords[..n] + [passwords[n]];
    }
  }

  /** The text of the output file: every line followed by a newline. */
  function Render(out: seq<string>): string
  {
    if out == [] then "" else Render(out[..|out| - 1]) + out[|out| - 1] + "\n"
  }

  /** Writing one more line of `block` extends the text by that line. */
  lemma RenderNext(before: seq<string>, block: seq<string>, k: nat)
    requires k < |block|
    ensures Render(before + block[..k + 1]) == Render(before + block[..k]) + block[k] + "\n"
  {
    var out := before + block[..k + 1];
    assert out[..|out| - 1] == before + block[..k];
  }

  /** `process_password_file` with the file handles taken out: for each
      input line in order, strip it, mutate it, and write every mutation
      followed by a newline. */
  method ProcessPasswordFile(lines: seq<string>, prependList: seq<string>, appendList: seq<string>)
    returns (written: string)
    ensures written == Render(ExpandLines(lines, prependList, appendList))
  {
    written := "";
    for b := 0 to |lines|
      invariant written == Render(ExpandPasswords(StripLines(lines[..b]), prependList, appendList))
    {
      var password := Strip(lines[b]);
      var mutatedPasswords := MutatePassword(password, prependList, appendList);
      ghost var done := StripLines(lines[..b]);
      ghost var before := ExpandPasswords(done, prependList, appendList);
      assert before == before + mutatedPasswords[..0];
      for k := 0 to |mutatedPasswords|
        invariant written == Render(before + mutatedPasswords[..k])
      {
        RenderNext(before, mutatedPasswords, k);
        written := written + mutatedPasswords[k] + "\n";
      }
      assert mutatedPasswords[..|mutatedPasswords|] == mutatedPasswords;
      ExpandLinesNext(lines, prependList, appendList, b);
    }
    assert lines[..|lines|] == lines;
  }
}
