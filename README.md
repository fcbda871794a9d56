# Password wordlist mutator — a verified Dafny model

`mutated.py` reads a wordlist and writes a new one. Each input line becomes a
block of output lines, one for every combination of a prepend token, the
stripped line, and an append token. Prepend tokens vary slowest, and blocks
appear in the order of the input lines. Each slot has its own token list:

- the eight special characters `! @ # $ % ^ & *` (`special` mode);
- the decimal renderings of an inclusive number range `N-M` (`number` mode
  with a range);
- otherwise the single empty token.

A range that does not begin with digits, a hyphen and digits raises
`ValueError` before any output is produced.

The model is split into six modules, one file each:

| file | module | models |
|---|---|---|
| `results.dfy` | `Results` | `Option` and `Result`, the error channel that stands in for Python exceptions |
| `decimal.dfy` | `Decimal` | `int()` on an ASCII digit string and `str()` on a non-negative integer |
| `range_parser.dfy` | `RangeParser` | `generate_number_range`: the regular expression `(\d+)-(\d+)` under `re.match`, and the range expansion |
| `mutation.dfy` | `Mutation` | `mutate_password`: a method with the source's two nested loops, proved equal to the function `Mutations` |
| `password_file.dfy` | `PasswordFile` | the per-line loop of `process_password_file`: `str.strip()`, the per-line expansion, and the text written to the output file |
| `options.dfy` | `Options` | the selection of the prepend and append lists in `main`, and the whole run from input lines to output text or error |

The imperative parts of the source are Dafny methods with loops:
`MutatePassword` and `ProcessPasswordFile`. Each is proved against a
specification function: `Mutations`, and `Render(ExpandLines(...))`. The
properties the script promises are proved as lemmas about those functions:

- the count `|P| * |A|` per line;
- the row-major order;
- the shape of every output line;
- the identity case;
- the range length and contents;
- leading zeros;
- accept/reject of range strings;
- slot selection;
- the flat-map over lines.

The input file is a parameter: the sequence of its lines, each with the
newline the file iterator keeps. The output file is the string written to
it.

## Model

| member | source | states |
|---|---|---|
| Decimal.Str | mutated.py:25 | `str(n)` is a canonical digit string (non-empty, ASCII digits, no leading zero unless it is `"0"`), and it is `"0"` exactly when `n == 0` |
| Decimal.Value | mutated.py:23-24 | `int()` on a string of ASCII digits, most significant first; characterised by `Decimal.ValueOfStr`, `Decimal.StrOfValue`, `Decimal.ValueAtLeastOne` and `Decimal.LeadingZerosIgnored` |
| Decimal.ValueOfStr | mutated.py:23-25 | `int(str(n)) == n` for every natural number |
| Decimal.StrOfValue | mutated.py:23-25 | `str(int(s)) == s` for every canonical digit string |
| Decimal.ValueAtLeastOne | mutated.py:23 | a canonical string other than `"0"` denotes a positive number |
| Decimal.StrInjective | mutated.py:25 | two numbers render equally if and only if they are equal, so range tokens are distinct |
| Decimal.LeadingZerosIgnored | mutated.py:23-24 | a leading `0` does not change the value `int()` reads |
| RangeParser.NumberRange | mutated.py:25 | the comprehension `[str(i) for i in range(start, end + 1)]`; its length and contents are stated by `RangeParser.NumberRangeAt` and `RangeParser.NumberRangeAscending` |
| RangeParser.NumberRangeAt | mutated.py:25 | `range(start, end + 1)` has `end - start + 1` tokens, or none when `end < start`; token `k` is `str(start + k)` |
| RangeParser.NumberRangeAscending | mutated.py:25 | every range token is canonical and denotes `start + k`, so the tokens ascend by one |
| RangeParser.DigitRun | mutated.py:21 | the greedy `\d+` run stops at the first non-digit, or at the end of the string |
| RangeParser.DigitRunIsDigits | mutated.py:21 | everything the greedy run consumes is a digit |
| RangeParser.DigitRunStops | mutated.py:21 | a digit prefix followed by a non-digit is exactly the greedy run |
| RangeParser.GenerateNumberRange | mutated.py:19-27 | errors if and only if no split of the argument into digits, `-`, digits exists at its start. The error carries the argument. On success, every token is canonical and each token's value is one more than the previous token's |
| RangeParser.NoMatch | mutated.py:21-22 | when the greedy first run is empty, not followed by `-`, or the hyphen is not followed by a digit, no split (with backtracking) matches |
| RangeParser.MatchRuns | mutated.py:21 | in any match, the first group is the greedy run and a digit follows the hyphen |
| RangeParser.ParseDecomposed | mutated.py:21-25 | `d1 + "-" + d2 + tail`, with `tail` not starting with a digit, gives exactly the inclusive range from `int(d1)` to `int(d2)` |
| RangeParser.GroupBeforeSeparator | mutated.py:21 | the first group of `d + "-" + rest` is `d` and the remainder after the hyphen is `rest` |
| RangeParser.GroupBeforeTail | mutated.py:21 | the second group of `d + tail` is `d` when `tail` does not begin with a digit |
| RangeParser.Accepts | mutated.py:21-25 | once both greedy runs are known and non-empty, the result is the range between their values |
| RangeParser.ParseAccepted | mutated.py:21-25 | every accepted argument splits as digits, `-`, maximal digits and an ignored tail, and its tokens are that range |
| RangeParser.PlainRangeExample | mutated.py:19-25 | `"5-8"` gives `5, 6, 7, 8`, and so does `"5-8abc"`: text after the match is ignored |
| RangeParser.RangeFiveToEight | mutated.py:25 | the range 5..8 rendered token by token |
| RangeParser.LeadingZerosExample | mutated.py:23-25 | `"007-9"` gives `7, 8, 9`: leading zeros are read and not reproduced |
| RangeParser.DegenerateRangeExamples | mutated.py:25 | `"3-3"` gives one token, and `"9-5"` gives no token and no error |
| RangeParser.RejectedExamples | mutated.py:21-27 | `"abc"` and `"-5-8"` raise the range format error naming the argument |
| Mutation.Row | mutated.py:12-14 | the inner loop's output for one prepend token; stated by `Mutation.RowAt` |
| Mutation.Mutations | mutated.py:11-14 | the specification of `mutate_password`: one row per prepend token, in order. Its length, index formula and members are stated by `Mutation.MutationsLength`, `Mutation.MutationsAt` and `Mutation.MutationsMembers`, and `Mutation.MutatePassword` is proved equal to it |
| Mutation.MutatePassword | mutated.py:7-16 | the nested loops return exactly `Mutations(password, P, A)` |
| Mutation.RowAt | mutated.py:12-14 | the inner loop for one prepend token yields `|A|` lines, line `j` being `p + password + A[j]` |
| Mutation.MutationsLength | mutated.py:11-14 | exactly `|P| * |A|` mutations, none when either list is empty |
| Mutation.MutationsAt | mutated.py:11-14 | the mutation at index `i * |A| + j` is `P[i] + password + A[j]`, and that index is in range |
| Mutation.MutationsMembers | mutated.py:11-14 | a string is a mutation if and only if it is some prepend token, then the password, then some append token |
| Mutation.MutationIsWellFormed | mutated.py:13 | every mutation has the shape prepend + password + append |
| Mutation.IdentityMutation | mutated.py:11-14 | with `['']` on both sides the single result is the password itself |
| Mutation.OrderingExample | mutated.py:11-14 | two tokens per side give `P1wA1, P1wA2, P2wA1, P2wA2` in that order |
| PasswordFile.LeadingWhitespace | mutated.py:34 | the leading whitespace run ends at the first non-whitespace character |
| PasswordFile.LeadingWhitespaceIsWhitespace | mutated.py:34 | everything in the leading run is whitespace |
| PasswordFile.TrailingWhitespace | mutated.py:34 | the trailing whitespace run ends at the last non-whitespace character |
| PasswordFile.TrailingWhitespaceIsWhitespace | mutated.py:34 | everything in the trailing run is whitespace |
| PasswordFile.Strip | mutated.py:34 | `line.strip()` neither begins nor ends with whitespace |
| PasswordFile.StripSegment | mutated.py:34 | the stripped line is a contiguous segment of the line with only whitespace before and after it |
| PasswordFile.StripUnique | mutated.py:34 | any trimmed segment with only whitespace around it is the stripped line; the characterisation is complete |
| PasswordFile.TrimmedStart | mutated.py:34 | a non-empty trimmed segment cannot start inside another segment's leading whitespace |
| PasswordFile.TrimmedEnd | mutated.py:34 | a non-empty trimmed segment cannot end inside another segment's trailing whitespace |
| PasswordFile.EmptySegment | mutated.py:34 | only an all-whitespace line strips to the empty string |
| PasswordFile.StripIdempotent | mutated.py:34 | stripping twice equals stripping once |
| PasswordFile.StripLines | mutated.py:32-34 | each input line stripped, in order; extended line by line by `PasswordFile.StripLinesNext` |
| PasswordFile.StripLinesNext | mutated.py:32-34 | reading one more line appends its stripped form |
| PasswordFile.ExpandLinesNext | mutated.py:32-41 | one more input line appends exactly that line's block of mutations to the output lines |
| PasswordFile.ExpandPasswords | mutated.py:36-41 | the blocks of mutations of the base words, concatenated in order; stated by `PasswordFile.ExpandPasswordsAppend`, `PasswordFile.ExpandPasswordsLength`, `PasswordFile.ExpandPasswordsBlock`, `PasswordFile.ExpandPasswordsAt`, `PasswordFile.ExpandPasswordsMember` and `PasswordFile.ExpandPasswordsIdentity` |
| PasswordFile.ExpandLines | mutated.py:32-41 | the output lines for the input lines: `ExpandPasswords` of the stripped lines; extended line by line by `PasswordFile.ExpandLinesNext` |
| PasswordFile.ExpandPasswordsAppend | mutated.py:32-41 | expansion distributes over concatenation of inputs, so a line's block is finished before the next line's starts |
| PasswordFile.ExpandPasswordsLength | mutated.py:32-41 | `|lines| * |P| * |A|` output lines |
| PasswordFile.ExpandPasswordsBlock | mutated.py:32-41 | the output is the blocks of earlier lines, then line `b`'s block, then the blocks of later lines |
| PasswordFile.ExpandPasswordsAt | mutated.py:32-41 | output line `b * |P| * |A| + m` is mutation `m` of stripped input line `b` |
| PasswordFile.ExpandPasswordsMember | mutated.py:32-41 | every output line belongs to the block of some input line |
| PasswordFile.ExpandPasswordsIdentity | mutated.py:32-41 | with `['']` on both sides the output lines are the stripped input lines |
| PasswordFile.Render | mutated.py:40-41 | the output file text, each line followed by `"\n"`; extended line by line by `PasswordFile.RenderNext` |
| PasswordFile.RenderNext | mutated.py:40-41 | writing one more line extends the file text by that line and a newline |
| PasswordFile.ProcessPasswordFile | mutated.py:30-41 | the loop writes exactly `Render(ExpandLines(lines, P, A))`: every mutation of every stripped line, in order, each followed by `"\n"` |
| Options.SelectTokens | mutated.py:62-79 | a slot fails if and only if it is `number` with a non-empty range that does not match, and the error names that range. Every token is empty, a special character or a canonical decimal. An empty list arises only in `number` mode with a range |
| Options.SlotSelection | mutated.py:66-71 | `special` gives the eight characters whatever the range. `number` with a non-empty range gives the parsed range. `number` with no range or an empty one, and no mode, give `['']` |
| Options.EmptyTokenList | mutated.py:68-69 | a `number` slot's list is empty if and only if the range's end is below its start |
| Options.Configure | mutated.py:65-79 | both lists succeed if and only if both slots succeed, and the lists are the slots' lists. A bad prepend range is the error reported, even when the append range is bad too. When only the append slot fails, its error is reported |
| Options.Run | mutated.py:65-82 | a run fails if and only if configuring the two slots fails, and it fails with that error, before any line is processed; its successful output is stated by `Options.RunOutput` and `Options.RunWithoutModes` |
| Options.RunFails | mutated.py:65-82 | a run fails if and only if some `number` slot has a given range that does not match. The error names the prepend range when that one is bad, and otherwise the append range |
| Options.RunWithoutModes | mutated.py:65-82 | without `-p` and `-a` the output file lists the stripped input lines |
| Options.RunOutput | mutated.py:82 | a successful run writes `|lines| * |P| * |A|` lines, each a prepend token around a stripped input line with an append token |
| Options.StripNewline | mutated.py:34 | stripping a trimmed word's newline gives back the word |
| Options.RangeZeroToOne | mutated.py:21-25 | `"0-1"` gives `0, 1` |
| Options.NumberPrependExample | mutated.py:62-82 | `-p number --prepend_range 0-1` on `pass1`, `pass2` writes `0pass1, 1pass1, 0pass2, 1pass2` |
| Options.NumberPrependConfig | mutated.py:66-79 | those options give the lists `['0', '1']` and `['']` |
| Options.NumberPrependLines | mutated.py:30-41 | the two-line file expands to the four lines above |
| Options.TwoWordsTwoPrepends | mutated.py:30-41 | two lines and two prepend tokens: the first line's block, then the second's |
| Options.PrependBlock | mutated.py:11-14 | two prepend tokens and no append give one line per token |
| Options.SpecialAppendExample | mutated.py:62-82 | `-a special` on `hello` writes `hello!` to `hello*` in the order of the special characters |
| Options.SpecialAppendLines | mutated.py:30-41 | the one-line file expands to the eight lines above |
| Options.OneWordAppends | mutated.py:30-41 | one line and no prepend give one output line per append token, in order |

## Left out

- Argument parsing (mutated.py:47-60) is left out: `argparse`, its `choices` check, help text and the `-o` default. The parsed options are the parameters of `Options.Run`. An absent option is `None`, and a mode is `NoMode`, `Special` or `Number`.
- File handling is left out: opening, reading, writing and closing files (mutated.py:31), the closing `print` (mutated.py:43), and the program entry point. The input file is its sequence of lines and the output file is the text written to it. Partial output before an I/O error is not modelled.
- Text-mode newline translation (`\r\n` and `\r` read as `\n`) happens in the file object, not in this code. The lines are taken as already read.
- RangeParser.GenerateNumberRange: `\d` and `int()` are modelled on ASCII digits only. Python's `str` patterns also accept the other Unicode decimal digits, and `int()` converts them.
- The code does not guarantee that a token list is non-empty. A reversed range such as `9-5` gives an empty list and no error, so the run writes an empty file. The model follows the code and proves when this happens (`Options.EmptyTokenList`).
- A range option counts as given only when it is a non-empty string, following Python truthiness at mutated.py:68 and mutated.py:76. `--prepend_range ""` therefore falls back to `['']`, just as no range does.
- RangeParser.GenerateNumberRange: CPython's limit on decimal string conversion is not modelled. From 3.11, and in security releases of 3.7-3.10, `int()` on a digit group of more than 4300 digits raises `ValueError` (the default of `sys.set_int_max_str_digits`). The limit depends on the interpreter and its configuration. The model reads every digit group, so for such an argument it returns the range where Python raises.
- Python integers are unbounded, and so are Dafny's, but a very large range exhausts memory in Python. No memory limit is modelled.
