# A verified model of `tokenizer.c`

`tokenizer.c` is a small lexical scanner for arithmetic and assignment
statements. It handles each input line in three stages:

1. `squeeze_together` normalises the line by deleting tab, space, newline,
   NUL, `\v`, `\b`, `\f`, `\r` and `\a`.
2. The inner loop of `main` calls `get_token` over what is left:
   - `get_token` first steps past the previous token (`string_after_token`).
   - It then recognises one of the twelve symbols `+ - * / ( ) ^ ; < > = !`, extended by a following `=`, or an integer literal.
   - Anything else is reported as the sentinel `"NULL"` (end of line) or `"ERROR"` (an invalid character).
3. Each token goes to `file_write_token`, followed by `count++`. That function numbers statements from 1 and tokens within a statement from 0, and a `;` ends a statement. Each invalid character goes to `file_write_token_error` and is stepped over.

The model has one Dafny module per piece of the program:

- `CStrings` (cstrings.dfy) specifies `strlen`, `strstr` and `strncpy` over character sequences.
- `Normalizer` (normalizer.dfy) is `squeeze_together`. It is a method over an `array<char>`, proved against the function `Squeeze`.
- `Scanner` (scanner.dfy) covers `get_token` and `string_after_token`.
  - Both are methods with loops. The global `line` pointer becomes an offset `cur` into the normalised line.
  - The zero-filled scratch buffer is an `array<char>`.
  - The sentinel strings become the tagged result `Token(text) | EndOfLine | InvalidChar(c)`.
  - The pure function `Classify` specifies the result, and `Lex` scans a line to its end.
- `Formatter` (formatter.dfy) has the class `StatementWriter`.
  - Its fields are the counters `start` and `count` and the output, which is a sequence of abstract records: `Separator`, `Header(n)`, `Lexeme(k, text)` and `LexError(c)`.
  - `Output` and `Final` give what any stream of scan results writes. The lemmas prove the numbering rules about them.
- `Driver` (driver.dfy) covers the loops of `main`.
  - `ScanLine` is the inner loop with its guard `strlen(strstr(line, token)) > 1`, as written.
  - `Tokenize` is the loop over lines. Lines are given as a sequence, one per `fgets` call.
  - `LoopEvents` specifies what the inner loop hands to the formatter.

The symbol constants live in `tokenizer.h`, which is not part of this model.
Their values are taken from the names used at tokenizer.c:144-155 and the `";"`
comparison at tokenizer.c:119.

## Model

| member | source | states |
|---|---|---|
| CStrings.StrLen | tokenizer.c:67 | `strlen` counts the characters before the first NUL |
| CStrings.CString | tokenizer.c:205 | the C string in a buffer is its prefix up to the first NUL and holds no NUL |
| CStrings.StrStr | tokenizer.c:219 | `strstr` returns the first offset where the needle occurs, or None when it occurs nowhere |
| CStrings.StrLenOfNulFree | tokenizer.c:67 | `strlen` of a NUL-free line is its length |
| CStrings.StrStrOfPrefix | tokenizer.c:67 | a token that begins the rest of the line (and the empty token) is found at offset 0 |
| CStrings.StrNCpy | tokenizer.c:205 | `strncpy` copies the source's C string and pads the rest of the destination with NULs |
| CStrings.PaddedCString | tokenizer.c:201-205 | a buffer of n non-NUL characters followed by NULs reads back as those n characters |
| Normalizer.Squeeze | tokenizer.c:197-203 | the squeezed line is no longer than the input |
| Normalizer.IsDelimiter | tokenizer.c:198-200 | the nine characters deleted from a line: tab, space, newline, NUL, `\v`, `\b`, `\f`, `\r`, `\a` |
| Normalizer.Normalize | tokenizer.c:189-209 | the line held in the buffer after `squeeze_together`: its C string with every delimiter removed |
| Normalizer.SqueezeIsClean | tokenizer.c:198-200 | no delimiter survives squeezing |
| Normalizer.SqueezeKeepsOthers | tokenizer.c:197-203 | every non-delimiter character is kept as often as it occurs, and every delimiter is removed |
| Normalizer.SqueezeIsSubsequence | tokenizer.c:197-203 | the kept characters stay in their original order |
| Normalizer.SqueezeOfClean | tokenizer.c:197-203 | a line without delimiters is left unchanged |
| Normalizer.SqueezeIdempotent | tokenizer.c:197-203 | squeezing twice is squeezing once |
| Normalizer.NormalizeIdempotent | tokenizer.c:189-209 | a normalised line is NUL-free and delimiter-free, and normalising it again changes nothing |
| Normalizer.SqueezedBuffer | tokenizer.c:201-205 | the scratch buffer after the copy loop holds the normalised line as its C string |
| Normalizer.SqueezeTogether | tokenizer.c:189-209 | the buffer afterwards holds the normalised line followed only by NULs |
| Scanner.IsOperator | tokenizer.c:143-156 | the twelve symbols of the switch, `+ - * / ( ) ^ ; < > = !`, inferred from the constant names because `tokenizer.h` is not part of this model |
| Scanner.IsDigit | tokenizer.c:160-164 | `isdigit`, taken as the ASCII digits `0`..`9` |
| Scanner.DigitEnd | tokenizer.c:164-167 | the digit loop stops at the first non-digit or at the end, with only digits before it |
| Scanner.DigitEndAt | tokenizer.c:164-167 | a digit run closed by a non-digit or by the end is exactly the run the loop reads |
| Scanner.Width | tokenizer.c:143-167 | one scan step stays inside the line and takes up nothing exactly at the end of the line |
| Scanner.Classify | tokenizer.c:143-178 | end of line exactly at the end; a token is the text the step takes up; an invalid character is the current character, neither operator nor digit, and takes up one place |
| Scanner.OperatorToken | tokenizer.c:143-161 | an operator token is the symbol, with length 2 exactly when the next character is '=' |
| Scanner.DigitToken | tokenizer.c:159-167 | a literal is the maximal run of digits and never takes a following '=' |
| Scanner.InvalidCharacter | tokenizer.c:173-175 | a character that is neither an operator nor a digit is reported alone as an invalid character, whatever follows it |
| Scanner.TokenIsNotSentinel | tokenizer.c:70-77 | no token equals "NULL" or "ERROR", so the tagged result loses nothing against the sentinel strings |
| Scanner.StringAfterToken | tokenizer.c:216-223 | the cursor moves to where `strstr` finds the previous token, plus that token's length; an empty token moves nothing |
| Scanner.AdvanceOverPrefix | tokenizer.c:216-223 | stepping past a token that begins the rest advances the cursor by exactly its length |
| Scanner.TokenAtCursor | tokenizer.c:219 | every token returned begins the rest of the line at the cursor |
| Scanner.GetToken | tokenizer.c:134-181 | the result is Classify at the cursor, and the cursor is past the previous token |
| Scanner.ScratchHoldsToken | tokenizer.c:170-178 | the scratch buffer read back as a C string is the token, or empty for end of line and for an invalid character (even one followed by '=') |
| Scanner.ConsumedWidth | tokenizer.c:164-178 | the characters a scan result stands for are exactly those its step takes up |
| Scanner.LexConsumesEverything | tokenizer.c:216-223 | scanning to the end of the line reads every character exactly once |
| Scanner.Lex | tokenizer.c:67-79 | the reference scan of a line from an offset to its end, one `get_token` step after another, stepping over tokens and single invalid characters; the loop is compared against it |
| Scanner.LexBounded | tokenizer.c:67-79 | the reference scan never reports end of line and gives at most one result per character |
| Formatter.TokenRecordsShape | tokenizer.c:109-116 | a header is written exactly when `count == 0`, a separator exactly when also `start > 1`, and the lexeme line comes last |
| Formatter.TokenRecords | tokenizer.c:109-116 | the records `file_write_token` writes: separator (when `start > 1`) and header when `count == 0`, then `Lexeme(count, text)` |
| Formatter.Emit | tokenizer.c:94-96 | the records of one scan result: the token's records, one error record naming the character, nothing at end of line |
| Formatter.Next | tokenizer.c:119-122 | the counters after one scan result: after a token `count++` (with `;` first moving `start` on and setting `count` to -1); unchanged after an error or end of line |
| Formatter.Output | tokenizer.c:52-82 | everything written for a stream of scan results, with the counters starting at 1 and 0 and carried from line to line |
| Formatter.Final | tokenizer.c:52-82 | the counters after a stream of scan results, carried from line to line |
| Formatter.StatementWriter.constructor | tokenizer.c:32-33 | the counters start at 1 and 0 and nothing has been written |
| Formatter.StatementWriter.WriteToken | tokenizer.c:107-123 | appends the token's records; a ";" increments `start` and sets `count` to -1 |
| Formatter.StatementWriter.WriteError | tokenizer.c:94-96 | appends the error record for the character and leaves the counters unchanged |
| Formatter.Cons | tokenizer.c:77-79 | one scan result writes its records and then the stream goes on from the updated counters |
| Formatter.Concat | tokenizer.c:52-82 | formatting two streams in turn is formatting their concatenation, because the counters persist across lines |
| Formatter.OnlySemicolonTerminates | tokenizer.c:119-122 | only ";" starts a new statement and resets `count` to 0 after `count++`; ";=" does not |
| Formatter.StatementsCounted | tokenizer.c:119-121 | `start` is one more than the number of ";" tokens seen |
| Formatter.TokensCounted | tokenizer.c:119-122 | `count` is the number of tokens since the last ";" |
| Formatter.FinalInRange | tokenizer.c:119-122 | after any stream `start >= 1` and `count >= 0` |
| Formatter.EmitViews | tokenizer.c:109-116 | one token writes the header exactly when `count == 0` and always the lexeme `Lexeme(count, text)`; an error writes neither |
| Formatter.EmitSeparators | tokenizer.c:110-112 | within one token's records a separator comes exactly before a header numbered above 1 |
| Formatter.HeaderStep | tokenizer.c:109-113 | one scan result adds exactly the next statement header, or none |
| Formatter.HeadersNumbered | tokenizer.c:109-113 | the headers written are numbered 1, 2, 3, ... without gaps or repeats |
| Formatter.LexemesIndexed | tokenizer.c:116 | the i-th lexeme carries the i-th token and, as its index, the number of tokens between the last ";" and that token |
| Formatter.SeparatorsBeforeLaterHeaders | tokenizer.c:110-111 | in the whole output a separator stands exactly before each header of statement 2 onwards |
| Formatter.ErrorsDoNotRenumber | tokenizer.c:73-76 | dropping the errors from the stream drops exactly the error records and leaves the counters and all other records unchanged |
| Driver.Turn | tokenizer.c:67-79 | one turn scans at the pending token's end; a token becomes pending, an invalid character is stepped over, and the loop measure decreases while more than one character is left |
| Driver.LoopEvents | tokenizer.c:67-81 | what the inner loop hands to the formatter: one turn after another while `strlen(strstr(line, token)) > 1`, that is, while more than one character is left from the pending token on |
| Driver.LoopEventsBounded | tokenizer.c:67-81 | the loop never hands on end of line and gives at most one result per character after the pending token |
| Driver.LineEvents | tokenizer.c:59-61 | the scan results of one normalised line; an empty line is skipped and yields none |
| Driver.LineEventsBounded | tokenizer.c:59-81 | one line yields at most one result per character and never end of line |
| Driver.DocumentEvents | tokenizer.c:52-61 | the scan results of the normalised lines of a document, line after line |
| Driver.Document | tokenizer.c:52-82 | the records written for a whole document |
| Driver.TakeTurn | tokenizer.c:68-80 | the turn's records are written and the counters advanced, and the new pending token is found by `strstr` right at the cursor |
| Driver.TurnDone | tokenizer.c:70-79 | after `get_token` the cursor and the pending token are where the turn puts them |
| Driver.LexTurn | tokenizer.c:68-79 | scanning from the pending token is one turn's result followed by scanning from where the turn leaves off |
| Driver.ScanLine | tokenizer.c:64-81 | the inner loop writes exactly the records of `LoopEvents` for the line and leaves the counters where those results take them |
| Driver.Tokenize | tokenizer.c:52-82 | the records written for a document are those of the scan results of its normalised lines, line after line; empty lines are skipped |
| Driver.LoopThenUnscanned | tokenizer.c:67 | the loop's results followed by what it leaves unscanned are the scan of the whole rest of the line |
| Driver.UnscannedAtMostLastChar | tokenizer.c:67 | what the loop leaves unscanned is nothing or the result for the line's last character |
| Driver.LineConsumed | tokenizer.c:67-79 | the loop reads the whole line, or all of it except its last character, and nothing twice |
| Driver.SingleCharacterLineDropped | tokenizer.c:67 | a normalised line of one character writes nothing, although it holds a scan result |
| Driver.BlankLineWritesNothing | tokenizer.c:59-61 | a line that normalises to empty writes nothing and leaves the counters alone |
| Driver.TerminatorAfterErrorDropped | tokenizer.c:67-76 | on the line `5@;` the loop writes `5` and the error for `@` but never the `;` |
| Driver.FullMeasureDecreases | tokenizer.c:67 | with the corrected guard, every turn brings the loop nearer its end |
| Driver.FixedScansAll | tokenizer.c:67 | with the corrected guard, the loop's results are exactly the scan from the pending token to the end of the line |
| Driver.FixedLineConsumed | tokenizer.c:67-79 | with the corrected guard, every character of the line is read exactly once |
| Driver.ScanLineFixed | tokenizer.c:64-81 | the corrected inner loop writes exactly the records of `FixedEvents`, which is the scan of the whole line |

## Findings

| source | as written | input that shows it | evidently intended | confidence | as-written member | corrected member |
|---|---|---|---|---|---|---|
| tokenizer.c:67 | the loop runs only while `strlen(strstr(line, token)) > 1`. With no token pending (at the start of a line, or after an invalid character), a single last character is never scanned | the normalised line `;` writes nothing; the line `5@;` writes the lexeme `5` and the error for `@` but never the `;`, so the statement is not closed | scan while any text is left (`> 0`), so that every character is classified | high; not executed | Driver.TerminatorAfterErrorDropped | Driver.ScanLineFixed |

The program's behaviour is the loop as written, so `Tokenize` uses `ScanLine`.
`SingleCharacterLineDropped`, `TerminatorAfterErrorDropped` and `LineConsumed`
pin down what that loop loses. `ScanLineFixed` is the same loop with the guard
`> 0`. `FixedLineConsumed` proves that it reads every character of the line
exactly once.

## Left out

- Argument checking, `fopen`/`fclose`, the final `printf` and the exit codes (tokenizer.c:35-50, 84-87). These are process and file I/O.
- `fgets` splitting a physical line at `LINE` characters (tokenizer.c:52): `Tokenize` takes the lines as a sequence, one per `fgets` call.
- The fixed sizes `TSIZE` and `LINE` from `tokenizer.h`, which is not part of this model. This includes the overflow of the scratch buffer for a digit run longer than `TSIZE`. Sequences and buffers are unbounded.
- Scanner.GetToken: the scratch buffer is sized to the rest of the line plus two places, instead of `TSIZE`.
- `calloc` and `free`, and the global `line` pointer aliasing `input_line`. These become an explicit offset, and the token buffer becomes a sequence.
- The read of `line[1]` when `line[0]` is the terminating NUL (tokenizer.c:160) is beyond the C string. It is modelled as "not '='".
- Input lines are byte sequences: each Dafny `char` stands for one C `char`, that is one byte. A multi-byte UTF-8 character must be given as its bytes, one `char` each; each byte that is neither an operator nor a digit is one invalid character. `isdigit` on a negative `char` (tokenizer.c:160, 164) is undefined in C; here a byte outside `'0'`..`'9'` is never a digit.
- `isdigit` is taken as the ASCII digits `'0'`..`'9'`; locale-dependent digits are not modelled.
- Formatter.StatementWriter.WriteToken: output lines are abstract records, not the `fprintf` text. The decimal rendering of the counters is not modelled.
- Counters are unbounded integers. A C `int` overflow of `start` or `count` would need more than 2^31 statements or tokens, and it is not modelled.
