# flake8-ascii-validator, modelled in Dafny

The flake8 plugin `AsciiChecker` receives the tokens of one Python source
file, in order. For each token it reports the first character whose codepoint
is above 127 as a `(line, column, message, checker class)` record, and at
most one record per token.

Tokens go to one of three scans by type:

- A COMMENT token is reported as ASC003.
- A STRING token is reported as ASC002. It is skipped when its lowercased
  text starts with `r"`, `r'`, `u"`, `u'`, `b"` or `b'`.
- Any other token is reported as ASC001, except the ENCODING token, which is
  never reported.

The line of a record is the token's start line. Its column is the token's
start column plus the raw index of the character in the token text. This
holds even when a newline inside the token comes before that character. The
message interpolates the whole class constant and then adds
` Non-ASCII character '<c>' (U+<hex>) found in <location>`, so the descriptive
phrase appears twice. `<hex>` is `format(ord(c), '04X')`: upper-case digits,
zero-padded to a minimum width of four, so codepoints above U+FFFF keep all
five or six digits. Indices count from 0: the 'é' of `# café` is at index 5,
and that of `# Commént with é` (tests/test_ascii_validator.py:118) at index 6.

Files:

- `ascii_checker.dfy` (module `AsciiValidator`): tokens, records, messages
  and their decoder, the find-first scan, the three handlers, the dispatch,
  `run`, the constructor and the factory.
- `hex_format.dfy` (module `HexFormat`): `format(n, 'X')` and
  `format(n, '04X')`, with their value and width properties.
- `sequences.dfy` (module `Sequences`): flat-map, prefix and suffix
  stripping, and substring occurrence on sequences.
- `wrappers.dfy` (module `Wrappers`): `Option`.
- `examples_scenarios.dfy` (module `AsciiScenarios`): concrete tokens and the
  exact records they yield. Two come from the repository's tests: the line
  of tests/test_ascii_validator.py:208 and the prefixed strings of lines
  94-95. The others are built to show the rules: a comment `# café`, the
  column past a newline inside a string, a five-digit codepoint, the ENCODING
  skip, and the three class constants and one whole message spelled out.

The generator `run()` is modelled as the sequence of records it yields, in
order. `_check_tokens` is a flat-map of the per-token dispatch over the token
list.

## Model

| member | source | states |
|---|---|---|
| AsciiValidator.CodeConstantStartsWithCode | flake8_ascii_validator.py:22-24 | each class constant begins with its six-character code ASC001, ASC002 or ASC003 |
| AsciiValidator.MessageCode | flake8_ascii_validator.py:73-74 | every message starts with its scan's code, and so with "ASC00" |
| AsciiValidator.MessageCodepoint | flake8_ascii_validator.py:74 | every message contains "U+" followed by the character's 04X codepoint |
| AsciiValidator.MessageShape | tests/test_ascii_validator.py:129-131 | a message starts with "ASC00" and contains "U+" and the codepoint |
| AsciiValidator.Message | flake8_ascii_validator.py:73-74 | the f-string of each scan; its contract is stated by MessageCode, MessageCodepoint and MessageRoundTrip below |
| AsciiValidator.MessageRoundTrip | flake8_ascii_validator.py:73-74 | parsing a message recovers the scan and the character it was built from, so a message determines both (the decoder is a reference inverse, not part of the plugin; the lemmas ParseAfterConstant, ReportRoundTrip, ParseAfterCharacter, ParseAfterCodepointLead and DigitsRoundTrip are steps of this proof) |
| AsciiValidator.FirstNonAscii | flake8_ascii_validator.py:67-68 | the search returns nothing exactly when every character is at most 127; otherwise it returns the lowest index above 127, with all earlier characters ASCII |
| AsciiValidator.FirstNonAsciiUnique | flake8_ascii_validator.py:67-77 | there is only one lowest non-ASCII index |
| AsciiValidator.ScanText | flake8_ascii_validator.py:66-77 | one scan yields at most one record, none exactly when the text is all ASCII; the record is at the start line, at the start column plus the first non-ASCII index, and names that character and the checker class |
| AsciiValidator.ScanTextRecord | flake8_ascii_validator.py:114-123 | when index i holds the first non-ASCII character, the scan yields exactly the record at (start line, start column + i) for that character |
| AsciiValidator.HasExemptPrefix | flake8_ascii_validator.py:87-90 | the `startswith` test on the lowercased text; its contract is ExemptPrefixExactly below |
| AsciiValidator.Lower | flake8_ascii_validator.py:87 | lowercasing keeps the length |
| AsciiValidator.ExemptPrefixExactly | flake8_ascii_validator.py:87-90 | a string is exempt exactly when its first character is r, u or b in either case and its second is a quote; `rb"`, `f"` and a bare quote are not exempt |
| AsciiValidator.CheckComment | flake8_ascii_validator.py:62-77 | `_check_comment`; by CheckTokenReports and CheckTokenRecord, a COMMENT yields one ASC003 record for its first non-ASCII character, and nothing when it is all ASCII |
| AsciiValidator.CheckStringToken | flake8_ascii_validator.py:79-102 | `_check_string_token`; by CheckTokenReports, CheckTokenRecord and ExemptPrefixExactly, a STRING yields nothing when exempt or all ASCII, and otherwise one ASC002 record for its first non-ASCII character |
| AsciiValidator.CheckGeneralToken | flake8_ascii_validator.py:104-124 | `_check_general_token`; by SkipTypesReachable, CheckTokenReports and CheckTokenRecord, ENCODING yields nothing and any other type one ASC001 record for its first non-ASCII character, if it has one |
| AsciiValidator.CheckToken | flake8_ascii_validator.py:54-60 | a token yields at most one record |
| AsciiValidator.CheckTokenReports | flake8_ascii_validator.py:54-60 | a token yields a record exactly when it is neither exempt nor all ASCII; the record reports its first non-ASCII character under the scan of its type |
| AsciiValidator.CheckTokenRecord | flake8_ascii_validator.py:69-76 | a non-exempt token whose first non-ASCII index is i yields exactly one record, at (start line, start column + i), with that character's message for the token's type |
| AsciiValidator.CheckTokenScans | flake8_ascii_validator.py:54-60 | a non-exempt token gets the scan of its type |
| AsciiValidator.CheckTokenSilent | flake8_ascii_validator.py:87-90 | exempt and all-ASCII tokens, including empty ones, yield nothing |
| AsciiValidator.SkipTypesReachable | flake8_ascii_validator.py:109-111 | the general scan only receives non-COMMENT, non-STRING tokens, and of those it skips ENCODING alone |
| AsciiValidator.DispatchCode | flake8_ascii_validator.py:55-60 | COMMENT records carry ASC003, STRING records ASC002, records of every other type ASC001; ENCODING yields nothing |
| AsciiValidator.CheckTokens | flake8_ascii_validator.py:54-60 | a token list yields at most one record per token |
| AsciiValidator.CheckTokensAppend | flake8_ascii_validator.py:54-60 | the records of two consecutive token lists are the records of the first followed by those of the second |
| AsciiValidator.CheckTokensAt | flake8_ascii_validator.py:54-60 | the records of token j stand after those of every earlier token and before those of every later one |
| AsciiValidator.CheckTokensEmpty | flake8_ascii_validator.py:54-60 | a token list yields no record exactly when none of its tokens is flagged |
| AsciiValidator.CheckTokensSound | flake8_ascii_validator.py:54-60 | every record is the single record of some input token |
| AsciiValidator.TokenRecordShape | tests/test_ascii_validator.py:123-131 | a token's record starts with "ASC00", contains "U+" and names the checker class |
| AsciiValidator.RecordShape | tests/test_ascii_validator.py:123-131 | every record of a run starts with "ASC00", contains "U+" and names the checker class |
| AsciiValidator.NewChecker | flake8_ascii_validator.py:26-39 | the constructor stores the file name, and stores the tokens, or an empty list when none are given |
| AsciiValidator.Run | flake8_ascii_validator.py:41-48 | a run yields at most one record per token, and none exactly when no token is flagged |
| AsciiValidator.AsciiCheckerFactory | flake8_ascii_validator.py:165-167 | the factory calls the constructor with its last two arguments swapped: it stores the file name, and the tokens or an empty list when none are given |
| AsciiValidator.NoTokensNoRecords | flake8_ascii_validator.py:38 | a checker built without tokens, or with an empty list, reports nothing |
| AsciiValidator.AsciiTokensNoRecords | tests/test_ascii_validator.py:37-46 | all-ASCII input yields no record |
| HexFormat.DigitChar | flake8_ascii_validator.py:74 | each digit value below 16 has an upper-case digit that denotes it |
| HexFormat.Hex | flake8_ascii_validator.py:74 | `format(n, 'X')`; its contract is HexSpec below |
| HexFormat.HexSpec | flake8_ascii_validator.py:74 | `format(n, 'X')` is an upper-case numeral that denotes n, with a leading 0 only for n = 0 |
| HexFormat.Format04X | flake8_ascii_validator.py:74 | `format(n, '04X')`; its contract is Format04XSpec below |
| HexFormat.Format04XSpec | flake8_ascii_validator.py:74 | `format(n, '04X')` is an upper-case numeral that denotes n, four digits long or exactly as long as `format(n, 'X')` when that is longer, never with a leading zero beyond width four |
| HexFormat.LeadingZerosValue | flake8_ascii_validator.py:74 | zero padding does not change the value |
| HexFormat.HexLength | flake8_ascii_validator.py:74 | `format(n, 'X')` has at most k digits exactly when n < 16^k |
| HexFormat.Format04XWidth | flake8_ascii_validator.py:74 | a codepoint is written with 4 digits up to U+FFFF, 5 digits up to U+FFFFF and 6 digits above |
| AsciiScenarios.EAcuteCodepoint | tests/test_ascii_validator.py:206-213 | 'é' is written U+00E9 |
| AsciiScenarios.WideCodepoint | flake8_ascii_validator.py:74 | U+1F600 keeps its five digits |
| AsciiScenarios.CafeComment | flake8_ascii_validator.py:66-76 | the comment "# café" at (1, 0) yields exactly one ASC003 record at column 5 |
| AsciiScenarios.CafeMessage | flake8_ascii_validator.py:24 | the message for 'é' in a comment is exactly "ASC003 Non-ASCII character found in comment" followed by " Non-ASCII character 'é' (U+00E9) found in comment" |
| AsciiScenarios.Asc001Text | flake8_ascii_validator.py:22 | the ASC001 constant equals the source's literal |
| AsciiScenarios.Asc002Text | flake8_ascii_validator.py:23 | the ASC002 constant equals the source's literal |
| AsciiScenarios.Asc003Text | flake8_ascii_validator.py:24 | the ASC003 constant equals the source's literal |
| AsciiScenarios.CafeReport | flake8_ascii_validator.py:73-74 | the part of that message after the constant, spelled out |
| AsciiScenarios.MultiLineString | flake8_ascii_validator.py:94-96 | a triple-quoted string starting at (2, 4), with a newline before its 'é', is reported at line 2, column 4 + 7 |
| AsciiScenarios.NameReported | tests/test_ascii_validator.py:206-213 | the name `variablé` at (1, 0) yields an ASC001 record at column 7 |
| AsciiScenarios.CommentReported | tests/test_ascii_validator.py:206-213 | the comment `# é has code point U+00E9` at (1, 19) yields an ASC003 record at column 21 |
| AsciiScenarios.AsciiTokensSilent | tests/test_ascii_validator.py:206-213 | `=`, `"test"`, NEWLINE and ENDMARKER yield nothing |
| AsciiScenarios.NameAndComment | tests/test_ascii_validator.py:206-213 | the line `variablé = "test"  # é has code point U+00E9` yields exactly the name's record and then the comment's |
| AsciiScenarios.PrefixScenarios | tests/test_ascii_validator.py:90-103 | r"Héllo" and u"Wørld" yield nothing; R' and B" are exempt too; rb", f" and a bare quote are not |
| AsciiScenarios.EncodingNeverReported | flake8_ascii_validator.py:109-111 | an ENCODING token yields nothing, whatever its text |

## Left out

- The `tokenize` module, which produces the tokens, is not part of this model. The token list is an input.
- The `tree` argument of the constructor and of the factory is accepted and never read. It is a type parameter.
- The AST-based check in the comment block after the class, which is never called, is not modelled.
- Generator laziness: `run()` is the full sequence of records it would yield, in order.
- Records hold the checker class as a value, `CheckerClass(name, version)`, standing in for `type(self)`.
- Python strings can hold lone surrogates (U+D800 to U+DFFF). Dafny characters are Unicode scalar values, so such tokens cannot be expressed.
- Lower: only A to Z are lowercased. No other character lowercases to a string that begins with r, u, b or a quote, so the two-character prefix test gives the same answer as Python's full `str.lower()`.
- The constructor's `file_tokens or []` is modelled on an optional list: `None` and an empty list both give an empty list, as in the source. Other falsy values are not modelled.
- Lines and columns are unbounded natural numbers.
- Token tags: tokens are not required to be well tagged. A token written as `Other("ENCODING")`, `Other("COMMENT")` or `Other("STRING")` goes to the general scan, which no token of those types from tokenize would reach.
