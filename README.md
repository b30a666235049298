# tilecutter core, modelled in Dafny

tilecutter cuts terrain images into a hexagonal tile sheet and keeps a Godot
`TileSet` resource (`.tres` file) in step with it. This project models the
parts of the tool that are pure logic:

- **The `.tres` text format** (`src/godot/godot_file.rs`).
  - A byte tokenizer with a one-byte pushback slot. It is a class over the input
    bytes, with a cursor and an `Option` slot.
  - The four-state number scanner.
  - The recursive-descent readers for tags, `path = value` assigns and values.
  - The digit-by-digit `i64` renderer, which fills an array in a countdown loop.
  - The tag and document writer.
  - Every imperative reader is proved to agree with a declarative reading
    function over byte sequences. That function returns the value read together
    with the bytes still to be read.
  - Lemmas about these functions state what the format accepts and rejects, and
    that written integers, plain strings and assign lines read back unchanged.
- **The resource mapper** (`src/godot/resource.rs`).
  - The schema check that turns a parsed document into a `TileSetResource`.
  - The inverse direction, which builds tags from a `TileSetResource`,
    including the per-tile assigns.
  - The loops are proved equal to a declarative description of the accepted
    documents.
  - The printed tags are proved to read back to the same uid, the same texture,
    and the same atlas id and texture reference. The atlas region size and tiles
    are not read back, because the reader does not read them.
- **The terrain helpers** (`src/terrain.rs`).
  - The terrains an edge needs, the side-to-peering mapping and the terrain
    name lookup.
  - Image availability for a combination, and the image search.
  - The search over all combinations of each terrain set.
  - The sub-image rule, and the file-stem split.
- **The tile-sheet layout** (`src/main.rs`).
  - The `res://` rule.
  - The sizing loops, and the placement of fixed tiles and then terrain tiles.

Bytes are `byte` (0..255), and Rust `String`s built with `c as char` become
Dafny strings through `Latin1`. Errors are a small `Error` enum instead of
`anyhow` messages.

The `f64` shortest-text formatter (`ryu`) is a function parameter `ryu`, so
nothing here depends on how it renders a number.

## Model

| member | source | states |
|---|---|---|
| Common.Latin1 | src/godot/godot_file.rs:542 | a byte pushed as `c as char` is the character with the same code |
| Common.TruncateU32 | src/main.rs:150-151 | `as u32` keeps every value below 2^32 unchanged |
| Common.AsciiBytes | src/godot/godot_file.rs:381-385 | the UTF-8 bytes of ASCII text: one byte per character, same codes |
| Common.AsciiBytesAppend | src/godot/godot_file.rs:381-385 | the bytes of a concatenation are the concatenation of the bytes |
| Common.IndexOf | src/godot/godot_file.rs:374 | the first position holding the byte, or the length when there is none |
| Common.Position | src/terrain.rs:257 | `iter().find`: the first index holding the element, or `None` exactly when there is none |
| GodotData.FindField | src/godot/godot_file.rs:26-30 | `find` on fields: `Some` exactly when some field has the key, and then the first such field |
| Decimal.Pow10 | src/godot/godot_file.rs:622 | powers of ten are at least 1 |
| Decimal.DigitValue | src/godot/godot_file.rs:627 | a digit byte has a value below 10 |
| Decimal.DigitByte | src/godot/godot_file.rs:689 | `b'0' + modulus` is a digit byte whose value is `modulus` |
| Decimal.AllDigitsAppend | src/godot/godot_file.rs:622 | digit texts stay digit texts when joined |
| Decimal.TruncDiv | src/godot/godot_file.rs:667 | Rust's `/` on `i64`: it truncates toward zero, for either sign |
| Decimal.TruncRem | src/godot/godot_file.rs:682 | Rust's `%`: `a == b*q + r` with `q` truncated, and the remainder takes the sign of `a` |
| Decimal.DigitCount | src/godot/godot_file.rs:665-673 | the count loop runs at least once |
| Decimal.NatDigits | src/godot/godot_file.rs:679-697 | the base-10 digits of `n`: `DigitCount(n)` digit bytes |
| Decimal.NatDigitsValue | src/godot/godot_file.rs:679-697 | the digits read back as `n` |
| Decimal.DecimalString | src/godot/godot_file.rs:658-705 | the rendered text as a string: same length and characters as its bytes |
| Decimal.CanonicalLeadingDigit | src/godot/godot_file.rs:658-705 | a digit text with no leading zero and more than one digit is at least 10^(length-1) |
| Decimal.NatDigitsCanonical | src/godot/godot_file.rs:658-705 | the digits have no leading zero, and start with `0` only for zero |
| Decimal.CanonicalIsNatDigits | src/godot/godot_file.rs:658-705 | a canonical digit text is the rendering of its own value, so the rendering is unique |
| Decimal.DecimalBytes | src/godot/godot_file.rs:658-705 | the text the `i64` renderer writes: `-` for a negative value, then the base-10 digits of the magnitude |
| Decimal.DecimalBytesIsStandard | src/godot/godot_file.rs:658-705 | standard base-10 text: `-` exactly for negatives; length is the digit count plus one if negative; no leading zeros; `0` exactly for zero; value is `abs(n)` (including `i64::MIN`) |
| Decimal.ParseI64 | src/godot/godot_file.rs:625-628 | `parse::<i64>`: an optional `+` or `-`, at least one digit and nothing else, and a value inside the `i64` range; `None` otherwise |
| Decimal.ParseNegative | src/godot/godot_file.rs:627 | `parse::<i64>` reads `-digits` as the negated value when it is in range |
| Decimal.ParseNonNegative | src/godot/godot_file.rs:627 | `parse::<i64>` reads digits as their value when it is in range |
| Decimal.DecimalBytesParses | src/godot/godot_file.rs:627 | parsing the rendered text of any `i64` gives the same `i64` |
| FloatText.ParseF64 | src/godot/godot_file.rs:620-623 | `parse::<f64>` on the scanned texts: an optional sign, a mantissa with at least one digit and at most one `.`, an optional exponent with at least one digit; the value is the exact decimal |
| LexerSpec.SkipComment | src/godot/godot_file.rs:496-502 | a comment runs to the end of the line; what follows is strictly shorter |
| LexerSpec.LexColor | src/godot/godot_file.rs:506-521 | an `Html` colour: end of file inside it yields no token and an empty rest |
| LexerSpec.LexString | src/godot/godot_file.rs:522-551 | a string literal, when read, yields a token and consumes at least the closing quote |
| LexerSpec.ScanNumber | src/godot/godot_file.rs:576-616 | the number state machine consumes part of its input |
| LexerSpec.NumberScan | src/godot/godot_file.rs:561-618 | the scan started at `-` or a digit consumes part of its input |
| LexerSpec.LexNumber | src/godot/godot_file.rs:552-630 | a number literal, when read, is a token |
| LexerSpec.LexIdentifier | src/godot/godot_file.rs:632-645 | an identifier is always read, and the rest is a suffix of the input |
| LexerSpec.LexToken | src/godot/godot_file.rs:488-649 | one token from its first byte; no token only at end of file |
| LexerSpec.Lex | src/godot/godot_file.rs:482-652 | `next_token`: a token consumes at least one byte; `None` exactly leaves nothing to read |
| NumberLexing.AppendOther | src/godot/godot_file.rs:614 | pushing a different byte keeps "at most one `b`" |
| NumberLexing.AppendFirst | src/godot/godot_file.rs:614 | pushing into a text without `b` leaves at most one `b` |
| NumberLexing.StepKeepsInv | src/godot/godot_file.rs:577-614 | one step of the state machine keeps the scanner invariant (float flag, single `.` and `e`, signs right after `e`) |
| NumberLexing.ScanNumberFacts | src/godot/godot_file.rs:576-618 | the scan splits the input into literal + rest; the rest never starts with a digit; float exactly when `.` or `e` was scanned; at most one `.` and one `e`; a sign only right after `e` |
| NumberLexing.DigitContinues | src/godot/godot_file.rs:579-599 | a digit never ends the literal |
| NumberLexing.ScanNumberText | src/godot/godot_file.rs:576-618 | the literal and the rest are the input split in two; the rest does not start with a digit |
| NumberLexing.ScanNumberShape | src/godot/godot_file.rs:572-606 | float exactly when `.` or `e` was scanned; at most one `.` and one `e`; signs only right after `e` |
| NumberLexing.OneExponentSign | src/godot/godot_file.rs:602-604 | the exponent takes at most one sign |
| NumberLexing.LexNumberKind | src/godot/godot_file.rs:552-630 | `Double` exactly when `.` or `e` was scanned, otherwise `Integer`; the first byte that cannot extend the literal stays unread; a failed parse is the error of the scanned kind |
| IntegerLexing.ScanDigits | src/godot/godot_file.rs:578-589 | digits in the integer state are all taken, up to a byte that ends an integer |
| IntegerLexing.ScanIntegerText | src/godot/godot_file.rs:561-618 | the rendered text of an `i64`, followed by a non-number byte, scans as exactly that text, not float |
| IntegerLexing.ScanNegative | src/godot/godot_file.rs:564-567 | `-digits` scans as itself |
| IntegerLexing.ScanNonNegative | src/godot/godot_file.rs:569 | `digits` scans as themselves |
| IntegerLexing.LexNumberIntegerText | src/godot/godot_file.rs:552-630 | the number reader turns a rendered `i64` into `Integer` of the same value |
| IntegerLexing.LexIntegerText | src/godot/godot_file.rs:482-705 | re-tokenizing the rendered text of any `i64` yields `Integer` of the same value and leaves the rest unread |
| StringLexing.StringText | src/godot/godot_file.rs:537-549 | the kept characters of a literal body are never more than its bytes |
| StringLexing.StringTextAppend | src/godot/godot_file.rs:537-549 | the kept text of joined bytes is the joined kept text |
| StringLexing.QuotedLiteralStep | src/godot/godot_file.rs:537-549 | a byte other than `"` is kept verbatim (escapes included), except that a `\n` byte is dropped |
| StringLexing.LexStringBody | src/godot/godot_file.rs:522-551 | the string reader equals the closed form: bytes up to the first `"`, with `\n` dropped; end of file first is an error |
| StringLexing.LexPlainString | src/godot/godot_file.rs:522-524 | a `"` starts a plain string literal |
| StringLexing.LexNameString | src/godot/godot_file.rs:525-533 | `@"` and `&"` start a name literal |
| StringLexing.LexMissingQuote | src/godot/godot_file.rs:525-533 | `@` or `&` not directly followed by `"` is an error |
| LexDispatch.LexIsLexToken | src/godot/godot_file.rs:482-494 | a first byte above 32 that is not `;` decides the token |
| LexDispatch.LexTokenAtNumber | src/godot/godot_file.rs:552 | `-` or a digit starts a number |
| LexDispatch.LexTokenAtQuote | src/godot/godot_file.rs:522-533 | `"`, `@` and `&` start the string readers, or the missing-quote error |
| LexDispatch.LexAtNumber | src/godot/godot_file.rs:552 | `next_token` at `-` or a digit is the number reader |
| LexDispatch.LexAtQuote | src/godot/godot_file.rs:522-533 | `next_token` at a quote character is the string reader |
| Lexer.ScanNumberUnfold | src/godot/godot_file.rs:576-616 | one loop turn: a byte that ends the literal stays unread, any other is appended |
| Lexer.Tokenizer.constructor | src/godot/godot_file.rs:17-20 | a tokenizer over the bytes, with an empty pushback slot |
| Lexer.Tokenizer.NextByte | src/godot/godot_file.rs:467-475 | takes the saved byte first, else the next input byte; `None` exactly at end of input; the slot is empty afterwards |
| Lexer.Tokenizer.SaveByte | src/godot/godot_file.rs:477-480 | the byte is put back in front of the remaining input |
| Lexer.Tokenizer.SkipCommentBytes | src/godot/godot_file.rs:496-502 | agrees with `SkipComment` on the remaining input |
| Lexer.Tokenizer.ReadColor | src/godot/godot_file.rs:506-521 | agrees with `LexColor`; the byte after the colour sits in the pushback slot |
| Lexer.Tokenizer.ReadString | src/godot/godot_file.rs:522-551 | agrees with `LexString` |
| Lexer.Tokenizer.ScanLiteral | src/godot/godot_file.rs:561-618 | the loop produces the literal and float flag of `ScanNumber`; the first unread byte is in the pushback slot |
| Lexer.Tokenizer.ReadNumber | src/godot/godot_file.rs:552-630 | agrees with `LexNumber`; the byte that ended the literal is in the pushback slot |
| Lexer.Tokenizer.ReadIdentifier | src/godot/godot_file.rs:632-645 | agrees with `LexIdentifier`; the byte after it is pushed back |
| Lexer.Tokenizer.NextToken | src/godot/godot_file.rs:482-652 | agrees with `Lex` on the remaining input: same token or error, same bytes left |
| GrammarSpec.Expect | src/godot/godot_file.rs:237-241 | a required token consumes at least one byte |
| GrammarSpec.ArgsLoop | src/godot/godot_file.rs:305-323 | the argument loop consumes input |
| GrammarSpec.ArgValue | src/godot/godot_file.rs:305-323 | one argument consumes input |
| GrammarSpec.ParseArgs | src/godot/godot_file.rs:296-359 | a constructor argument list consumes input |
| GrammarSpec.ResourceId | src/godot/godot_file.rs:243-256 | `("id")` consumes input |
| GrammarSpec.NamedValue | src/godot/godot_file.rs:211-284 | the value after an identifier leaves a suffix of the input |
| GrammarSpec.ParseValue | src/godot/godot_file.rs:209-294 | a value consumes at least one byte |
| GrammarSpec.TagFields | src/godot/godot_file.rs:79-112 | the field loop consumes at least the closing `]` |
| GrammarSpec.ParseTag | src/godot/godot_file.rs:63-119 | no tag only with nothing left; a tag consumes input and has no assigns yet |
| GrammarSpec.ParseAssign | src/godot/godot_file.rs:152-191 | an assign consumes input; the rest is a suffix |
| GrammarSpec.AssignsLoop | src/godot/godot_file.rs:39-43 | the assign loop leaves a suffix of the input |
| GrammarSpec.TagsLoop | src/godot/godot_file.rs:37-46 | the outer loop of `parse_file`: each tag, then its assigns, until no tag is left |
| GrammarSpec.ParseFile | src/godot/godot_file.rs:11-49 | `parse_file`: the header tag (an empty file is an error), the check that a first `format` field is `Integer(3)`, then the other tags with their assigns |
| Parser.Expect | src/godot/godot_file.rs:237-241 | agrees with `GrammarSpec.Expect` on the tokenizer's remaining input |
| Parser.ParseArgs | src/godot/godot_file.rs:296-359 | the loop pushing into `args` agrees with `GrammarSpec.ParseArgs` |
| Parser.ResourceId | src/godot/godot_file.rs:243-256 | agrees with `GrammarSpec.ResourceId` |
| Parser.NamedValue | src/godot/godot_file.rs:211-284 | agrees with `GrammarSpec.NamedValue` |
| Parser.ParseValue | src/godot/godot_file.rs:209-294 | agrees with `GrammarSpec.ParseValue` |
| Parser.ParseTag | src/godot/godot_file.rs:63-119 | agrees with `GrammarSpec.ParseTag` |
| Parser.ParseFields | src/godot/godot_file.rs:79-112 | the field loop agrees with `GrammarSpec.TagFields` |
| Parser.ParseAssign | src/godot/godot_file.rs:152-191 | the loop over `what` agrees with `GrammarSpec.ParseAssign` |
| Parser.ParseFile | src/godot/godot_file.rs:11-49 | the result is exactly `GrammarSpec.ParseFile` of the bytes |
| GrammarFacts.ParseTagNone | src/godot/godot_file.rs:64-68 | no tag exactly when end of file comes before any token |
| GrammarFacts.ParseTagRejects | src/godot/godot_file.rs:64-74 | any first token other than `[` is an error; `[` then end of file is an error |
| GrammarFacts.ParseTagName | src/godot/godot_file.rs:70-112 | a tag's name is exactly the identifier after `[`, and its fields are what the field loop reads |
| GrammarFacts.TagFieldsExtends | src/godot/godot_file.rs:111 | the field loop only appends fields |
| GrammarFacts.TagFieldsRejects | src/godot/godot_file.rs:79-106 | end of file inside a tag, a `.` or `:` after the name, and an identifier without `=` are all errors |
| GrammarFacts.VectorArity | src/godot/godot_file.rs:218-226 | `Vector2i` succeeds exactly with 2 integer arguments, and holds them in order |
| GrammarFacts.ColorArity | src/godot/godot_file.rs:227-235 | `Color` succeeds exactly with 4 numeric arguments, and holds them in order |
| GrammarFacts.ArgumentKinds | src/godot/godot_file.rs:305-356 | an integer widens to a float in `Color`; a double is refused in `Vector2i` |
| GrammarFacts.EmptyArguments | src/godot/godot_file.rs:296-359 | `()` gives no arguments, and so an arity error for both constructors |
| GrammarFacts.ArgsExtend | src/godot/godot_file.rs:305-323 | the argument loop only appends |
| GrammarFacts.ArgValueExtends | src/godot/godot_file.rs:305-323 | one argument step only appends |
| GrammarFacts.ResourceReference | src/godot/godot_file.rs:236-282 | `SubResource` and `ExtResource` succeed exactly with one string argument in parentheses, and hold it |
| GrammarFacts.UnknownIdentifier | src/godot/godot_file.rs:284 | any other identifier is an unsupported value |
| GrammarFacts.ValueAtEnd | src/godot/godot_file.rs:292 | end of file where a value is expected is an error |
| GrammarFacts.PathText | src/godot/godot_file.rs:188 | path bytes become characters of the same codes |
| GrammarFacts.DropsControl | src/godot/godot_file.rs:186-187 | bytes up to 32 are dropped from the path |
| GrammarFacts.PathAppends | src/godot/godot_file.rs:188 | other path bytes are appended to the path |
| GrammarFacts.AssignAtEqual | src/godot/godot_file.rs:180-185 | `=` ends the path and reads the value |
| GrammarFacts.AssignLine | src/godot/godot_file.rs:152-191 | `path = value` with spaces around the path reads as that path and the value read after `=` |
| GrammarFacts.NextTagPushedBack | src/godot/godot_file.rs:168-171 | a `[` with an empty path is pushed back and ends the assigns |
| GrammarFacts.QuotedPathReplaces | src/godot/godot_file.rs:172-179 | a quoted string replaces the path read so far |
| GrammarFacts.SkipCommentSuffix | src/godot/godot_file.rs:161-167 | skipping a comment leaves a suffix of the input |
| GrammarFacts.NoAssignWithoutEqual | src/godot/godot_file.rs:156-158 | without `=` or `"` ahead, the reader yields no assign: end of file drops a partial path |
| GrammarFacts.EmptyFileRejected | src/godot/godot_file.rs:22-24 | a file with no header tag is an error |
| GrammarFacts.FormatGate | src/godot/godot_file.rs:26-34 | a header without `format` is accepted; a `format` other than `Integer(3)` is rejected |
| GrammarFacts.ParsedHeader | src/godot/godot_file.rs:22-34 | a parsed file's header is the first tag, and its format passed the gate |
| Writer.Utf8Char | src/godot/godot_file.rs:381-385 | one to four bytes per character; one byte, the same code, exactly for ASCII |
| Writer.Utf8 | src/godot/godot_file.rs:381-385 | UTF-8 text is at least as long as the string |
| Writer.Utf8Ascii | src/godot/godot_file.rs:381-385 | ASCII strings are written as their bytes |
| Writer.Utf8Append | src/godot/godot_file.rs:381-385 | encoding distributes over concatenation |
| Writer.TrimEndMatches | src/godot/godot_file.rs:727-732 | `trim_end_matches`: a prefix of the input that no longer ends in the pattern, and what was removed is copies of the pattern |
| Common.RepeatsAppend | src/godot/godot_file.rs:727-732 | copies of a pattern stay copies when one more is appended |
| Writer.FormatF64 | src/godot/godot_file.rs:707-735 | `rtos_fix`: `0` for zero, `nan`, `inf`, `neg_inf`, and otherwise the `ryu` text with trailing `.0`s removed |
| Writer.FormatDouble | src/godot/godot_file.rs:368-379 | a double's text, with `.0` appended unless it holds a `.` or an `e` or is `inf`, `inf_neg` or `nan` |
| Writer.DoubleTextIsFloat | src/godot/godot_file.rs:707-735 | a written double contains `.` or `e`, or is `inf` or `nan` |
| Writer.FormatValue | src/godot/godot_file.rs:362-395 | each kind of value as Godot writes it; strings go between quotes unescaped |
| Writer.FormatTag | src/godot/godot_file.rs:122-140 | `[name`, ` identifier=value` per field, `]` and a newline, then one `path = value` line per assign |
| Writer.Document | src/godot/godot_file.rs:742-752 | the header tag, then each further tag after an empty line |
| Writer.DocumentSnoc | src/godot/godot_file.rs:747-752 | each further tag is written after an empty line |
| Writer.FieldsTextSnoc | src/godot/godot_file.rs:125-128 | each field adds ` identifier=value` |
| Writer.AssignsTextSnoc | src/godot/godot_file.rs:131-135 | each assign adds `path = value` and a newline |
| Writer.TruncByTen | src/godot/godot_file.rs:667-682 | truncating division and remainder by ten act on the magnitude |
| Writer.CountTurn | src/godot/godot_file.rs:666-673 | one turn of the count loop counts one digit |
| Writer.DigitTurn | src/godot/godot_file.rs:681-697 | one turn of the fill loop yields the last digit of the magnitude |
| Writer.CountChars | src/godot/godot_file.rs:662-677 | the count loop gives the digit count, plus one for a sign |
| Writer.SignedDigits | src/godot/godot_file.rs:699-701 | a `-` over the first slot and the digits after it make the standard text |
| Writer.StoreDigit | src/godot/godot_file.rs:684-690 | one store puts the next digit in place and keeps the stored ones |
| Writer.FillDigits | src/godot/godot_file.rs:679-697 | the countdown loop fills the array with the digits of the magnitude |
| Writer.FormatI64 | src/godot/godot_file.rs:658-705 | the renderer writes the standard base-10 text of the value |
| Writer.WriteValue | src/godot/godot_file.rs:362-394 | writes the text of the value |
| Writer.WriteFields | src/godot/godot_file.rs:125-128 | the field loop writes every field in order |
| Writer.WriteAssigns | src/godot/godot_file.rs:131-135 | the assign loop writes every assign in order |
| Writer.WriteTagText | src/godot/godot_file.rs:122-139 | `[name`, the fields, `]` and a newline, then the assign lines |
| Writer.GodotWriter.PutTag | src/godot/godot_file.rs:122-139 | appends the tag's text and nothing else |
| Writer.GodotWriter.Begin | src/godot/godot_file.rs:742-745 | a new writer has written the header tag and nothing else |
| Writer.GodotWriter.WriteTag | src/godot/godot_file.rs:747-752 | appends an empty line and then the tag |
| Writer.WriteDocument | src/godot/godot_file.rs:742-752 | the header, then each tag after an empty line, in order |
| ValueRoundTrip.StringTextOfPlain | src/godot/godot_file.rs:537-549 | ASCII text without `"` or newline survives a string literal body unchanged |
| ValueRoundTrip.ValueAfterSpace | src/godot/godot_file.rs:647 | a byte up to 32 in front of a value is skipped |
| ValueRoundTrip.IntegerReadsBack | src/godot/godot_file.rs:209-294 | a written integer value reads back as the same integer |
| ValueRoundTrip.StringReadsBack | src/godot/godot_file.rs:522-551 | a written plain string value reads back as the same string |
| ValueRoundTrip.QuotedText | src/godot/godot_file.rs:381 | a string value is written as its bytes between quotes |
| ValueRoundTrip.PlainLiteral | src/godot/godot_file.rs:537-549 | a literal body of plain text ends at the quote after it |
| ValueRoundTrip.NoQuoteByte | src/godot/godot_file.rs:381 | plain text writes no `"` byte |
| ValueRoundTrip.StringToken | src/godot/godot_file.rs:288 | a string token is a string value |
| ValueRoundTrip.PathTextOfAscii | src/godot/godot_file.rs:188 | the bytes of an ASCII path read back as the same path |
| ValueRoundTrip.AssignReadsBack | src/godot/godot_file.rs:131-191 | a written `path = value` line reads back as the same assign when the value reads back; the newline stays unread |
| ValueRoundTrip.IntegerAssignReadsBack | src/godot/godot_file.rs:131-191 | an assign line of an integer reads back |
| ValueRoundTrip.StringAssignReadsBack | src/godot/godot_file.rs:131-191 | an assign line of a plain string reads back |
| Resource.TextureFromTag | src/godot/resource.rs:209-270 | the `ext_resource` description: only `type`, `uid`, `path` and `id` string fields, a type of `Texture2D` that must be present, and non-empty final uid, path and id |
| Resource.AtlasFromTag | src/godot/resource.rs:282-341 | the `sub_resource` description: only `type` and `id` string fields, a type of `TileSetAtlasSource` that must be present, every `texture` assign an `ExtResource`, a non-empty id and texture; region (0, 0) and no tiles |
| Resource.BodyFromTags | src/godot/resource.rs:34-64 | only `ext_resource`, `sub_resource` and `resource` tags, exactly one well-formed `ext_resource` and one well-formed `sub_resource` |
| Resource.ResourceFromFile | src/godot/resource.rs:17-71 | a `gd_resource` header whose first `uid` field is a string, and a valid body |
| Resource.HasFieldSnoc | src/godot/resource.rs:209-270 | the fields seen so far include `key` exactly when an earlier or this field has it |
| Resource.LastStringSnoc | src/godot/resource.rs:231-248 | a later string field for the key overwrites the stored value |
| Resource.LastTextureSnoc | src/godot/resource.rs:310-321 | a later `texture` assign overwrites the stored id |
| Resource.NamedSnoc | src/godot/resource.rs:37-56 | tags with the name, collected in file order |
| Resource.NamedPrefix | src/godot/resource.rs:37-56 | the named tags of a prefix come first among all named tags |
| Resource.NamedAppend | src/godot/resource.rs:37-56 | named tags of joined lists are the joined named tags |
| Resource.TwoNamed | src/godot/resource.rs:37-56 | two tags with the name count twice |
| Resource.DuplicateResourceRejected | src/godot/resource.rs:39-52 | a second `ext_resource` or `sub_resource` is an error |
| Resource.UnknownTagRejected | src/godot/resource.rs:54 | any tag name other than the three known ones is an error |
| Resource.MissingResourceRejected | src/godot/resource.rs:58-64 | a missing `ext_resource` or `sub_resource` is an error |
| Resource.NamedNone | src/godot/resource.rs:37-56 | no tag with the name means no named tags |
| Resource.NamedInsert | src/godot/resource.rs:37-56 | inserting a tag with another name changes no named list |
| Resource.KnownInsert | src/godot/resource.rs:37-56 | inserting a known tag keeps all tags known exactly when they were |
| Resource.ResourceTagIgnored | src/godot/resource.rs:53 | inserting a `resource` tag anywhere does not change the result: any number is tolerated |
| Resource.TextureLastFieldWins | src/godot/resource.rs:231-248 | a later non-empty `uid`, `path` or `id` replaces the earlier one |
| Resource.AtlasOtherAssignIgnored | src/godot/resource.rs:310-321 | assigns other than `texture` are ignored |
| Resource.HeaderChecked | src/godot/resource.rs:17-32 | an accepted file has a `gd_resource` header whose first `uid` field is a string, and that is the result's uid |
| Resource.TextureFieldRejected | src/godot/resource.rs:218-251 | an unknown field, a non-string field or a `type` other than `"Texture2D"` is an error |
| Resource.EmptyValueMissing | src/godot/resource.rs:257-267 | an empty final `uid`, `path` or `id` counts as missing |
| Resource.NoTextureAssign | src/godot/resource.rs:310-321 | with no `texture` assign, no texture is found |
| Resource.AtlasNeedsTexture | src/godot/resource.rs:331-333 | an atlas tag without a `texture` assign is an error |
| Resource.AtlasTextureKind | src/godot/resource.rs:312-315 | a `texture` that is not an `ExtResource` is an error |
| Resource.TextureInitFromTag | src/godot/resource.rs:209-270 | the field loop computes `TextureFromTag` |
| Resource.AtlasInitFromTag | src/godot/resource.rs:282-341 | the field and assign loops compute `AtlasFromTag`, with region size (0,0) and no tiles |
| Resource.NamedSkip | src/godot/resource.rs:37-56 | a tag with another name leaves the named list as it was |
| Resource.NamedHit | src/godot/resource.rs:37-56 | a tag with the name joins the named list, and the first such tag heads it |
| Resource.TextureSlotSkip | src/godot/resource.rs:46-53 | other tags leave the texture slot as it was |
| Resource.AtlasSlotSkip | src/godot/resource.rs:39-53 | other tags leave the atlas slot as it was |
| Resource.TextureSlotFill | src/godot/resource.rs:39-41 | the first `ext_resource` fills the slot, or its error is the file's error |
| Resource.AtlasSlotFill | src/godot/resource.rs:46-48 | the first `sub_resource` fills the slot, or its error is the file's error |
| Resource.SlotTaken | src/godot/resource.rs:42-50 | a second tag for a filled slot is an error |
| Resource.ReadTag | src/godot/resource.rs:38-55 | one turn of the tag loop keeps both slots in step with the tags seen, or fails as the whole body does |
| Resource.ReadTags | src/godot/resource.rs:34-64 | the tag loop computes `BodyFromTags` |
| Resource.InitFromFile | src/godot/resource.rs:17-71 | `init_from_file` computes `ResourceFromFile` |
| ResourceWriting.Entry | src/godot/resource.rs:361-415 | an optional entry is pushed exactly when its value is `Some` |
| ResourceWriting.TileAssigns | src/godot/resource.rs:353-416 | `x:y/0 = 0`, then one entry per value the tile has: terrain set, terrain, then the six sides in their fixed order |
| ResourceWriting.TileAssignsCount | src/godot/resource.rs:353-416 | a tile appends 1 + (number of `Some` values) entries; the first is `"{x}:{y}/0" = 0` |
| ResourceWriting.DecimalStringStart | src/godot/resource.rs:354 | a tile path starts with a digit or `-` |
| ResourceWriting.UnderConcat | src/godot/resource.rs:353-416 | entries under one path stay so when joined |
| ResourceWriting.EntryUnder | src/godot/resource.rs:361-415 | an optional entry's path extends the tile path |
| ResourceWriting.TileAssignsUnder | src/godot/resource.rs:353-416 | every entry of a tile lies under the tile's path |
| ResourceWriting.TileAssignsPaths | src/godot/resource.rs:353-416 | no tile entry is a `texture` assign |
| ResourceWriting.PushEntry | src/godot/resource.rs:361-415 | appends the entry, leaving earlier ones unchanged |
| ResourceWriting.AppendAssigns | src/godot/resource.rs:353-416 | only appends: the old entries followed by the tile's entries in their fixed order |
| ResourceWriting.TerrainsAssignsCount | src/godot/resource.rs:173-183 | two entries per terrain |
| ResourceWriting.SetsAssignsCount | src/godot/resource.rs:167-184 | the set entries number Σ(1 + 2·terrains) |
| ResourceWriting.HeaderTag | src/godot/resource.rs:74-95 | the `gd_resource` header with `type`, `load_steps` 3, `format` 3 and the stored uid |
| ResourceWriting.ImageTag | src/godot/resource.rs:97-118 | the `ext_resource` tag with type `Texture2D` and the stored uid, path and id |
| ResourceWriting.AtlasTag | src/godot/resource.rs:120-146 | the `sub_resource` tag: its id, the texture and region size assigns, then every tile's entries |
| ResourceWriting.ResourceTag | src/godot/resource.rs:148-189 | the `resource` tag: shape 3, offset axis 1, the tile size, a mode and the terrains of each set, and `sources/0` |
| ResourceWriting.ResourceTagShape | src/godot/resource.rs:148-189 | 4 + Σ(1 + 2·terrains) assigns: `tile_shape=3`, `tile_offset_axis=1`, `tile_size` = region size first, `sources/0 = SubResource(atlas id)` last |
| ResourceWriting.TilesStep | src/godot/resource.rs:144-146 | each tile's block follows the earlier ones |
| ResourceWriting.TerrainsStep | src/godot/resource.rs:173-183 | each terrain adds a `name` entry and a black `color` entry |
| ResourceWriting.SetsStep | src/godot/resource.rs:167-184 | each set's entries follow the earlier sets |
| ResourceWriting.BuildAtlasTag | src/godot/resource.rs:120-146 | the atlas tag loop builds `AtlasTag` |
| ResourceWriting.BuildSetAssigns | src/godot/resource.rs:168-183 | the per-set loop builds that set's entries |
| ResourceWriting.BuildResourceTag | src/godot/resource.rs:148-189 | the nested loops build `ResourceTag` |
| ResourceWriting.PrintToFile | src/godot/resource.rs:73-198 | the written text is the document of the header, `ext_resource`, `sub_resource` and `resource` tags |
| ResourceWriting.TilesAssignsNoTexture | src/godot/resource.rs:144-146 | tile entries never read as a `texture` assign |
| ResourceWriting.LastTextureSkips | src/godot/resource.rs:310-321 | trailing non-`texture` assigns do not change the texture found |
| ResourceWriting.AtlasTagTexture | src/godot/resource.rs:120-146 | the atlas tag's texture reads back as the stored texture |
| ResourceWriting.AssignsOkAfter | src/godot/resource.rs:310-321 | trailing non-`texture` assigns keep the assigns acceptable |
| ResourceWriting.AtlasTagReadsBack | src/godot/resource.rs:120-146 | the printed atlas tag reads back to the same id and texture |
| ResourceWriting.ImageTagReadsBack | src/godot/resource.rs:97-118 | the printed `ext_resource` tag reads back to the same uid, path and id |
| ResourceWriting.NamedOfThree | src/godot/resource.rs:37-56 | the named tags of a three-tag body |
| ResourceWriting.HeaderTagUid | src/godot/resource.rs:74-95 | the header's first `uid` field is the stored uid |
| ResourceWriting.HeaderTagFormat | src/godot/resource.rs:74-95 | the header's `format` field is `Integer(3)`, so it passes the format gate |
| ResourceWriting.PrintedBodyReadsBack | src/godot/resource.rs:34-146 | the printed body tags read back to the same texture and atlas id and texture |
| ResourceWriting.FileFromParts | src/godot/resource.rs:17-71 | a checked header and a valid body make the resource |
| ResourceWriting.PrintedTagsReadBack | src/godot/resource.rs:17-198 | the tags `print_to_file` builds read back to the same uid, texture fields, atlas id and texture reference |
| Terrain.GetTerrainCombination | src/terrain.rs:271-287 | starts with the centre, length 1-3; `[center]` exactly when every present side is the centre; one differing present side gives `[center, other]`; two present sides not both the centre give `[center, s1, s2]` |
| Terrain.SideTerrain | src/terrain.rs:363-368 | `Some` exactly when the side is, holding the terrain index |
| Terrain.SidesToPeeringBit | src/terrain.rs:359-370 | sides 0-5 go to top-left, top, top-right, bottom-right, bottom, bottom-left; each is `Some` exactly when the side is |
| Terrain.FileOrderIsHalfTurn | src/terrain.rs:359-370 | in declaration order the six fields are the sides turned by three |
| Terrain.FirstNamed | src/terrain.rs:295-299 | the index of the first terrain with the name, or `None` exactly when there is none |
| Terrain.FindTerrainFrom | src/terrain.rs:289-305 | the first set at or after `k` holding the name, or `None` exactly when there is none |
| Terrain.FindTerrain | src/terrain.rs:289-305 | the lowest set that holds the name, the first matching terrain in it, both in range; `None` exactly when no set holds it |
| Terrain.SubImageIndex | src/terrain.rs:214-222 | both sides give 3; only the first `1 + index % 2`; only the next `2 - index % 2`; neither skips; always 1-3; longer combinations are unimplemented |
| Terrain.SubImageRowsComplement | src/terrain.rs:214-222 | the two one-sided rows add up to 3 and alternate with the side index |
| Terrain.EdgeUnimplementedIff | src/terrain.rs:209-222 | an edge reaches the unimplemented case exactly when a present side differs from the centre |
| Terrain.Leading | src/terrain.rs:118 | `trim`: the white space at the front |
| Terrain.TrimmedEnd | src/terrain.rs:118 | `trim`: the white space at the back |
| Terrain.Trim | src/terrain.rs:118 | `str::trim`: the part between the leading and the trailing white space |
| Terrain.TrimFacts | src/terrain.rs:118 | a trimmed name is the middle of the part, with only white space cut on both sides |
| Terrain.Split | src/terrain.rs:117 | `split('-')`: at least one part, none holding a `-` |
| Terrain.CountAppend | src/terrain.rs:117 | separator counts add over concatenation |
| Terrain.CountNone | src/terrain.rs:117 | a text without `-` has none |
| Terrain.CountAround | src/terrain.rs:117 | a separator splits the count |
| Terrain.SplitRejoins | src/terrain.rs:117 | joining the parts with `-` gives the stem back |
| Terrain.SplitCount | src/terrain.rs:117 | one more part than separators |
| Terrain.TrimAll | src/terrain.rs:118 | each part trimmed, in order |
| Terrain.TerrainNames | src/terrain.rs:117-124 | 1 to 3 trimmed `-`-separated names, in order; more parts are an error |
| Terrain.TrimNoSeparator | src/terrain.rs:118 | trimming adds no `-` |
| Terrain.TerrainNamesRefused | src/terrain.rs:117-124 | an error exactly when the stem has 3 or more `-`; otherwise one name per part |
| Terrain.ImageTerrainNames | src/terrain.rs:107-124 | skipped exactly when the stem is not ASCII or is `mask`; otherwise the split names |
| Terrain.ExpectedSize | src/terrain.rs:80-85 | the tile width, and 4, 4 or 2 tile heights for 1, 2 or 3 names |
| TerrainCombinations.AnyImage | src/terrain.rs:312-318 | `any` over the images: some image draws exactly the terrains |
| TerrainCombinations.AnyPairFrom | src/terrain.rs:321-334 | the pair loop for one first position |
| TerrainCombinations.AnyTripleFrom2 | src/terrain.rs:337-352 | the triple loop for two fixed positions |
| TerrainCombinations.AnyTripleFrom | src/terrain.rs:337-352 | the triple loop for one first position |
| TerrainCombinations.HasImagesForCombination | src/terrain.rs:307-357 | false for an empty combination; otherwise a single image for element 0, and a 2-image for some ordered pair of distinct positions when the length is 2 or more, and a 3-image for some ordered triple when it is 3 or more |
| TerrainCombinations.HasImagesForSingle | src/terrain.rs:307-357 | one terrain needs only its own image |
| TerrainCombinations.HasImagesForPair | src/terrain.rs:307-357 | two terrains need the first one's image and a transition image in either order |
| TerrainCombinations.MoreImagesKeepCombination | src/terrain.rs:307-357 | more images never lose a combination |
| TerrainCombinations.FindImage | src/terrain.rs:257 | the first image drawing exactly the combination, or `None` exactly when there is none |
| TerrainCombinations.Tagged | src/terrain.rs:262-267 | the image found, paired with the swapped flag |
| TerrainCombinations.Swap | src/terrain.rs:260 | `swap(i, j)` exchanges two entries; `swap(2, 2)` changes nothing |
| TerrainCombinations.FindImageForCombination | src/terrain.rs:253-269 | the slice is unchanged; `Some` exactly when an image draws the combination; the flag is never `true` |
| TerrainCombinations.PrependAll | src/terrain.rs:53-61 | each combination gets the element in front |
| TerrainCombinations.PrependIncreasing | src/terrain.rs:53-61 | a smaller element in front keeps the indices increasing |
| TerrainCombinations.Combinations | src/terrain.rs:55-63 | itertools' `combinations(k)` over the indices: the strictly increasing lists of length `k`, in lexicographic order |
| TerrainCombinations.CombinationsSound | src/terrain.rs:53-61 | `combinations(k)` yields strictly increasing index lists of length `k` in range |
| TerrainCombinations.CombinationsComplete | src/terrain.rs:53-61 | every such list is yielded |
| TerrainCombinations.Ids | src/terrain.rs:56-60 | indices become terrain ids of one set |
| TerrainCombinations.Indices | src/terrain.rs:56-60 | the terrain indices of a combination |
| TerrainCombinations.AcceptedSound | src/terrain.rs:63-68 | kept combinations have images and come from the set |
| TerrainCombinations.LengthsSound | src/terrain.rs:52-69 | kept combinations of one set have images, length below the bound, increasing indices |
| TerrainCombinations.AllCombinations | src/terrain.rs:48-75 | `find_combinations`: set by set, lengths 1 to 7, each candidate kept when it has images |
| TerrainCombinations.AllCombinationsSound | src/terrain.rs:48-75 | every result has length 1-7, comes from one set with strictly increasing indices, and has images |
| TerrainCombinations.AcceptedComplete | src/terrain.rs:63-68 | a candidate with images is kept |
| TerrainCombinations.LengthsComplete | src/terrain.rs:52-69 | every increasing index list with images is found for its set |
| TerrainCombinations.AllCombinationsComplete | src/terrain.rs:48-75 | every qualifying combination is in the result |
| TerrainCombinations.AllCombinationsExactly | src/terrain.rs:48-75 | in the result exactly when from one set with increasing indices, length 1-7, and with images |
| TerrainCombinations.AcceptedStep | src/terrain.rs:63-68 | each candidate is pushed exactly when it has images |
| TerrainCombinations.AllCombinationsStep | src/terrain.rs:50-71 | each set's combinations follow the earlier sets' |
| TerrainCombinations.PushAccepted | src/terrain.rs:63-68 | the candidate loop appends the accepted ones |
| TerrainCombinations.PushSet | src/terrain.rs:52-69 | the length loop appends one set's combinations |
| TerrainCombinations.FindCombinations | src/terrain.rs:48-75 | computes `AllCombinations` |
| TileSheet.Stripped | src/main.rs:95 | the length of the leading copies of the prefix |
| TileSheet.TrimStartMatches | src/main.rs:95 | `trim_start_matches`: a suffix that no longer starts with the prefix, and what was cut is copies of it |
| TileSheet.PathJoin | src/main.rs:95 | `join`: an absolute path replaces the base; the result ends with the path |
| TileSheet.GodotPathToAbsolute | src/main.rs:90-96 | fails exactly when the path does not start with `res://`; otherwise joins the path without its leading `res://` copies |
| TileSheet.GodotPathStripsPrefixes | src/main.rs:90-96 | every leading repetition of `res://` is stripped |
| TileSheet.TrimStartOfRepeats | src/main.rs:95 | trimming copies of the prefix leaves the rest |
| TileSheet.Required | src/main.rs:108-116 | the first loop: the largest side any fixed tile needs |
| TileSheet.RequiredCovers | src/main.rs:108-116 | the first loop ends at the largest side any fixed tile needs |
| TileSheet.NeedBounds | src/main.rs:111-113 | a tile needs `(x+1)·w` and `(y+1)·h` |
| TileSheet.FitAtMost | src/main.rs:118 | a side fits at most `size` tiles |
| TileSheet.CellsGrow | src/main.rs:118-120 | each growth step adds cells |
| TileSheet.Grow | src/main.rs:118-120 | the growth loop ends with enough cells, and grows only while there were too few |
| TileSheet.SheetSize | src/main.rs:104-120 | the sheet side: the required side, grown by the larger tile side until the cells hold every tile |
| TileSheet.SheetSizeFits | src/main.rs:104-120 | `(size/w)·(size/h)` ≥ tiles + terrain tiles, and every fixed tile fits |
| TileSheet.FreeRow | src/main.rs:139-141 | free cells of one row, left of `x` |
| TileSheet.FreeCells | src/main.rs:139-141 | free cells of the rows above `y` |
| TileSheet.FreeRowMember | src/main.rs:139-141 | a cell is in a row's free list exactly when it is left of `x` and unoccupied |
| TileSheet.FreeRowOrder | src/main.rs:139-141 | a row goes left to right |
| TileSheet.FreeCellsMember | src/main.rs:139-141 | a cell is free exactly when it is in the grid and no fixed tile sits there |
| TileSheet.FreeCellsMembers | src/main.rs:139-141 | every free cell, for all cells at once |
| TileSheet.FreeCellsOrder | src/main.rs:139-141 | free cells come in row-major order, `y` outer and `x` inner |
| TileSheet.FixedTile | src/main.rs:131-136 | a fixed tile at its configured position, with no set, no terrain and an empty peering bit |
| TileSheet.FixedTiles | src/main.rs:124-137 | one fixed tile per configured tile, in input order |
| TileSheet.TerrainTileAt | src/main.rs:148-153 | a terrain tile at its cell, with `Some(set)`, `Some(terrain)` and its peering bit |
| TileSheet.Placed | src/main.rs:143-154 | `zip`: as many tiles as the shorter of cells and terrain tiles, each at its cell |
| TileSheet.TakenRowFacts | src/main.rs:141 | the taken cells of a row are occupied and in order |
| TileSheet.TakenCellsFacts | src/main.rs:141 | the taken cells are occupied and distinct |
| TileSheet.RowCount | src/main.rs:139-141 | a row's free and taken cells make up the row |
| TileSheet.GridCount | src/main.rs:139-141 | free and taken cells make up the grid |
| TileSheet.OccupiedLast | src/main.rs:141 | a cell is occupied by the last tile or an earlier one |
| TileSheet.OccupiedSnoc | src/main.rs:141 | the same, for all cells |
| TileSheet.Positions | src/main.rs:141 | the set of occupied cells has at most one per fixed tile |
| TileSheet.DistinctBound | src/main.rs:141 | distinct cells in a set are no more than the set |
| TileSheet.EnoughFreeCells | src/main.rs:118-146 | enough cells overall leave a free cell for every terrain tile |
| TileSheet.CellInside | src/main.rs:139-146 | a cell of the grid lies inside the sheet |
| TileSheet.PlacedSnoc | src/main.rs:143-154 | one more free cell places one more tile while any remain |
| TileSheet.PlaceCell | src/main.rs:139-154 | one cell of the scan: a free cell takes the next terrain tile |
| TileSheet.PlaceRow | src/main.rs:139-154 | one row of the scan |
| TileSheet.PlaceTerrainTiles | src/main.rs:139-154 | appends the terrain tiles placed in the free cells in row-major order |
| TileSheet.FreeCellsInside | src/main.rs:139-146 | free cells lie inside the sheet, so `copy_from` has room |
| TileSheet.PlacedOrder | src/main.rs:139-154 | placed tiles follow the row-major order |
| TileSheet.PlacedWithin | src/main.rs:143-154 | placed tiles lie inside the sheet |
| TileSheet.PlacedAvoids | src/main.rs:139-154 | terrain positions are disjoint from fixed positions |
| TileSheet.FixedWithin | src/main.rs:124-137 | fixed tiles lie inside the sheet |
| TileSheet.SheetLayout | src/main.rs:124-156 | the layout: the fixed tiles at their positions, then the terrain tiles zipped with the free cells in row-major order |
| TileSheet.LayoutShape | src/main.rs:98-157 | length is tiles + terrain tiles; fixed tiles first in order at their positions; every terrain tile carried in order; all inside the sheet; terrain positions distinct and disjoint from fixed ones |
| TileSheet.LayoutParts | src/main.rs:124-154 | the layout is the fixed part followed by the placed part |
| TileSheet.RequiredSide | src/main.rs:108-116 | the first loop computes `Required` |
| TileSheet.GrowSide | src/main.rs:118-120 | the growth loop computes `Grow` |
| TileSheet.PlaceFixedTiles | src/main.rs:124-137 | the fixed-tile loop computes `FixedTiles` |
| TileSheet.WriteTileSetLayout | src/main.rs:98-157 | the image size is `SheetSize` and the layout is `SheetLayout`, whose properties `LayoutShape` states |

## Left out

- File and stream I/O is not modelled.
  - `parse_file` reads from a byte sequence, not from `File::open` with a `BufReader`.
  - `GodotWriter` appends to a byte sequence `out`, not to a `BufWriter` over a file.
  - The PNG save in `main.rs` is not modelled.
- Floating point is not modelled.
  - `str::parse::<f64>` becomes `FloatText.ParseF64`, which reads the literal as an exact decimal, with no rounding and no overflow to infinity.
  - `ryu` shortest formatting is the uninterpreted parameter `ryu`. Only its post-processing is modelled: `trim_end_matches(".0")` and the `.0` that `Value::Double` appends.
- Image work is not modelled.
  - `load_terrain_tiles` is not modelled.
  - The pixel loops and mask colours of `generate_combinations` are not modelled; only its sub-image index rule is.
  - `load_images`' directory walk, image loading and size comparison are not modelled.
  - `load_images`' lookup of the names into terrain ids, and its same-set check, are not modelled; only the stem filter, the split and the expected sizes are.
  - The `copy_from` calls are not modelled, and neither is any of `src/tile.rs`.
- Configuration and the command line are not modelled.
  - The TOML/serde loading, `Args`, `try_run` and `main` are left out.
  - `src/config.rs` is mirrored as plain datatypes in `Config`.
- The itertools adaptors are described as sequences, not re-verified.
  - `combinations(k)` becomes `Combinations`, the increasing index lists in lexicographic order.
  - `permutations(2)` and `permutations(3)` become existential predicates over distinct positions. The flags only accumulate `||`, so the visit order does not matter.
- Error messages become variants of a small `Error` enum; `anyhow` context texts are not kept.
- TileSheet.WriteTileSetLayout: requires a non-zero tile width and height. With a zero tile size, `write_tile_set_image` panics dividing by zero (main.rs:118). The same `requires` is on `Cells`, `Grow`, `GrowSide`, `SheetSize`, `SheetSizeFits`, `SheetLayout`, `FreeCellsInside` and `LayoutShape`.
- TileSheet.WriteTileSetLayout: requires the sheet side to be below 2^32. The `u32` overflow of `image_size` and of the growth product is not modelled.
- Terrain.ExpectedSize: the body wraps the heights as a release build does, but the `ensures` states them only below 2^30 (for one or two names) and 2^31 (for three). The overflow panic of a debug build is not modelled.
- The `as u32` truncation of the tile counts in `total_tiles` (main.rs:104) is not modelled.
- Terrain.IsSpace treats only ASCII white space as white space. Stems are ASCII by then, so this is no loss.
- The tag-name accumulation branches of `Tag::parse` (godot_file.rs:85-97) can never complete a name, because a `.` or `:` token fails the identifier match. They are modelled as the errors they produce; the `parsing_tag` flag is not kept.
- The `modulus >= 10` branch of the `i64` renderer (godot_file.rs:685-688) cannot run in base ten, and is omitted.
- `&mut Vec<TagAssign>` in `append_assigns` is modelled as a sequence that is returned, not updated in place.
- A `&mut [TerrainId]` slice in `find_image_for_combination` is an `array`. The swap is performed on it.
- The reference reading functions in `LexerSpec` and `GrammarSpec` carry contracts that only bound the remaining input. What they read is stated by the lemmas in `NumberLexing`, `IntegerLexing`, `StringLexing`, `LexDispatch`, `GrammarFacts` and `ValueRoundTrip`, and the imperative readers are proved equal to them.
- The value round trip is proved for integers, plain ASCII strings and assign lines. It is not proved for doubles, colours, vectors, string names or resource references, because doubles depend on the `ryu` text and the others were not needed for the resource file.
