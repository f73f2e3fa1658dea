# pdf-parser, modelled in Dafny

This project models the core of `pdf-parser`, a Rust library that extracts the text of PDF files. Its pipeline has these steps:

- It finds `startxref` near the end of the file and reads the traditional cross-reference tables and their trailers, following the `/Prev` chain.
- It resolves indirect objects (`12 0 R`) by parsing the object stored at each table offset.
- It walks the page tree from the catalog's `Pages` node.
- It decodes content streams (`FlateDecode`, `ASCIIHexDecode`).
- It runs the text operators of a content stream to get positioned text spans, mapping character codes through `ToUnicode` CMaps and single-byte encodings (WinAnsi, MacRoman, Identity).
- It groups the spans into lines, then classifies the lines into headings, paragraphs and tables.
- It renders the result as Markdown, plain text, CSV or TSV.

There is one Dafny module per source file:

| module | file | source |
|---|---|---|
| `Common` | common.dfy | shared helpers: bytes, `Option`/`Result`, the error type, white space, trimming, splitting, UTF-8 |
| `PdfObjects` | objects.dfy | src/types/object.rs |
| `Lexing` | lexer.dfy | src/parser/lexer.rs |
| `ObjectParsing` | parser.dfy | src/parser/object.rs |
| `StreamDecoding` | decode.dfy | src/decode/mod.rs |
| `FontEncodings` | encoding.dfy | src/font/encoding.rs |
| `ToUnicodeCMap` | cmap.dfy | src/font/cmap.rs |
| `ContentStreams` | content.dfy | src/content/parser.rs |
| `XRefTable` | xref.dfy | src/document.rs, cross-reference and trailer part |
| `PdfDocument` | document.dfy | src/document.rs, object, page and font part |
| `TextSpans` | spans.dfy | the reading-order sort and row grouping shared by src/extract/table.rs, src/extract/layout.rs and src/document.rs |
| `Tables` | table.dfy | src/extract/table.rs |
| `Layout` | layout.dfy | src/extract/layout.rs |
| `Markdown` | markdown.dfy | src/extract/markdown.rs |
| `PlainText` | txt.dfy | src/extract/txt.rs |

Code that works on a cursor or fills a collection step by step keeps that form:

- The lexer and the object parser are classes with a cursor and a push-back stack.
- The document is a class with its object cache.
- The scanning loops are methods with `while` loops.

Each such method is proved equal to a specification function of its inputs and old state. The properties are proved about those functions:

- round trips, for example encode then lex, write a CMap then parse it, and write CSV then read it;
- where the parsers stop;
- override order;
- the alignment of rendered tables;
- what classification keeps.

Floating-point numbers are exact `real`s. Byte buffers are `seq<byte>`. The `flate2` decompressor is a function parameter.

Where the code misbehaves on some input, the model keeps a member that follows the code as written, with a lemma that shows the input. The rest of the model uses the corrected member (see "## Findings").

## Model

| member | source | states |
|---|---|---|
| PdfObjects.AsBool | src/types/object.rs:36-41 | a value exactly for a boolean, and that boolean |
| PdfObjects.AsInt | src/types/object.rs:43-48 | a value exactly for an integer, and that integer |
| PdfObjects.AsReal | src/types/object.rs:50-56 | a value exactly for a real or an integer: the real itself, or the integer as a number |
| PdfObjects.AsString | src/types/object.rs:58-63 | a value exactly for a string, and its bytes |
| PdfObjects.AsName | src/types/object.rs:65-70 | a value exactly for a name, and that name |
| PdfObjects.AsArray | src/types/object.rs:72-77 | a value exactly for an array, and its items |
| PdfObjects.AsDict | src/types/object.rs:79-85 | a value exactly for a dictionary or a stream: the dictionary, or the stream's dictionary |
| PdfObjects.AsStream | src/types/object.rs:87-92 | a value exactly for a stream, and its dictionary and data |
| PdfObjects.AsRef | src/types/object.rs:94-99 | a value exactly for a reference, and that reference |
| PdfObjects.Lookup | src/types/object.rs:26-29 | a dictionary lookup finds a value exactly when the key is present, and that key's value |
| Common.Latin1 | src/content/parser.rs:143 | one character per byte, with the byte's value |
| Common.TrimEnd | src/extract/markdown.rs:28 | `trim_end` keeps a prefix that is empty or ends in a non-space, and removes only white space |
| Common.TrimStart | src/extract/layout.rs:147 | the start half of `trim` keeps a suffix that is empty or starts with a non-space, and removes only white space |
| Common.TrimEnds | src/extract/layout.rs:147 | trimmed text that is not empty neither starts nor ends with white space |
| Common.TrimEmptyIffBlank | src/extract/layout.rs:16 | trimmed text is empty exactly when every character is white space |
| Common.ParseUnsigned | src/document.rs:177-178 | an unsigned parse that succeeds gives a value in the type's range |
| Common.DigitsValueOfNatToDigits | src/parser/lexer.rs:183 | the decimal digits of a number read back as that number |
| Common.ParseI64OfText | src/parser/lexer.rs:183 | parsing an `i64` written in decimal gives it back, for every `i64` |
| Common.IndexOfChar | src/content/parser.rs:222 | the position of the first occurrence of a character, or the length when there is none |
| Common.ReplaceChar | src/extract/markdown.rs:96 | `replace` of a character that does not occur changes nothing, and a non-empty replacement never shortens text |
| Common.ReplaceCharConcat | src/extract/markdown.rs:96 | replacing in two pieces joined is replacing in each piece |
| Common.ReplaceCharAvoids | src/extract/table.rs:230-236 | a character that the replacement lacks and that occurs only as the replaced one is gone afterwards |
| Common.Split | src/extract/table.rs:51-76 | splitting at a separator gives at least one part and no part holds the separator |
| Common.SplitJoin | src/extract/table.rs:51-76 | splitting parts joined by a separator they do not hold gives back the parts |
| Common.Repeat | src/extract/markdown.rs:11 | `repeat` gives n copies of the character |
| Common.PadRight | src/extract/table.rs:102 | `{:<width$}` keeps the text and adds spaces up to the width, and never cuts |
| Common.Filter | src/extract/layout.rs:14-17 | a filter keeps no more items than it had |
| Common.FilterEmpty | src/extract/layout.rs:14-21 | the filter keeps nothing exactly when no item passes |
| Common.FilterOnly | src/extract/layout.rs:14-17 | every kept item is an item that passes |
| Common.FilterKeeps | src/extract/layout.rs:14-17 | every item that passes is kept |
| Common.FinishText | src/extract/txt.rs:24-30 | `trim_end` and one line break: empty exactly for white space only; otherwise the text up to its last non-space, then one line break |
| Common.FinishTerminatedBlank | src/extract/txt.rs:7-30 | pieces each followed by blank lines finish empty exactly when every piece is white space |
| Common.FinishJoined | src/extract/txt.rs:7-30 | pieces each followed by a blank line, the last ending in a non-space, finish as the pieces joined by blank lines plus one line break |
| Common.TrimEndMatches | src/extract/markdown.rs:77 | `trim_end_matches` keeps a prefix not ending in the character and removes only that character |
| Common.SplitTerminatedLines | src/extract/markdown.rs:70-77 | lines each followed by a line break, with the trailing line breaks removed, split back into those lines |
| Common.Utf8Head | src/font/cmap.rs:6 | a well-formed UTF-8 sequence at the head of the bytes is one to four bytes long |
| Common.Utf8DecodeAscii | src/font/cmap.rs:6 | ASCII bytes decode as UTF-8 to the same characters |
| Common.Utf8Lossy | src/font/cmap.rs:6 | `from_utf8_lossy` gives no more characters than bytes |
| Common.Utf8LossyAgrees | src/font/cmap.rs:6 | on well-formed UTF-8 the lossy decoding is the strict decoding |
| Lexing.HexValue | src/parser/lexer.rs:359-366 | below 16; the digit's value for a hexadecimal digit (any other byte counts as zero) |
| Lexing.SkipWs | src/parser/lexer.rs:76-97 | stops at the end or at a byte that is neither PDF white space nor `%`, never moves back, and stays put on such a byte |
| Lexing.CommentEnd | src/parser/lexer.rs:84-93 | a comment body runs through its first line feed or carriage return, or to the end |
| Lexing.NumberEnd | src/parser/lexer.rs:159-168 | the scan covers only digits and at most one dot and stops at a byte that cannot continue the number |
| Lexing.NumberToken | src/parser/lexer.rs:176-188 | a number with a dot becomes a real token, one without an integer token; an empty text is an error |
| Lexing.NumberF | src/parser/lexer.rs:149-189 | `read_number` moves forward and yields an integer or a real token |
| Lexing.LettersEnd | src/parser/lexer.rs:195-197 | the keyword scan covers exactly the run of ASCII letters |
| Lexing.KeywordToken | src/parser/lexer.rs:202-218 | a recognised word is the spelling of the token it yields |
| Lexing.KeywordF | src/parser/lexer.rs:192-219 | `read_keyword` consumes at least one letter when it succeeds |
| Lexing.OctalF | src/parser/lexer.rs:253-263 | an octal escape reads at most two further digits |
| Lexing.LiteralF | src/parser/lexer.rs:222-283 | `read_literal_string` never moves back, and consumes at least the closing parenthesis when open |
| Lexing.EscapeF | src/parser/lexer.rs:242-277 | an escape always consumes its letter and stays within the data |
| Lexing.HexDigitsF | src/parser/lexer.rs:290-309 | the digit scan consumes through the closing `>` |
| Lexing.HexStringF | src/parser/lexer.rs:286-325 | `read_hex_string` consumes at least the closing `>` |
| Lexing.NameBytesF | src/parser/lexer.rs:333-352 | the name scan stays within the data and never moves back |
| Lexing.NameF | src/parser/lexer.rs:328-355 | `read_name` stays within the data |
| Lexing.TokenAt | src/parser/lexer.rs:107-145 | every token read consumes at least one byte |
| Lexing.NextTokenF | src/parser/lexer.rs:100-146 | `None` exactly when only white space and comments remain, and then the cursor is at the end of them; a token lies after them |
| Lexing.Lexer.constructor | src/parser/lexer.rs:44-46 | a lexer starts at position 0 on its data |
| Lexing.Lexer.Seek | src/parser/lexer.rs:56-58 | the cursor is set to the position asked for |
| Lexing.Lexer.SkipWhitespace | src/parser/lexer.rs:76-97 | the loop leaves the cursor where `SkipWs` says |
| Lexing.Lexer.SkipComment | src/parser/lexer.rs:85-92 | the inner comment loop leaves the cursor where `CommentEnd` says |
| Lexing.Lexer.NextToken | src/parser/lexer.rs:100-146 | returns `NextTokenF`'s token or error and leaves the cursor after the token |
| Lexing.Lexer.ReadToken | src/parser/lexer.rs:107-145 | the dispatch on the first byte agrees with `TokenAt` |
| Lexing.Lexer.ReadNumber | src/parser/lexer.rs:149-189 | agrees with `NumberF` |
| Lexing.Lexer.ScanDigits | src/parser/lexer.rs:151-168 | the digit loop agrees with `NumberEnd`, including whether a dot was taken |
| Lexing.Lexer.ReadKeyword | src/parser/lexer.rs:192-219 | agrees with `KeywordF` |
| Lexing.Lexer.ReadLiteralString | src/parser/lexer.rs:222-283 | agrees with `LiteralF` from just after the `(` at depth 1 |
| Lexing.Lexer.ReadEscape | src/parser/lexer.rs:242-277 | agrees with `EscapeF` |
| Lexing.Lexer.ReadOctal | src/parser/lexer.rs:255-263 | agrees with `OctalF` |
| Lexing.Lexer.ReadHexString | src/parser/lexer.rs:286-325 | agrees with `HexStringF` |
| Lexing.Lexer.ReadName | src/parser/lexer.rs:328-355 | agrees with `NameF` from just after the `/` |
| Lexing.NextTokenAtToken | src/parser/lexer.rs:100-106 | where no white space or comment precedes a token, `next_token` is the token read at the cursor |
| Lexing.LexLiteralString | src/parser/lexer.rs:222-283 | round trip: every byte string, escaped and parenthesised, reads back as itself, whatever follows |
| Lexing.DepthStep | src/parser/lexer.rs:232-241 | an unescaped `(` opens a level, an unescaped `)` closes one, and any other byte leaves the depth |
| Lexing.LiteralOfOpen | src/parser/lexer.rs:226-241 | bytes without a backslash that never close the string are collected as they are, the depth following their parentheses |
| Lexing.LexNestedLiteral | src/parser/lexer.rs:226-241 | balanced unescaped parentheses inside a literal string are kept in its bytes; only the `)` that closes the outermost `(` ends it |
| Lexing.NestedParensExample | src/parser/lexer.rs:226-241 | `(a(b)c)` reads as the five bytes `a(b)c` |
| Lexing.LiteralUnclosed | src/parser/lexer.rs:228-243 | with no `)` ahead, an open literal string, escapes or not, ends in an end-of-input error |
| Lexing.LexUnclosedLiteral | src/parser/lexer.rs:222-243 | a literal string with no `)` after its `(` is an end-of-input error at the end of the data |
| Lexing.LiteralOfSpelled | src/parser/lexer.rs:228-280 | a body spelled byte by byte and closed by `)` reads back as its bytes |
| Lexing.HexDecodeOfEncode | src/parser/lexer.rs:311-324 | decoding upper-case digit pairs inverts hexadecimal encoding |
| Lexing.HexStringOfEncoded | src/parser/lexer.rs:286-325 | an encoded byte string followed by `>` reads back as itself |
| Lexing.LexHexString | src/parser/lexer.rs:116-123 | round trip: every byte string hex-encoded between `<` and `>` reads back as itself |
| Lexing.HexDecodeOddRun | src/parser/lexer.rs:311-314 | a lone trailing digit is padded with `0`: it becomes the high nibble of a last byte |
| Lexing.NameBytesOfSpelled | src/parser/lexer.rs:333-352 | a name spelled byte by byte (`#xy` for irregular bytes), ended by a delimiter or the end, yields its bytes |
| Lexing.LexName | src/parser/lexer.rs:328-355 | round trip: every byte string written as a name reads back as that name exactly when it is UTF-8, and as `InvalidUtf8` otherwise |
| Lexing.EncodeRegularName | src/parser/lexer.rs:347-350 | a name of regular bytes is written as itself |
| Lexing.NumberOfI64Text | src/parser/lexer.rs:149-189 | the decimal text of an `i64`, not followed by a digit or dot, reads as that integer |
| Lexing.LexInteger | src/parser/lexer.rs:139 | round trip: every `i64` written in decimal reads back as that integer token |
| Common.DecimalTextReadsBack | src/parser/lexer.rs:175-179 | a decimal with a point and at least one digit parses as its whole part plus its fraction |
| Lexing.LexReal | src/parser/lexer.rs:149-179 | round trip: an optionally negative decimal with a point, not followed by a digit, reads as a real token of value whole part plus fraction, the cursor just after it |
| Lexing.KeywordTableRoundTrip | src/parser/lexer.rs:202-213 | the keyword table maps each of the eleven spellings back to its token |
| Lexing.LexKeyword | src/parser/lexer.rs:140 | round trip: every keyword followed by a non-letter reads back as its token |
| ObjectParsing.NextTok | src/parser/object.rs:31-37 | a pushed-back token comes out first, most recent first; otherwise the lexer's next token; a token read always shrinks the remaining input |
| ObjectParsing.ToU32 | src/parser/object.rs:95 | `as u32` keeps every value that fits |
| ObjectParsing.TokenDebug | src/parser/object.rs:150-153 | a token as `{:?}` writes it: the variant name first, then the payload in parentheses exactly for integers, strings, hex strings and names; a real is written as its variant alone |
| ObjectParsing.ByteListDebug | src/parser/object.rs:153 | a `Vec<u8>` as `{:?}` writes it: bracketed, and `[]` exactly for no bytes |
| ObjectParsing.IntDebugReadsBack | src/parser/object.rs:150-153 | the payload in `Int(n)` is the decimal text of `n`, which reads back as `n` |
| ObjectParsing.IntDebugExamples | src/parser/object.rs:150-153 | the messages for keys `5` and `-12` name `Int(5)` and `Int(-12)` |
| ObjectParsing.StringDebugExamples | src/parser/object.rs:150-153 | the messages for keys `(a)` and `()` name `String([97])` and `String([])` |
| ObjectParsing.HexDebugExample | src/parser/object.rs:150-153 | the message for the key `<6162>` names `HexString([97, 98])` |
| ObjectParsing.ToU16 | src/parser/object.rs:96 | `as u16` keeps every value that fits |
| ObjectParsing.ParseObjectF | src/parser/object.rs:45-71 | an object read shrinks the remaining input; `None` only at the end of the input with nothing pushed back |
| ObjectParsing.ParseIntOrRefF | src/parser/object.rs:74-104 | an integer always yields an object (an integer or a reference) |
| ObjectParsing.ParseArrayF | src/parser/object.rs:107-130 | an array read yields an array that starts with the items already collected |
| ObjectParsing.ParseDictF | src/parser/object.rs:133-178 | a dictionary read yields a dictionary or a stream |
| ObjectParsing.StreamDataF | src/parser/object.rs:181-227 | reading stream data shrinks the remaining input |
| ObjectParsing.EndstreamFollows | src/parser/object.rs:218-226 | the data is kept exactly when the next token is `endstream` |
| ObjectParsing.FindEndstream | src/parser/object.rs:236-242 | finds the first `endstream` in the range, or reports that none is there |
| ObjectParsing.UntilEndstreamF | src/parser/object.rs:230-248 | on success the cursor moves past the marker and stays within the data |
| ObjectParsing.PushedIsNext | src/parser/object.rs:31-42 | a token pushed back is the next token read |
| ObjectParsing.PushbackIsLifo | src/parser/object.rs:31-42 | two tokens pushed back come out in reverse order, so `push_back(tok3); push_back(Int(second))` replays them in input order (also lines 99-101 of that file) |
| ObjectParsing.IntIntRefIsRef | src/parser/object.rs:74-97 | `n g R` is the reference `(n as u32, g as u16)`, which is `(n, g)` when both fit |
| ObjectParsing.IntLookaheadReplayed | src/parser/object.rs:76-103 | when `n` is not followed by `g R`, the integer is returned and the tokens read ahead come back next in input order |
| ObjectParsing.ArrayAtEofFails | src/parser/object.rs:111-116 | an array cut off by the end of the input is the error "Unterminated array" |
| ObjectParsing.ArrayKeepsOrder | src/parser/object.rs:107-130 | the items of an array keep their order: parsing after some items is those items followed by what a fresh parse yields |
| ObjectParsing.NonNameKeyFails | src/parser/object.rs:149-155 | a key that is not a name is an error naming the token as `{:?}` writes it, payload included (`TokenDebug`) |
| ObjectParsing.KeyWithoutValueFails | src/parser/object.rs:157-161 | a key at the end of the input is "Missing dictionary value" |
| ObjectParsing.LaterValueWins | src/parser/object.rs:163 | a repeated key keeps the later value |
| ObjectParsing.DictOrStream | src/parser/object.rs:166-177 | after `>>`, `stream` makes a stream of the data read, anything else a dictionary with the cursor put back |
| ObjectParsing.DirectLengthTakesExactly | src/parser/object.rs:186-212 | an integer `/Length` past the end (or negative, which `as usize` wraps) is an error, otherwise exactly that many bytes are read |
| ObjectParsing.ExactStreamTakes | src/parser/object.rs:200-226 | the bytes read are the `n` bytes at the cursor, and are kept exactly when `endstream` follows |
| ObjectParsing.IndirectLengthRunsToEndstream | src/parser/object.rs:188-191 | an indirect `/Length` takes the bytes up to the first `endstream` found, with none earlier (also lines 230-248 of that file) |
| ObjectParsing.Parser.constructor | src/parser/object.rs:14-19 | a parser starts at position 0 with nothing pushed back |
| ObjectParsing.Parser.Position | src/parser/object.rs:21-23 | the lexer's position |
| ObjectParsing.Parser.Seek | src/parser/object.rs:25-28 | moves the cursor and clears the look-ahead |
| ObjectParsing.Parser.NextToken | src/parser/object.rs:31-37 | agrees with `NextTok` on result and new state |
| ObjectParsing.Parser.PushBack | src/parser/object.rs:40-42 | the look-ahead gains the token on top |
| ObjectParsing.Parser.ParseObject | src/parser/object.rs:45-71 | agrees with `ParseObjectF` |
| ObjectParsing.Parser.ParseIntOrRef | src/parser/object.rs:74-104 | agrees with `ParseIntOrRefF` |
| ObjectParsing.Parser.ParseArray | src/parser/object.rs:107-130 | agrees with `ParseArrayF` |
| ObjectParsing.Parser.ParseDictOrStream | src/parser/object.rs:133-178 | agrees with `ParseDictF` |
| ObjectParsing.Parser.ReadStreamData | src/parser/object.rs:181-227 | agrees with `StreamDataF` |
| ObjectParsing.Parser.ReadExactStream | src/parser/object.rs:200-226 | agrees with `ExactStreamF` |
| ObjectParsing.Parser.ReadStreamUntilEndstream | src/parser/object.rs:230-248 | agrees with `UntilEndstreamF` |
| StreamDecoding.NonWhiteSpace | src/decode/mod.rs:56 | the filtered bytes hold no ASCII white space and are no more than the input |
| StreamDecoding.NonWhiteSpaceAppend | src/decode/mod.rs:56 | filtering distributes over concatenation |
| StreamDecoding.HexVal | src/decode/mod.rs:73-83 | succeeds exactly on hexadecimal digits with the digit's value; any other byte is the error "Invalid hex char" at position 0 |
| StreamDecoding.NextNonWhiteSpace | src/decode/mod.rs:56-59 | the filtered iterator's `next`: the first non-white byte and where to resume, or the end |
| StreamDecoding.ReadPair | src/decode/mod.rs:59-66 | one loop pass agrees with `FirstPair` on the filtered rest: `>` or the end stops, a missing second digit is `0` |
| StreamDecoding.AsciiHexDecode | src/decode/mod.rs:54-71 | the loop computes `AsciiHexF` of the filtered input |
| StreamDecoding.AsciiHexUnfold | src/decode/mod.rs:58-68 | one step of the decoder: a pair decoded and appended, or a stop, or an error |
| StreamDecoding.AsciiHexOfDigits | src/decode/mod.rs:58-68 | encoded bytes decode to themselves before whatever follows |
| StreamDecoding.AsciiHexRoundTrip | src/decode/mod.rs:54-71 | round trip: hex-encoded bytes with any white space, then `>`, decode to the bytes, whatever follows the `>` |
| StreamDecoding.AsciiHexOddDigit | src/decode/mod.rs:64 | a lone last digit is paired with `0`, but a lone digit before `>` pairs with the `>` and is an error |
| StreamDecoding.AsciiHexRejectsNonDigit | src/decode/mod.rs:66 | a first byte that is neither a digit nor `>` is an error (also lines 73-82 of that file) |
| StreamDecoding.FilterNames | src/decode/mod.rs:32-39 | an array of filters is accepted exactly when every element is a name, and then gives the names in order |
| StreamDecoding.GetFilters | src/decode/mod.rs:28-42 | no `/Filter` is no filters, a name is that one filter, an array its names, anything else "Invalid Filter type" |
| StreamDecoding.ApplyFilter | src/decode/mod.rs:45-51 | `FlateDecode` inflates, `ASCIIHexDecode` hex-decodes, any other name is `UnsupportedFilter` |
| StreamDecoding.ApplyFiltersAppend | src/decode/mod.rs:20-22 | a chain of filters is applied in order: the second part runs on the first part's output, and an error stops the chain |
| StreamDecoding.UnsupportedFilterStops | src/decode/mod.rs:20-22 | an unsupported filter anywhere in the chain is the error for that filter once the filters before it succeed (also line 49 of that file) |
| StreamDecoding.DecodeStream | src/decode/mod.rs:10-25 | the filters named by the dictionary applied in order, or the dictionary's error |
| StreamDecoding.NoFilterIsIdentity | src/decode/mod.rs:13-16 | a stream without `/Filter` decodes to its raw bytes |
| FontEncodings.CidOf | src/font/encoding.rs:172 | the two bytes form a big-endian code: the first byte is the high half, the second the low half |
| FontEncodings.FillRange | src/font/encoding.rs:22-24 | the `for i in lo..=hi { insert(i, i as char) }` loops add every byte of the range mapped to itself (also lines 36-38 of that file) |
| FontEncodings.FillTable | src/font/encoding.rs:40-83 | inserting a table's pairs in code order adds exactly the table's entries for the range (also lines 95-138 of that file) |
| FontEncodings.FontEncoding.Identity | src/font/encoding.rs:12-29 | `identity` (the default) maps all 256 bytes to themselves and has no CID table |
| FontEncodings.FontEncoding.WinAnsi | src/font/encoding.rs:32-84 | ASCII 0x20-0x7E, the Windows-1252 entries of 0x80-0x9F, and 0xA0-0xFF as Latin-1 |
| FontEncodings.FontEncoding.MacRoman | src/font/encoding.rs:87-139 | ASCII 0x20-0x7E and the Mac Roman table for 0x80-0xFF |
| FontEncodings.FontEncoding.FromCidMap | src/font/encoding.rs:142-147 | no byte table, the given CID table |
| FontEncodings.FontEncoding.DecodeCid | src/font/encoding.rs:155-157 | a CID decodes exactly when it is in the CID table, to its entry |
| FontEncodings.FontEncoding.DecodeBytes | src/font/encoding.rs:165-192 | the loop computes `DecodeBytesWith`: byte pairs as CIDs (falling back to two bytes) when there is a CID table, else byte by byte |
| FontEncodings.FontEncoding.SimpleBytes | src/font/encoding.rs:190 | the `map(decode_byte)` collection, one character per byte |
| FontEncodings.FontEncoding.AddCidMapping | src/font/encoding.rs:195-197 | the CID table gains (or replaces) one entry; the byte table is unchanged |
| FontEncodings.IdentityDecodesEveryByte | src/font/encoding.rs:20-29 | under `identity` every byte decodes to the character with its code (also lines 150-152 of that file) |
| FontEncodings.WinAnsiDecodes | src/font/encoding.rs:32-84 | under `win_ansi` a byte decodes through the 0x80-0x9F table where it has an entry and otherwise to itself; exactly which bytes are in the table (also lines 150-152 of that file) |
| FontEncodings.WinAnsiExamples | src/font/encoding.rs:36-83 | `A`, space, the euro sign at 0x80, the trade mark at 0x99, and 0x81 (no entry) falling back to U+0081 |
| FontEncodings.MacRomanDecodes | src/font/encoding.rs:87-139 | under `mac_roman` bytes from 0x80 decode through the Mac Roman table, the rest to themselves; which bytes are in the table (also lines 150-152 of that file) |
| FontEncodings.SimpleModeOneCharPerByte | src/font/encoding.rs:188-191 | without a CID table, one character per byte, each the byte's decoding |
| FontEncodings.CidDecodeAppend | src/font/encoding.rs:166-187 | CID decoding of an even-length prefix and the rest concatenate |
| FontEncodings.CidDecodeLength | src/font/encoding.rs:166-187 | CID decoding yields between half as many and as many characters as bytes |
| FontEncodings.CidDecodeMapped | src/font/encoding.rs:170-180 | when every pair is in the CID table, one character per pair, each the pair's entry |
| FontEncodings.CidDecodeExample | src/font/encoding.rs:166-187 | the bytes `00 24 00 25` with CIDs 0x24 -> `A` and 0x25 -> `B` decode to "AB" |
| FontEncodings.FromCidMapMode | src/font/encoding.rs:142-147 | an encoding built from a CID table decodes in CID mode exactly when the table is non-empty (also lines 160-166 of that file) |
| ToUnicodeCMap.FromHex16 | src/font/cmap.rs:170 | `u16::from_str_radix(.., 16).unwrap_or(0)`: the digits' value when it fits in 16 bits, 0 when there are no digits or the value is too large |
| ToUnicodeCMap.HexScan | src/font/cmap.rs:159-168 | the scan collects only hexadecimal digits and stays within the text |
| ToUnicodeCMap.HexValueF | src/font/cmap.rs:156-171 | `parse_hex_value` never moves back |
| ToUnicodeCMap.CloseAt | src/font/cmap.rs:159-163 | the first `>` at or after the cursor, or the end |
| ToUnicodeCMap.HexScanDigits | src/font/cmap.rs:159-168 | the scan collects exactly the hexadecimal digits before the first `>` and resumes just after it |
| ToUnicodeCMap.HexValueReadsDigits | src/font/cmap.rs:156-171 | the value is that of the digits up to the first `>`, and reading resumes after it |
| ToUnicodeCMap.ParseHexValue | src/font/cmap.rs:156-171 | the loop agrees with `HexValueF` |
| ToUnicodeCMap.SkipUntilF | src/font/cmap.rs:45-47 | a skip stops at the first of the stop characters, or at the end (also lines 88-90 and 100-102 of that file) |
| ToUnicodeCMap.SkipUntil | src/font/cmap.rs:45-47 | the skip loops agree with `SkipUntilF` (also lines 88-90 and 100-102 of that file) |
| ToUnicodeCMap.Put | src/font/cmap.rs:53-55 | `char::from_u32`: a destination that is a Unicode scalar value is inserted, any other is skipped (also lines 112-114 and 143-145 of that file) |
| ToUnicodeCMap.BfcharEntries | src/font/cmap.rs:36-59 | the loop agrees with `BfcharF` |
| ToUnicodeCMap.SkipSpacesF | src/font/cmap.rs:123-125 | stops at the first character that is not a space, line feed, carriage return or tab |
| ToUnicodeCMap.DstArrayF | src/font/cmap.rs:119-138 | reading a destination array never moves back |
| ToUnicodeCMap.FillRange | src/font/cmap.rs:109-115 | the loop over `0..=hi.saturating_sub(lo)` agrees with the range fill |
| ToUnicodeCMap.FillArray | src/font/cmap.rs:140-147 | the loop agrees with `ArrayFill` |
| ToUnicodeCMap.DstArray | src/font/cmap.rs:119-138 | the loop agrees with `DstArrayF` |
| ToUnicodeCMap.BfrangeEntries | src/font/cmap.rs:79-153 | the loop agrees with `BfrangeF` |
| ToUnicodeCMap.MatchesAtOccurs | src/font/cmap.rs:22 | the character-by-character match agrees with "the pattern occurs here" (also line 25 of that file) |
| ToUnicodeCMap.FindFrom | src/font/cmap.rs:22 | `str::find`: a match lies within the text (also line 25 of that file) |
| ToUnicodeCMap.FindFromFirst | src/font/cmap.rs:22 | `str::find` returns the first occurrence, or reports that there is none (also line 25 of that file) |
| ToUnicodeCMap.SectionAt | src/font/cmap.rs:22-28 | a section's body lies after its begin marker and before its end marker, which is within the text (also lines 65-71 of that file) |
| ToUnicodeCMap.SectionsStep | src/font/cmap.rs:22-28 | one pass of the section loop: the body's entries are parsed and the scan resumes after the end marker |
| ToUnicodeCMap.ParseEntries | src/font/cmap.rs:27 | dispatches to the bfchar or bfrange entry parser (also line 70 of that file) |
| ToUnicodeCMap.ParseNextSection | src/font/cmap.rs:22-31 | one pass of the section loop: either a section is parsed and the scan moves forward, or the loop ends with the map unchanged (also lines 65-74 of that file) |
| ToUnicodeCMap.ParseSections | src/font/cmap.rs:19-33 | the loop agrees with `SectionsF` (also lines 62-76 of that file) |
| ToUnicodeCMap.ParseToUnicodeCMap | src/font/cmap.rs:5-16 | always succeeds, with the bfchar sections parsed and then the bfrange sections |
| ToUnicodeCMap.RangeFillOverrides | src/font/cmap.rs:109-115 | a range fill overrides the existing entries and keeps the others |
| ToUnicodeCMap.ArrayFillOverrides | src/font/cmap.rs:140-147 | an array fill overrides the existing entries and keeps the others |
| ToUnicodeCMap.BfcharOverrides | src/font/cmap.rs:36-59 | the entries of a bfchar section override the map they are added to |
| ToUnicodeCMap.BfrangeOverrides | src/font/cmap.rs:79-153 | the entries of a bfrange section override the map they are added to |
| ToUnicodeCMap.SectionsOverride | src/font/cmap.rs:19-33 | the sections' entries override the map they are added to (also lines 62-76 of that file) |
| ToUnicodeCMap.BfrangeWins | src/font/cmap.rs:10-13 | where a code appears in both kinds of section, the bfrange entry wins |
| ToUnicodeCMap.RangeFillAt | src/font/cmap.rs:109-115 | after a range fill, exactly the codes in the range whose destination `dst + (code - lo)` is at most 0xFFFF and a scalar value map to it; every other code is unchanged |
| ToUnicodeCMap.InvertedRangeMapsLo | src/font/cmap.rs:109 | a range with `hi < lo` still maps `lo`, because `saturating_sub` gives 0 |
| ToUnicodeCMap.ArrayFillAt | src/font/cmap.rs:140-147 | after an array fill, exactly the codes in `lo..=hi` with a valid destination map to their destination; every other code is unchanged |
| ToUnicodeCMap.RangeDestinationWraps | src/font/cmap.rs:111 | `<0000><0001><FFFF>`: as written, code 1 maps to U+0000; the corrected range maps code 0 to U+FFFF and leaves code 1 unmapped |
| ToUnicodeCMap.Put16 | src/font/cmap.rs:110-114 | a destination past 0xFFFF maps nothing; one within 16 bits is inserted when it is a scalar value |
| ToUnicodeCMap.RangeFillAgrees | src/font/cmap.rs:109-115 | while `dst + (hi - lo)` stays within 16 bits, the range fill as written and the corrected one give the same map |
| ToUnicodeCMap.ArrayFillAgrees | src/font/cmap.rs:140-147 | while `lo` plus the number of destinations stays within 16 bits, the array fill as written and the corrected one give the same map |
| ToUnicodeCMap.ArraySourceWraps | src/font/cmap.rs:141-142 | `<FFFF><FFFF>[<0041><0042>]`: as written, code 0 is given `B`; the corrected fill maps only 0xFFFF |
| ToUnicodeCMap.HexFieldAt | src/font/cmap.rs:156-171 | four hexadecimal digits and a `>` read back as their value |
| ToUnicodeCMap.BfcharLineAt | src/font/cmap.rs:39-57 | one `<src> <dst>` line adds that one entry |
| ToUnicodeCMap.BfcharRoundTrip | src/font/cmap.rs:36-59 | round trip: a bfchar body written from pairs parses to exactly those pairs inserted in order |
| ToUnicodeCMap.BfrangeLineAt | src/font/cmap.rs:82-116 | one `<lo> <hi> <dst>` line adds that range |
| ToUnicodeCMap.BfrangeRoundTrip | src/font/cmap.rs:79-153 | round trip: a bfrange body written from triples parses to exactly those ranges filled in order |
| ToUnicodeCMap.SectionIsDelimited | src/font/cmap.rs:22-28 | a section found is the text between the first begin marker and the first end marker after it |
| ToUnicodeCMap.UnterminatedSectionStops | src/font/cmap.rs:29-31 | a begin marker with no end marker after it ends the scan with the map unchanged |
| ContentStreams.CommentTail | src/content/parser.rs:122-127 | a comment is passed over up to its line feed (which stays), or to the end, and never beyond |
| ContentStreams.SkipSpaceF | src/content/parser.rs:118-131 | stops at the end or at the first byte that is neither white space nor `%`, never moves back, and stays put on such a byte |
| ContentStreams.OperatorF | src/content/parser.rs:133-144 | the operator is exactly the run of letters, `*`, `'` and `"` at the cursor, byte for byte |
| ContentStreams.DigitsEnd | src/content/parser.rs:208-214 | the scan covers exactly the run of digits and dots |
| ContentStreams.NumberF | src/content/parser.rs:200-226 | a number read moves the cursor forward; a malformed one is a parse error at its start |
| ContentStreams.StringBodyF | src/content/parser.rs:228-290 | reading a literal string moves forward and stays within the data; an overflow once seen is kept |
| ContentStreams.EscapeF | src/content/parser.rs:248-282 | an escape consumes at least its letter and stays within the data |
| ContentStreams.StringF | src/content/parser.rs:228-290 | the string ends after its `(` and within the data |
| ContentStreams.StringAsWritten | src/content/parser.rs:260-273 | where the octal accumulation in a `u8` does not overflow, the string is the one the model reads |
| ContentStreams.HexDigitsF | src/content/parser.rs:295-305 | collects exactly hexadecimal digits, keeping those already collected |
| ContentStreams.HexF | src/content/parser.rs:292-322 | reading a hexadecimal string moves forward and stays within the data |
| ContentStreams.NameEnd | src/content/parser.rs:328-335 | the name covers exactly the run of name bytes |
| ContentStreams.NameF | src/content/parser.rs:324-338 | the name is the run of letters, digits, `_`, `-`, `+` and `.`, byte for byte, and stops at the first other byte |
| ContentStreams.DictEndF | src/content/parser.rs:361-382 | skipping a dictionary moves forward and stays within the data |
| ContentStreams.OperandF | src/content/parser.rs:146-198 | an operand read lies after the skipped white space; a read that does not move yields no operand and stops on `]`, `>` or a letter |
| ContentStreams.ArrayF | src/content/parser.rs:340-359 | reading an array always moves forward |
| ContentStreams.StatementF | src/content/parser.rs:91-110 | a statement lies after the skipped white space; one that does not move is no statement, on a `]` or `>` |
| ContentStreams.StrayDelimiterDiscarded | src/content/parser.rs:194 | a `]` or `>` where a statement starts is read as no statement, without moving |
| ContentStreams.SpanTextTidy | src/content/parser.rs:559-576 | a span's text, when not empty, has no white space at either end |
| ContentStreams.ShowTextF | src/content/parser.rs:559-590 | showing text never touches the saved states |
| ContentStreams.ShowItemF | src/content/parser.rs:505-517 | one `TJ` item never touches the saved states nor takes back a span |
| ContentStreams.ShowArrayF | src/content/parser.rs:503-520 | the `TJ` loop never touches the saved states nor takes back a span |
| ContentStreams.Numbers | src/content/parser.rs:471-480 | no more numbers than operands |
| ContentStreams.ShowLast | src/content/parser.rs:496-500 | showing the last operand never touches the saved states nor takes back a span |
| ContentStreams.OpOf | src/content/parser.rs:385-555 | an operator name is ignored exactly when it is none of the sixteen the interpreter knows; it shows text exactly when it is `Tj`, `TJ`, `'` or `"` |
| ContentStreams.Perform | src/content/parser.rs:384-557 | an ignored operator and `ET` change nothing; only `q` and `Q` touch the saved states; only the showing operators add spans, and they only add |
| ContentStreams.ExecuteF | src/content/parser.rs:384-557 | the same, stated for operator names |
| ContentStreams.Apply | src/content/parser.rs:99-102 | executing a statement never takes back a span |
| ContentStreams.RunWith | src/content/parser.rs:80-116 | the loop over statements, for any executor that keeps spans, only ever adds to the spans |
| ContentStreams.RunF | src/content/parser.rs:80-116 | `parse` only ever adds to the spans it started with |
| ContentStreams.StrayDelimiterSpins | src/content/parser.rs:80-116 | as written, a stray `]` or `>` where a statement starts makes `parse` loop for ever, whatever the operators do (also line 189 of that file) |
| ContentStreams.RunAgrees | src/content/parser.rs:80-116 | wherever `parse` as written finishes, the corrected loop finishes with the same outcome |
| ContentStreams.StrayBracketExample | src/content/parser.rs:194 | the stream `]`: as written `parse` never finishes; corrected, it yields no spans |
| ContentStreams.ParseDecimalOfText | src/content/parser.rs:221 | `str::parse` reads the decimal spelling of an integer back as that integer |
| ContentStreams.ParseDecimalOfDigits | src/content/parser.rs:221 | a run of digits, with or without a minus sign, parses as its value or minus its value |
| ContentStreams.DigitsEndOfRun | src/content/parser.rs:208-214 | the digit scan over a run of digits and dots stops exactly at its end |
| ContentStreams.TextShape | src/content/parser.rs:221 | an integer's spelling is a minus sign exactly when it is negative, then digits |
| ContentStreams.NumberUnfold | src/content/parser.rs:200-226 | a number is read as the sign and the run of digits and dots, parsed, or an error naming that text |
| ContentStreams.SpelledInteger | src/content/parser.rs:221 | an integer's spelling is a signed digit run that parses back as the integer |
| ContentStreams.NumberOfSpelled | src/content/parser.rs:200-226 | any run of a sign, digits and points that parses, not followed by more of a number, reads as its value, the cursor just after it; with `SpelledInteger` this is the round trip for every integer written in decimal |
| ContentStreams.SpelledRunEnd | src/content/parser.rs:203-214 | the scan over a run of a sign, digits and points stops right after it |
| ContentStreams.BytesOfText | src/content/parser.rs:216 | bytes whose Latin-1 reading is a text are that text's codes |
| ContentStreams.NumberOfRun | src/content/parser.rs:200-226 | a scan that ends at `e` over bytes spelling `t`, where `t` parses as `x`, reads the number `x` with the cursor at `e` |
| ContentStreams.StringStep | src/content/parser.rs:233-286 | one byte spelled as the PDF writer spells it inside a literal string is read back as that byte |
| ContentStreams.StringOfSpelled | src/content/parser.rs:228-290 | a spelled body followed by `)` reads back as its bytes |
| ContentStreams.StringRoundTrip | src/content/parser.rs:228-290 | round trip: a literal string written with escapes reads back as its bytes, the cursor after its `)` |
| ContentStreams.OctalEscape | src/content/parser.rs:260-273 | a three-digit octal escape is its value kept to eight bits, with overflow flagged above 255 |
| ContentStreams.OctalOverflowExample | src/content/parser.rs:266 | `(\400)`: as written the `u8` accumulation overflows; the model reads the byte 0 and flags it |
| ContentStreams.HexDigitsOfRun | src/content/parser.rs:295-305 | a run of hexadecimal digits closed by `>` is collected whole, the cursor after the `>` |
| ContentStreams.HexRoundTrip | src/content/parser.rs:292-322 | round trip: bytes written as hexadecimal digits and `>` read back as those bytes |
| ContentStreams.HexRunOfEncoded | src/content/parser.rs:295-305 | the digits of an encoded string are collected exactly |
| ContentStreams.ClosedRun | src/content/parser.rs:295-305 | a run followed by its closing byte starts the data and is followed by that byte |
| ContentStreams.FlatDictionary | src/content/parser.rs:361-382 | a dictionary with no nested `<` or `>` is skipped to just after its `>>` |
| ContentStreams.SpanCharSpace | src/content/parser.rs:562-572 | a byte reads as white space exactly when it is not visible |
| ContentStreams.ShowsIffVisible | src/content/parser.rs:574-585 | a string shows a span exactly when one of its bytes is visible |
| ContentStreams.ShowTextTidy | src/content/parser.rs:559-590 | showing text keeps every span's text tidy (non-empty, no white space at either end) |
| ContentStreams.EmitTidy | src/content/parser.rs:576-585 | adding a tidy text keeps every span tidy |
| ContentStreams.ShowLastTidy | src/content/parser.rs:496-500 | showing the last operand keeps every span tidy |
| ContentStreams.ShowArrayTidy | src/content/parser.rs:503-520 | the `TJ` loop keeps every span tidy |
| ContentStreams.PerformTidy | src/content/parser.rs:384-557 | every operator keeps every span tidy |
| ContentStreams.RunTidy | src/content/parser.rs:80-116 | `parse` keeps every span tidy |
| ContentStreams.ContentSpansTidy | src/content/parser.rs:80-116 | every span a content stream yields has a non-empty text with no white space at either end |
| ContentStreams.SaveRestore | src/content/parser.rs:387-395 | `q` then `Q` leaves the interpreter as it was |
| ContentStreams.RestoreWithoutSave | src/content/parser.rs:390-395 | `Q` with no saved state changes nothing |
| ContentStreams.MovesAdd | src/content/parser.rs:440-452 | two `Td` moves add up |
| ContentStreams.NextLineRepeatsTD | src/content/parser.rs:454-466 | after `tx ty TD`, `T*` moves by `ty` again (also lines 489-493 of that file) |
| ContentStreams.QuoteIsNextLineThenShow | src/content/parser.rs:522-531 | `'` is `T*` followed by `Tj` |
| ContentStreams.DoubleQuoteIsSpacingThenQuote | src/content/parser.rs:533-549 | `aw ac string "` is `aw Tw`, `ac Tc`, then `'` |
| ContentStreams.ShowArrayStep | src/content/parser.rs:505-518 | the `TJ` loop handles its items one at a time, in order |
| ContentStreams.ArrayOfTwoStrings | src/content/parser.rs:503-520 | an array of two strings shows them one after the other |
| ContentStreams.ShowArrayOfStrings | src/content/parser.rs:496-520 | `[(a) (b)] TJ` is `(a) Tj (b) Tj` |
| ContentStreams.PerformShowArray | src/content/parser.rs:503-520 | `TJ` on an array runs the item loop over it |
| ContentStreams.PerformShow | src/content/parser.rs:496-500 | `Tj` on a string is `add_text_span` of it |
| ContentStreams.PerformShowLast | src/content/parser.rs:496-500 | `Tj` shows its last operand when that is a string |
| ContentStreams.SetMatrixOfSix | src/content/parser.rs:468-487 | `a b c d e f Tm` sets both matrices to those six numbers |
| ContentStreams.ContentParser.constructor | src/content/parser.rs:69-77 | a new parser is at the start of its data, in the default state, with no saved states and no spans |
| ContentStreams.ContentParser.Parse | src/content/parser.rs:80-116 | the loop agrees with `RunF` from the parser's position and state |
| ContentStreams.ContentParser.Step | src/content/parser.rs:81-111 | one pass of the outer loop: where `parse` returns there, its result is `RunF` from the old position and state; otherwise the position has moved forward and `RunF` from the new position and state is unchanged |
| ContentStreams.ContentParser.ParseStatement | src/content/parser.rs:91-110 | one pass of the inner loop agrees with `StatementF`, and the operator found has been applied |
| ContentStreams.ContentParser.SkipWhitespace | src/content/parser.rs:118-131 | the loop agrees with `SkipSpaceF` |
| ContentStreams.ContentParser.ReadOperator | src/content/parser.rs:133-144 | the loop agrees with `OperatorF` |
| ContentStreams.ContentParser.ParseOperand | src/content/parser.rs:146-198 | agrees with `OperandF`, the cursor included |
| ContentStreams.ContentParser.ReadNumber | src/content/parser.rs:200-226 | agrees with `NumberF`, the cursor included |
| ContentStreams.ContentParser.ReadString | src/content/parser.rs:228-290 | the loop agrees with `StringF` |
| ContentStreams.ContentParser.ReadEscape | src/content/parser.rs:248-282 | agrees with `EscapeF` |
| ContentStreams.ContentParser.ReadHexString | src/content/parser.rs:292-322 | the loop agrees with `HexF` |
| ContentStreams.ContentParser.ReadName | src/content/parser.rs:324-338 | the loop agrees with `NameF` |
| ContentStreams.ContentParser.ReadArray | src/content/parser.rs:340-359 | the loop agrees with `ArrayF` |
| ContentStreams.ContentParser.SkipDict | src/content/parser.rs:361-382 | the loop agrees with `DictEndF` |
| ContentStreams.ContentParser.ExecuteOperator | src/content/parser.rs:384-557 | agrees with `ExecuteF` |
| ContentStreams.ContentParser.ShowArray | src/content/parser.rs:503-520 | the `TJ` loop agrees with `ShowArrayF` |
| ContentStreams.ContentParser.ShowItem | src/content/parser.rs:505-517 | agrees with `ShowItemF` |
| ContentStreams.ContentParser.ShowLastOperand | src/content/parser.rs:496-500 | agrees with `ShowLast` |
| ContentStreams.ContentParser.AddTextSpan | src/content/parser.rs:559-590 | agrees with `ShowTextF` |
| ContentStreams.ExtractSpans | src/content/parser.rs:69-116 | agrees with `ContentSpansF`, and every span it yields is tidy |
| XRefTable.LastStartxref | src/document.rs:59-63 | the greatest position in the range where `startxref` starts, and no later one; none exactly when there is none in the range |
| XRefTable.FindStartxrefF | src/document.rs:55-66 | the last `startxref` that starts within the final 1024 bytes and ends before the last byte; `MissingEof` exactly when there is none |
| XRefTable.FindStartxref | src/document.rs:55-66 | the backwards scan returns `FindStartxrefF` |
| XRefTable.StartxrefOffsetF | src/document.rs:69-84 | the integer after the keyword cast to `usize` (below 2^64); any other object is "Expected xref offset after startxref" |
| XRefTable.ParseStartxref | src/document.rs:69-84 | the parser run after the keyword returns `StartxrefOffsetF` |
| XRefTable.LineEnd | src/document.rs:163-167 | the first LF or CR at or after the position, or the end of the data |
| XRefTable.SkipEol | src/document.rs:181-188 | an optional CR and then an optional LF skipped: at most two bytes |
| XRefTable.SkipXrefSpace | src/document.rs:144-147 | the first byte that is not a space, tab, LF or CR, every byte before it being one |
| XRefTable.SkipXrefWhiteSpace | src/document.rs:144-147 | the loop returns `SkipXrefSpace` |
| XRefTable.DecimalField | src/document.rs:211-225 | a field that is UTF-8 and, trimmed, an unsigned number below the limit; `InvalidXref` otherwise |
| XRefTable.EntryF | src/document.rs:199-240 | the corrected entry reader: a line of fewer than 18 bytes is `InvalidXref`; an entry is in use exactly when byte 17 is `n` |
| XRefTable.EntryAsWrittenAgrees | src/document.rs:207-229 | on every line except those of exactly 17 bytes the code as written reads what the corrected reader reads |
| XRefTable.SeventeenByteLinePanics | src/document.rs:206-228 | `0000000000 00000 ` (17 bytes) passes the length check as written and is then indexed past its end; the corrected reader rejects it |
| XRefTable.DecimalFieldOfDigits | src/document.rs:211-225 | a number written with leading zeros in a field of its width reads back as the number |
| XRefTable.EntryLine | src/document.rs:205 | the text of an entry is 18 bytes: offset, space, generation, space, flag |
| XRefTable.EntryRoundTrip | src/document.rs:199-240 | round trip: an entry written as its 18-byte line reads back as itself when in use, as nothing when free |
| XRefTable.WithEntry | src/document.rs:231-240 | an in-use entry is inserted under its number, replacing what the map held; a free one changes nothing |
| XRefTable.EntriesF | src/document.rs:191-251 | the entry loop of one subsection ends within the data |
| XRefTable.HeadF | src/document.rs:150-188 | the end of the table at `trailer`, at the end of the data or at a line that is not two words; `InvalidXref` for a line that is not UTF-8 or not two `u32` numbers; otherwise the subsection header and the next line's start |
| XRefTable.ReadEntries | src/document.rs:191-251 | the entry loop returns `EntriesF` |
| XRefTable.ReadHead | src/document.rs:150-188 | the header checks return `HeadF` |
| XRefTable.ParseTraditionalXref | src/document.rs:137-255 | the subsection loop returns `TraditionalXrefF` |
| XRefTable.EntriesStep | src/document.rs:191-251 | one entry line read: the loop goes on from the next line with the entry inserted under `start + i` |
| XRefTable.EntriesOverride | src/document.rs:231-240 | entries read into a filled map are the map overridden by the entries read into an empty one |
| XRefTable.SubsectionsOverride | src/document.rs:150-252 | the same for a whole run of subsections |
| XRefTable.TableOverrides | src/document.rs:137-255 | parsing a table into a filled map overrides the map by the table's own entries |
| XRefTable.TrailerSearchF | src/document.rs:263-275 | the first `trailer` at or after the position that ends before the last byte, none before it; none exactly when there is none |
| XRefTable.FindAndParseTrailer | src/document.rs:258-287 | "Missing trailer", the parser's error, "Trailer must be dictionary" or the dictionary after the keyword, as `TrailerF` |
| XRefTable.PrevOf | src/document.rs:111-112 | `/Prev` when it is an integer, cast to `usize` |
| XRefTable.SectionIntoMap | src/document.rs:100 | parsing a table into the accumulated map, as the loop as written does, is the map overridden by that table |
| XRefTable.NewestWins | src/document.rs:87-134 | in the corrected chain entries already read from newer sections are never replaced, and the first trailer read is the one returned |
| XRefTable.SelfPrevNeverEnds | src/document.rs:96-115 | a table whose `/Prev` points to itself: the loop as written never ends, whatever the rounds allowed; the corrected chain reads the table once |
| XRefTable.OlderSectionWins | src/document.rs:100-115 | an update whose `/Prev` leads to the original: as written the original's entries override the update's; the corrected chain keeps the update's |
| XRefTable.FileStructureF | src/document.rs:31-44 | a file not starting with `%PDF-` is `MissingHeader` |
| XRefTable.ReadSection | src/document.rs:100-103 | a table and the trailer after it, as `SectionF` |
| XRefTable.ParseXrefAndTrailer | src/document.rs:87-134 | the corrected `/Prev` loop returns `ChainF`: newest section first, each offset read once, the first trailer kept |
| XRefTable.ParseFileStructure | src/document.rs:31-44 | header check, `startxref`, offset and chain: returns `FileStructureF` |
| PdfDocument.ResolveF | src/document.rs:300-345 | an object number missing from the table is `ObjectNotFound(num, gen)`; otherwise the result is the object at the entry's offset: first the object number (equal as `u32`), then an integer generation, then the `obj` keyword and the object |
| PdfDocument.ResolveAsWritten | src/document.rs:306-345 | the code as written: a number missing from the table is `ObjectNotFound`; after the two integers, the third `parse_object` meets the `obj` keyword itself |
| PdfDocument.ObjKeywordRejected | src/document.rs:340-345 | where the header is followed by `obj`, as in every well-formed object, the code as written fails with "Unexpected token: Obj"; the corrected `ResolveF` reads the object after the keyword |
| PdfDocument.ObjKeywordStep | src/parser/object.rs:45-71 | `parse_object` rejects an `obj` keyword token, and skipping the keyword first reads the next object |
| PdfDocument.ContentWithoutKeyword | src/document.rs:340-345 | with no `obj` keyword after the header, the correction reads exactly what the code as written reads |
| PdfDocument.ReadObject | src/document.rs:311-345 | the parser run from the entry's offset returns `ObjectAtF`: errors "Expected object number", "Expected generation number" and "Expected object content" at the positions the source reports them |
| PdfDocument.ResolvingBounded | src/document.rs:307-309 | only object numbers in the table resolve |
| PdfDocument.GetObjectF | src/document.rs:353-358 | a reference is resolved; any other object comes back as it is |
| PdfDocument.CatalogF | src/document.rs:361-370 | "Missing Root in trailer" without `Root`, "Root must be reference" when it is not a reference, otherwise the resolved `Root` |
| PdfDocument.PagesRefF | src/document.rs:374-379 | succeeds exactly when the catalog is a dictionary whose `Pages` entry is a reference, and gives that reference; "Missing Pages in catalog" otherwise |
| PdfDocument.TypeName | src/document.rs:424-427 | the `Type` entry's name, or `""` when it is missing or not a name |
| PdfDocument.NodeF | src/document.rs:419-453 | a node is taken as a page exactly when it is typed `Page`, or is of another type than `Pages` and has `Contents` or `MediaBox` |
| PdfDocument.CollectF | src/document.rs:417-456 | the corrected walk of the page tree (an ancestor met again contributes nothing); every object it collects is a page leaf |
| PdfDocument.KidsF | src/document.rs:441-445 | the kids of a `Pages` node visited in order, non-references skipped, the first error ending the walk; every collected object is a page leaf |
| PdfDocument.SelfParentNeverEnds | src/document.rs:417-456 | a `Pages` node that lists itself as a kid: the code as written never returns, whatever the depth allowed; the guarded walk gives no pages |
| PdfDocument.CollectAgrees | src/document.rs:417-456 | on a tree where no node has the number of one of its ancestors, the walk as written ends, with one level per number not yet on the path, and gives exactly the guarded walk's result |
| PdfDocument.KidsAgree | src/document.rs:441-445 | on such a tree, the loop over the kids as written ends and gives the guarded loop's result |
| PdfDocument.RefKids | src/document.rs:441-442 | the kids that are references, in order; each of them is among the kids |
| PdfDocument.KidsInOrder | src/document.rs:436-445 | depth first and left to right: when the walk under every reference kid succeeds, the node's pages are those walks' pages, kid after kid, and other kids add nothing |
| PdfDocument.KidsFirstError | src/document.rs:441-445 | the first reference kid whose walk fails decides the error, whatever the kids after it hold |
| PdfDocument.PageTreeF | src/document.rs:374-383 | the pages under the catalog's `Pages` node, each a page leaf |
| PdfDocument.PageCountF | src/document.rs:373-385 | succeeds exactly when the walk does, and counts the pages it collects (never the `Count` entry) |
| PdfDocument.PageCountAsWritten | src/document.rs:373-385 | on a page tree without cycles, the page count is the number of pages the walk as written collects, and its error is that walk's error |
| PdfDocument.GetPageF | src/document.rs:398-414 | succeeds exactly for an index below the page count, with a page leaf; a larger index is "Page n not found" |
| PdfDocument.StreamF | src/document.rs:388-395 | a resolved object that is not a stream is "Expected stream object"; a resolution error passes through; a stream is decoded by its filters |
| PdfDocument.ContentsOfOne | src/document.rs:465-477 | a `Contents` array of one reference gives that stream's data and a line feed, or the stream's error |
| PdfDocument.JoinStreamsAppend | src/document.rs:467-477 | joining is concatenation: the streams of `a + b` are those of `a` followed by those of `b` |
| PdfDocument.JoinStreamsStep | src/document.rs:470-476 | one turn of the joining loop: a non-reference item adds nothing, a stream adds its data and a line feed, a failing stream ends the join with its error |
| PdfDocument.ToUnicodeF | src/document.rs:531-539 | a table exactly when `ToUnicode` is a reference whose stream can be read |
| PdfDocument.NamedChoice | src/document.rs:545-559 | MacRoman exactly for the name `MacRomanEncoding`, WinAnsi for every other name or none |
| PdfDocument.DeclaredChoice | src/document.rs:541-572 | MacRoman exactly when `Encoding` names it directly or as the `BaseEncoding` of an encoding dictionary; WinAnsi otherwise |
| PdfDocument.ChoiceOf | src/document.rs:530-572 | a readable `ToUnicode` table wins; otherwise the declared encoding |
| PdfDocument.FontChoiceF | src/document.rs:524-528 | a font that does not resolve to a dictionary is "Font is not a dictionary"; a success is the choice for the font's dictionary |
| PdfDocument.AsciiToUnicode | src/document.rs:533-535 | an ASCII `ToUnicode` stream is parsed as its bytes read one character each |
| PdfDocument.PageLinesLayout | src/document.rs:579-609 | the page's lines hold every span exactly once (as a multiset), in reading order; each line lies within 3.0 of its first span, and consecutive lines start more than 3.0 apart |
| PdfDocument.PageText | src/document.rs:576-624 | the sort, the grouping and the joins give `PageTextF`: each line's texts joined by spaces, the lines by line feeds |
| PdfDocument.NewEncoding | src/document.rs:545-561 | a fresh encoding whose tables are those of the chosen encoding (`from_cid_map`, `mac_roman` or `win_ansi`) |
| PdfDocument.WithPagesTwice | src/document.rs:432-443 | adding pages in two steps is adding both at once |
| PdfDocument.Document.constructor | src/document.rs:46-51 | a document over the file, its table and trailer, with an empty cache |
| PdfDocument.Document.Parse | src/document.rs:31-52 | fails exactly when the file structure (header, `startxref`, table chain, trailer) fails, with its error; otherwise a fresh document with that table and trailer |
| PdfDocument.Document.Resolve | src/document.rs:300-350 | returns `ResolveF`; a success is cached, an error leaves the cache as it was; every cached object stays what resolving its reference gives |
| PdfDocument.Document.GetObject | src/document.rs:353-358 | returns `GetObjectF`, keeping the cache valid |
| PdfDocument.Document.Catalog | src/document.rs:361-370 | returns `CatalogF`, keeping the cache valid |
| PdfDocument.Document.CollectPages | src/document.rs:417-456 | returns `CollectF`, keeping the cache valid |
| PdfDocument.Document.CollectKids | src/document.rs:436-445 | the loop over a node's kids returns `KidsF` |
| PdfDocument.Document.Pages | src/document.rs:399-408 | returns `PageTreeF` |
| PdfDocument.Document.PageCount | src/document.rs:373-385 | returns `PageCountF` |
| PdfDocument.Document.GetPage | src/document.rs:398-414 | returns `GetPageF` |
| PdfDocument.Document.GetStreamData | src/document.rs:388-395 | returns `StreamF` |
| PdfDocument.Document.GetPageContents | src/document.rs:459-481 | returns `ContentsF`: "Page has no Contents", one stream, the joined streams of an array, or "Invalid Contents type" |
| PdfDocument.Document.ReadStreams | src/document.rs:467-478 | the loop over a `Contents` array returns `JoinStreamsF` |
| PdfDocument.Document.ReadToUnicode | src/document.rs:531-539 | returns `ToUnicodeF` |
| PdfDocument.Document.LoadSingleFontEncoding | src/document.rs:524-573 | fails exactly as `FontChoiceF` does; otherwise a fresh encoding whose tables realise the font's choice |
| TextSpans.Insert | src/extract/table.rs:117-121 | one insertion step of the stable sort: the span is added once and nothing else changes (as a multiset) |
| TextSpans.StableSort | src/extract/table.rs:117-121 | the reading-order sort is a permutation of its input |
| TextSpans.PrecedesTransitive | src/extract/table.rs:117-121 | the reading order (higher y first, then smaller x) is transitive |
| TextSpans.InsertKeepsOrder | src/extract/table.rs:117-121 | inserting into a sorted sequence keeps it sorted, adding only the new span |
| TextSpans.StableSortSorted | src/extract/table.rs:117-121 | the sort's result is in reading order |
| TextSpans.AtPlace | src/extract/table.rs:117-121 | the spans at one place, which the comparator holds equal, in their order; never more than the input |
| TextSpans.InsertAtPlace | src/extract/table.rs:117-121 | inserting a span puts it after the spans already at its place and leaves other places alone |
| TextSpans.StableSortIsStable | src/extract/table.rs:117-121 | `sort_by` is stable: the spans at any one place come out in their input order |
| TextSpans.StableExample | src/extract/table.rs:117-121 | two spans at the same place keep their order around a span above them |
| TextSpans.SortForReading | src/extract/table.rs:117-121 | the sort (a stable `sort_by`) returns `StableSort`: in reading order and a permutation of its input |
| TextSpans.InsertBy | src/extract/table.rs:35 | one insertion step of a stable sort by a key: a permutation adding the element |
| TextSpans.SortBy | src/extract/table.rs:35 | a stable sort by a key (`x` within a row) is a permutation of its input |
| TextSpans.InsertByBounded | src/extract/table.rs:35 | inserting keeps every key within a bound the elements share |
| TextSpans.InsertBySorted | src/extract/table.rs:35 | inserting into a sequence sorted by the key keeps it sorted |
| TextSpans.SortBySorted | src/extract/table.rs:35 | the result of the sort by a key is sorted by that key |
| TextSpans.WellFormedAppend | src/extract/table.rs:144-146 | closing a non-empty row within the tolerance keeps every row so |
| TextSpans.FlattenAppend | src/extract/table.rs:135-146 | the spans of the rows after a row is closed are the earlier ones followed by the row's |
| TextSpans.RowsCover | src/extract/table.rs:127-146 | the grouping loop loses and repeats no span: its rows, read in order, are its input |
| TextSpans.RowsInvariant | src/extract/table.rs:127-146 | every row the loop builds lies within the tolerance of its first span |
| TextSpans.RowsFlatten | src/extract/table.rs:115-149 | the rows, read in order, are the input, and none is empty |
| TextSpans.RowsPartition | src/extract/table.rs:115-149 | the rows partition the input in order, and every span of a row lies within the tolerance of the row's first span |
| TextSpans.SeparatedAppend | src/extract/table.rs:133-140 | a row started by a span beyond the tolerance keeps consecutive rows apart |
| TextSpans.RowsSeparatedInvariant | src/extract/table.rs:127-146 | each row the loop starts is further than the tolerance from the previous row's first span |
| TextSpans.RowsApart | src/extract/table.rs:115-149 | the first spans of consecutive rows are further apart in y than the tolerance |
| TextSpans.GroupRows | src/extract/table.rs:123-148 | the grouping loop returns `Rows` |
| TextSpans.Texts | src/document.rs:615-618 | the texts of a line's spans, one per span, in order |
| Tables.NonBlank | src/extract/table.rs:14-17 | the kept spans are no more than the input's |
| Tables.NonBlankEmpty | src/extract/table.rs:14-24 | nothing is kept exactly when every span's text is blank once trimmed |
| Tables.NonBlankOnly | src/extract/table.rs:14-17 | every span kept is one of the input's and is not blank |
| Tables.NonBlankKeeps | src/extract/table.rs:14-17 | every span that is not blank is kept |
| Tables.NearestIn | src/extract/table.rs:206-215 | the nearest column to `x`: no column is nearer, and every earlier one is strictly further (`min_by` keeps the first of equal minima) |
| Tables.Nearest | src/extract/table.rs:206-215 | a column index within the columns |
| Tables.Place | src/extract/table.rs:218-221 | appending to a cell keeps the number of cells |
| Tables.CellsF | src/extract/table.rs:199-225 | a row of cells has one cell per column |
| Tables.GridF | src/extract/table.rs:196-227 | one row of cells per row of spans, each with one cell per column |
| Tables.TableOf | src/extract/table.rs:26-47 | every row of the table has exactly `num_columns` cells |
| Tables.EscapeCsv | src/extract/table.rs:230-236 | a cell without comma, quote, CR or LF is left as it is; any other is wrapped in quotes and no shorter |
| Tables.CsvFields | src/extract/table.rs:55-57 | one field per cell |
| Tables.CsvLines | src/extract/table.rs:52-60 | one line per row |
| Tables.TsvCells | src/extract/table.rs:69-71 | each cell with its tabs turned into spaces |
| Tables.TsvLines | src/extract/table.rs:66-74 | each row's cells joined by tabs |
| Tables.WidthsF | src/extract/table.rs:85-92 | the widths loop never narrows a column |
| Tables.RowWidths | src/extract/table.rs:87-91 | one width per column; cells beyond the columns are ignored |
| Tables.ZeroWidths | src/extract/table.rs:85 | every column starts at width zero |
| Tables.PadCells | src/extract/table.rs:98-103 | each cell left-aligned to its column's width, width zero past the last column |
| Tables.TextLinesOf | src/extract/table.rs:95-108 | one line per row: the padded cells joined by two spaces, trimmed at the end |
| Tables.FlattenCount | src/extract/table.rs:154-157 | the spans of the rows are as many as the rows hold |
| Tables.XPositionsCount | src/extract/table.rs:154-157 | one x position per span of the rows |
| Tables.SortRowsCount | src/extract/table.rs:34-36 | sorting each row keeps the number of spans |
| Tables.RowsOfCount | src/extract/table.rs:31-36 | the rows hold one x position per input span and are no more than the spans |
| Tables.NonEmptyRowsCount | src/extract/table.rs:127-146 | rows that are never empty are no more than the spans they hold |
| Tables.RowsLayout | src/extract/table.rs:31-36 | the rows hold every span once, in reading order; each lies within the tolerance of its first span; consecutive rows start further apart; each row, sorted, holds its group's spans in ascending x |
| Tables.ClusterNonEmpty | src/extract/table.rs:170-190 | clustering at least one position gives at least one column |
| Tables.SumBounds | src/extract/table.rs:179 | a sum of values between two bounds lies between the bounds times the count |
| Tables.AverageBounds | src/extract/table.rs:179 | a cluster's average lies between its smallest and largest position |
| Tables.QuotientBounds | src/extract/table.rs:179 | dividing by the count keeps the bounds |
| Tables.ClusterIncreasing | src/extract/table.rs:166-192 | the clustering loop pushes strictly ascending averages, no more than the positions |
| Tables.ColumnsAscend | src/extract/table.rs:152-193 | the detected columns ascend strictly, are no more than the x positions, and there are some exactly when there are positions |
| Tables.CloseTogether | src/extract/table.rs:170-190 | positions never more than 10 apart make a single column, at their average |
| Tables.CellHoldsItsTexts | src/extract/table.rs:204-222 | each cell holds, joined by single spaces, the texts of exactly the spans nearest its column, in row order; it is empty exactly when there are none |
| Tables.FromSpansShape | src/extract/table.rs:12-48 | only blank spans give the empty table; otherwise at least one column, no more columns or rows than kept spans, and every row one cell per column |
| Tables.ReadQuoted | src/extract/table.rs:230-236 | reading a quoted field consumes input |
| Tables.ReadPlain | src/extract/table.rs:230-236 | reading a plain field consumes input |
| Tables.ReadField | src/extract/table.rs:230-236 | what follows a field is no longer than the text |
| Tables.ReadRecord | src/extract/table.rs:51-62 | a record ended by a line feed leaves less text than it was given |
| Tables.ReadCsv | src/extract/table.rs:51-62 | a CSV text holds at least one record |
| Tables.PlainRoundTrip | src/extract/table.rs:230-235 | a cell needing no quotes reads back as itself up to a comma, a line feed or the end |
| Tables.QuotedRoundTrip | src/extract/table.rs:231-232 | a cell with its quotes doubled reads back as itself up to the closing quote |
| Tables.FieldRoundTrip | src/extract/table.rs:230-236 | round trip: every escaped cell reads back as the cell, followed by what follows it |
| Tables.QuotedFieldRoundTrip | src/extract/table.rs:231-232 | the same for a cell that is quoted |
| Tables.QuotedFieldRead | src/extract/table.rs:232 | a quoted field is read from after its opening quote |
| Tables.PlainFieldRoundTrip | src/extract/table.rs:233-234 | the same for a cell that is left as it is |
| Tables.RecordRoundTrip | src/extract/table.rs:54-59 | a row's escaped cells joined by commas read back as the row |
| Tables.CsvRoundTripFrom | src/extract/table.rs:51-62 | the CSV lines of non-empty rows read back as the rows |
| Tables.CsvRoundTrip | src/extract/table.rs:51-62 | round trip: `to_csv` of a table whose rows are not empty reads back, by RFC 4180, as its rows |
| Tables.JoinAvoids | src/extract/table.rs:72 | a character in no part and not in the separator is not in the join |
| Tables.TsvRoundTrip | src/extract/table.rs:65-76 | round trip: when no cell holds a line feed, splitting `to_tsv` at line feeds and then at tabs gives back each cell with its tabs turned into spaces |
| Tables.WidthsCover | src/extract/table.rs:85-92 | each width is at least the length of every cell of its column |
| Tables.WidthsAttained | src/extract/table.rs:85-92 | each width is zero or the length of some cell of its column: no wider than it must be |
| Tables.JoinAt | src/extract/table.rs:105 | part `k` of a join sits at its offset |
| Tables.PaddedOffset | src/extract/table.rs:98-105 | in a padded line cell `k` starts after the widths of the earlier columns, two spaces each |
| Tables.TextColumnsAligned | src/extract/table.rs:79-111 | `to_text` aligns columns: in every row cell `k` starts at the same offset, the widths of the columns before it plus two spaces each |
| Tables.PaddedLineAt | src/extract/table.rs:98-105 | in a line of cells that fit their widths, cell `k` sits at its column's offset |
| Tables.CellOfPadded | src/extract/table.rs:102 | a padded cell begins with the cell's text |
| Tables.PadAvoids | src/extract/table.rs:102 | padding adds only spaces |
| Tables.TextLines | src/extract/table.rs:79-111 | an empty table's text is empty; otherwise, when no cell holds a line feed, its lines are the rows, each padded and trimmed at the end |
| Tables.ClusterIntoRows | src/extract/table.rs:31-36 | the sort, the grouping loop and the sort of each row by x return `RowsOf` |
| Tables.DetectColumns | src/extract/table.rs:152-193 | returns `ColumnsOf`: strictly ascending, no more columns than positions |
| Tables.AssignRow | src/extract/table.rs:200-224 | the loop over a row's spans returns `CellsF` |
| Tables.AssignToColumns | src/extract/table.rs:196-227 | returns `GridF` |
| Tables.FromSpans | src/extract/table.rs:12-48 | returns `FromSpansF`, every row one cell per column |
| Tables.ComputeWidths | src/extract/table.rs:84-92 | returns `ColumnWidths`, one width per column |
| Tables.ToText | src/extract/table.rs:79-111 | returns `ToTextF` |
| Layout.ClusterIntoLines | src/extract/layout.rs:59-90 | the lines are the rows of the spans sorted top to bottom and left to right, with the same tolerance rule as the table rows; flattened, they are that sorted order and no line is empty |
| Layout.RoundHalfAway | src/extract/layout.rs:100 | `f64::round`: the result is within one half of its argument, and a tie goes away from zero |
| Layout.SaturateI32 | src/extract/layout.rs:100 | the `as i32` cast saturates: values inside the 32-bit range are kept, those below or above become the smallest or largest `i32` |
| Layout.BestKeyIn | src/extract/layout.rs:106-109 | the winning size key is the key of one of the spans and beats every other key: it weighs more characters, or as many and is larger (the last maximum of `max_by_key` over ascending keys) |
| Layout.FreqWeights | src/extract/layout.rs:97-104 | the frequency map has a key exactly for the size keys of the spans, each mapped to the characters of the spans with that key |
| Layout.WeightAbsent | src/extract/layout.rs:97-104 | a key no span has weighs nothing |
| Layout.BodySizeIsHeaviest | src/extract/layout.rs:93-110 | a key carried by some span and beating every other key is the body size, halved |
| Layout.FillFrequencies | src/extract/layout.rs:97-104 | the loops over lines and spans fill the frequency map of all the spans |
| Layout.CountLine | src/extract/layout.rs:99-103 | counting one line's spans into the map of the spans before it gives the map of both |
| Layout.PickKey | src/extract/layout.rs:106-108 | the first candidate key is a key of the map |
| Layout.HeaviestKey | src/extract/layout.rs:106-108 | `max_by_key` gives nothing on an empty map; otherwise a key of the map that weighs more than every other key or as much and is larger |
| Layout.HeaviestIsBody | src/extract/layout.rs:106-109 | the heaviest key, halved, is the body size, and 12 when there are no spans |
| Layout.ComputeBodyFontSize | src/extract/layout.rs:93-110 | the body size computed by the loops is the heaviest key halved, or 12 |
| Layout.Xs | src/extract/layout.rs:118 | the x positions of the spans, one per span, in order |
| Layout.ClustersFrom | src/extract/layout.rs:121-130 | the cluster count grows by at most one per remaining position |
| Layout.XClustersBounds | src/extract/layout.rs:113-133 | no spans have no clusters; otherwise there are between one cluster and one per span |
| Layout.OneCluster | src/extract/layout.rs:125-130 | positions all within 10 of the cluster's first position add no cluster |
| Layout.XClustersExample | src/extract/layout.rs:121-130 | the positions 50, 52, 200 and 350 form three clusters: 52 joins the cluster at 50 |
| Layout.CountXClusters | src/extract/layout.rs:113-133 | the loop's cluster count is the count over the positions sorted in ascending order |
| Layout.MaxSize | src/extract/layout.rs:140-143 | the fold of `f64::max` from 0 is at least 0 and every span's size, and it is 0 or one of the sizes |
| Layout.Trimmed | src/extract/layout.rs:145-148 | each span's text with the white space around it removed, in order |
| Layout.KindOf | src/extract/layout.rs:157-170 | a heading exactly when the ratio is at least 1.3 with at most two clusters, at level 1, 2 or 3; a table candidate exactly with three or more clusters; a paragraph otherwise |
| Layout.LevelMonotone | src/extract/layout.rs:157-165 | a larger ratio with at most two clusters is a heading of the same or a higher level |
| Layout.BodySizedLineIsNoHeading | src/extract/layout.rs:136-170 | a line whose spans are all no larger than a positive body size is never a heading |
| Layout.RatioAtMostOne | src/extract/layout.rs:151-155 | a largest size between 0 and a positive body size gives a ratio of at most 1 |
| Layout.ClassifiedLineKeeps | src/extract/layout.rs:136-178 | a classified line holds the same spans, sorted by x, and its text is their trimmed texts joined by one space |
| Layout.ClassifyAll | src/extract/layout.rs:34-37 | one classified line per line, each classified against the same body size |
| Layout.TableRunEnd | src/extract/layout.rs:196-199 | the run of table candidates from a line ends at the first line that is not one, or at the end |
| Layout.ParagraphRunEnd | src/extract/layout.rs:228-237 | the paragraph run continues over paragraph lines whose gap to the line before is at most 1.5 body sizes, and stops at the first line of another kind or with a larger gap |
| Layout.GroupEnd | src/extract/layout.rs:185-244 | every step of the merge loop moves forward by at least one line |
| Layout.LineTexts | src/extract/layout.rs:234 | the texts of the lines, one per line, in order |
| Layout.GroupElement | src/extract/layout.rs:186-243 | every group of lines gives at most one element |
| Layout.MergeF | src/extract/layout.rs:181-248 | merging gives at most one element per line |
| Layout.GroupsTile | src/extract/layout.rs:185-245 | the group starts begin at the first line, ascend, each group starts where the one before ends, and the last ends at the last line |
| Layout.HeadingsConcat | src/extract/layout.rs:188-191 | the headings of two element lists joined are the headings of each, joined |
| Layout.NoHeadingLines | src/extract/layout.rs:186-243 | lines that are not headings add no heading |
| Layout.HeadingsKept | src/extract/layout.rs:181-248 | the headings of the merged elements are exactly the heading lines, with their levels and texts, in order |
| Layout.GroupHeadings | src/extract/layout.rs:186-243 | a group gives a heading exactly when its first line is a heading line, with that line's level and text |
| Layout.NoCandidatesNoTables | src/extract/layout.rs:194-222 | without table candidate lines there is no table element |
| Layout.TableRuns | src/extract/layout.rs:194-222 | a run of two or more candidates becomes one table of all their spans; a single candidate becomes a table of its own spans with four or more clusters, and a paragraph of its text otherwise; merging resumes after the run |
| Layout.ParagraphRuns | src/extract/layout.rs:223-243 | a paragraph run joins its lines' texts with one space and becomes a paragraph unless the joined text is blank; merging resumes at the first line of another kind or after a large gap |
| Layout.MergeLines | src/extract/layout.rs:181-248 | the merge loop's elements are the merge of all lines |
| Layout.MergeStep | src/extract/layout.rs:185-245 | emitting one group's element keeps the merge loop's invariant at the next group |
| Layout.MergeTableRun | src/extract/layout.rs:194-222 | the table-candidate arm stops at the end of the run and emits that group's element |
| Layout.MergeParagraphRun | src/extract/layout.rs:223-243 | the paragraph arm stops at the end of the run and emits that group's element |
| Layout.GatherParagraph | src/extract/layout.rs:225-237 | the inner loop collects the texts of the run's lines and stops where the run ends |
| Layout.ParagraphGroup | src/extract/layout.rs:239-242 | a paragraph group's element is its joined text, or nothing when that text is blank |
| Layout.BlankPageIsEmpty | src/extract/layout.rs:14-21 | spans whose texts are all blank give no elements |
| Layout.ClassifySpansHeadings | src/extract/layout.rs:13-41 | a page gives no more elements than lines, and its headings are exactly the lines classified as headings |
| Layout.ClassifySpans | src/extract/layout.rs:13-41 | drops blank spans, groups the rest into lines at half the mean font size, classifies each line against the body size and merges them |
| Markdown.EscapePipe | src/extract/markdown.rs:95-97 | text without a pipe is unchanged, and escaping never shortens text |
| Markdown.EscapedHead | src/extract/markdown.rs:95-97 | escaped text never starts with a bare pipe |
| Markdown.EscapePipeRoundTrip | src/extract/markdown.rs:95-97 | removing the backslash before each escaped pipe gives back the original text |
| Markdown.PipesEscaped | src/extract/markdown.rs:95-97 | every pipe in escaped text follows a backslash |
| Markdown.EscapeRow | src/extract/markdown.rs:84 | each cell of a row escaped, in order |
| Markdown.EscapeRows | src/extract/markdown.rs:84 | each row escaped, in order |
| Markdown.MdWidths | src/extract/markdown.rs:45-53 | one width per column of the table |
| Markdown.MdWidthsBounds | src/extract/markdown.rs:45-53 | a column's width is at least 3 and at least every escaped cell of that column, and it is 3 or the length of one of them |
| Markdown.MdCells | src/extract/markdown.rs:80-93 | one formatted cell per column, as many as the longer of the row and the widths, the missing ones empty and a missing width 3 |
| Markdown.MdCellShape | src/extract/markdown.rs:85 | a formatted cell ends in a pipe, and a cell that fits takes its width plus three characters |
| Markdown.PiecesEnd | src/extract/markdown.rs:82-91 | cells that each end in a pipe, concatenated, end in a pipe |
| Markdown.RowPipes | src/extract/markdown.rs:80-93 | a formatted row starts and ends with a pipe |
| Markdown.Dashes | src/extract/markdown.rs:61 | one run of dashes per column, as long as its width |
| Markdown.SeparatorCells | src/extract/markdown.rs:63-67 | each separator cell is a space, its dashes and a space and a pipe |
| Markdown.SeparatorIsRow | src/extract/markdown.rs:61-68 | the separator line is the row of dash runs formatted like any other row, each run fitting its column |
| Markdown.PiecesBorders | src/extract/markdown.rs:82-91 | cells that fit their widths put a pipe at the end of every column |
| Markdown.RowBorders | src/extract/markdown.rs:80-93 | a row whose escaped cells fit their widths has a fixed length and a pipe at every column border |
| Markdown.PipedBorders | src/extract/markdown.rs:81-91 | the leading pipe and the fitting cells put a pipe at every column border |
| Markdown.MdLines | src/extract/markdown.rs:55-74 | the lines of a table are its header, the separator and each data row, one line more than rows |
| Markdown.RowAvoidsNewline | src/extract/markdown.rs:80-93 | cells without line breaks give a row without line breaks |
| Markdown.LineIsRow | src/extract/markdown.rs:55-74 | line 0 is the header row, line 1 the separator, and line k the row before it |
| Markdown.LineShape | src/extract/markdown.rs:55-74 | every line of a table without line breaks in its cells is one line ending in a pipe |
| Markdown.TableTextLines | src/extract/markdown.rs:55-77 | splitting a table's text at line breaks gives back its lines: the trailing line break is removed and nothing else |
| Markdown.TableMarkdownLines | src/extract/markdown.rs:37-78 | a table without rows renders as nothing; otherwise its rendering splits into its lines |
| Markdown.LinesAligned | src/extract/markdown.rs:45-93 | every line of a table whose escaped cells fit has the same length and a pipe at every column border |
| Markdown.MdTableAligned | src/extract/markdown.rs:37-78 | every line of a rendered table has the same length and a pipe at the same position for each column |
| Markdown.MdPieces | src/extract/markdown.rs:8-26 | one Markdown piece per element, in order |
| Markdown.ElementsToMarkdownF | src/extract/markdown.rs:5-34 | the document is empty or ends in exactly one line break after a character that is not white space |
| Markdown.MarkdownBlank | src/extract/markdown.rs:28-33 | the document is empty exactly when every element renders as white space only |
| Markdown.MarkdownJoined | src/extract/markdown.rs:5-34 | when the last element's text does not end in white space, the document is the elements' pieces separated by blank lines plus one line break |
| Markdown.ParagraphAlone | src/extract/markdown.rs:17-20 | a single paragraph renders as its text and one line break |
| Markdown.StartsWithHeading | src/extract/markdown.rs:10-16 | a document starting with a heading starts with as many hashes as its level, a space and its text |
| Markdown.ComputeMdWidths | src/extract/markdown.rs:45-53 | the width loops compute the column widths |
| Markdown.FormatMdRow | src/extract/markdown.rs:80-93 | the row loops build the formatted row |
| Markdown.PadMissing | src/extract/markdown.rs:88-91 | the padding loop appends an empty cell for each missing column |
| Markdown.MissingCellStep | src/extract/markdown.rs:88-91 | appending one empty cell moves the padding loop to the next column |
| Markdown.SeparatorLine | src/extract/markdown.rs:61-67 | the separator loop builds the separator line |
| Markdown.MdLinesStart | src/extract/markdown.rs:55-68 | the first line is the header row and the second the separator |
| Markdown.MdLineIsRow | src/extract/markdown.rs:70-74 | each data row is the line after the row before it |
| Markdown.TableToMarkdown | src/extract/markdown.rs:37-78 | the rendering loops build the table's Markdown |
| Markdown.MdStep | src/extract/markdown.rs:8-26 | appending one element's piece and a blank line extends the output by that element |
| Markdown.ElementsToMarkdown | src/extract/markdown.rs:5-34 | the element loop and the final trim build the document |
| PlainText.TxtPieces | src/extract/txt.rs:7-22 | one text piece per element, in order |
| PlainText.ElementsToTxtF | src/extract/txt.rs:4-31 | the text is empty or ends in exactly one line break after a character that is not white space |
| PlainText.TxtBlank | src/extract/txt.rs:24-30 | the text is empty exactly when every element renders as white space only |
| PlainText.TxtJoined | src/extract/txt.rs:4-31 | when the last element's text does not end in white space, the text is the elements' pieces separated by blank lines plus one line break |
| PlainText.HeadingThenParagraph | src/extract/txt.rs:4-31 | a heading and a paragraph render as the heading's text, a blank line, the paragraph and one line break |
| PlainText.TableAlone | src/extract/txt.rs:17-20 | a single table renders as its aligned text and one line break |
| PlainText.HeadingLevelIgnored | src/extract/txt.rs:9-16 | a heading's level does not matter, and a heading renders as a paragraph with the same text would |
| PlainText.ParagraphsAgree | src/extract/txt.rs:13-16 | for paragraphs only, the plain text and the Markdown renderings are the same |
| PlainText.TxtStep | src/extract/txt.rs:7-22 | appending one element's piece and a blank line extends the output by that element |
| PlainText.ElementsToTxt | src/extract/txt.rs:4-31 | the element loop and the final trim build the text |

## Left out

- Flate decompression (src/decode/flate.rs, a call into `flate2`) is the function parameter `Inflater`. Nothing is assumed about what it returns.
- File I/O, printing and the command-line, wasm and library entry points (src/main.rs, src/wasm.rs, src/lib.rs) are not part of this model. They hold no logic beyond reading files and joining pages.
- `f64` is modelled as exact `real`:
  - decimal text is read exactly;
  - `f64::round` is round-half-away on reals;
  - NaN, infinities and the `partial_cmp(...).unwrap_or(Equal)` fallback are not modelled.
- `Layout.RoundHalfAway`: rounds the exact real, not the binary `f64` nearest to `font_size * 2.0`.
- Integer overflow follows a release build: an `as` cast truncates and `+` on `u16` wraps. A debug build panics on the overflowing additions; the as-written members show where (see "## Findings").
- `Common.Utf8Lossy`: gives one U+FFFD per byte that starts no valid sequence. `String::from_utf8_lossy` gives one per maximal invalid subpart, so the two differ on truncated multi-byte sequences. They agree on well-formed input (`Common.Utf8LossyAgrees`).
- `Layout.HeaviestKey`: walks the keys of the frequency map in an arbitrary order, not the `BTreeMap`'s ascending order. The result is the same key, because the winner is unique: the largest count, then the largest key.
- Cross-reference streams (PDF 1.5): the source does not support them either. The model, like the source, stops at a `/Prev` section that is not a traditional table once one table has been read, and fails otherwise.
- `PdfDocument.extract_page_text` (src/document.rs:484-493) uses `ContentParser::with_fonts`, which is not part of this model. `PdfDocument.PageText` models only the sort, grouping and joins that follow it.
- `load_font_encodings` (src/document.rs:496-521): its loop over a page's font resources is not modelled. Only the per-font `load_single_font_encoding` is modelled.
- Font `Differences` arrays are ignored, as in the source.
- `trailer()` and `object_count()` are plain accessors of the document and have no members.
- `ToUnicodeCMap`: the round trips are per section (`BfcharRoundTrip`, `BfrangeRoundTrip`) and cover the single-destination `bfrange` form. There is no round trip for the array form `<lo><hi>[...]`, nor for a whole CMap text with its section keywords. Its behaviour is stated by `ArrayFillAt` instead.
- `PdfDocument.CollectAsWritten`, `XRefTable.ChainAsWritten` and `ContentStreams.RunAsWrittenWith`: these model code that may not terminate, so they take a `fuel` bound and give `None` when it runs out. The corrected members need no fuel.
- `PdfDocument.CollectF`: the unbounded recursion of `collect_pages` on a cyclic `Kids` graph ends in a stack overflow in the source. The model gives the guarded walk and shows the as-written divergence with `SelfParentNeverEnds`.
- ObjectParsing.ParseDictF: the "Dictionary key must be name" message writes a real key as `Real` alone, without the `f64` `Debug` spelling of its value, since reals are exact `real`s here. Integer and string payloads are spelled as `{:?}` does. `ObjectParsing.TokenDebug` does not escape a name's characters, but neither message can carry a name.
- ObjectParsing.NonNameKeyFails: states the message through `TokenDebug`, so it carries the same gap for real keys.
- The object cache of `resolve` is a map field of `PdfDocument.Document`. The model does not capture aliasing of the `&PdfObject` that `resolve` returns.

## Findings

| source | as written | input that shows it | evidently intended | confidence | as-written member | corrected member |
|---|---|---|---|---|---|---|
| src/document.rs:96-115 | each `/Prev` section is read after the newer one, and `xref.insert` (line 232) lets it overwrite the newer entry | two sections that both list object 5, the newer one pointing to the older one with `/Prev` | the newest section's entry wins, as section 7.5.6 of ISO 32000-1 requires for incremental updates | not executed | XRefTable.ChainAsWritten, shown by XRefTable.OlderSectionWins | XRefTable.ChainF, proved by XRefTable.NewestWins |
| src/document.rs:96-115 | the `/Prev` chain is followed without remembering the sections already read | a trailer whose `/Prev` is the offset of its own `xref` section | the walk stops at a section already read | not executed | XRefTable.ChainAsWritten, shown by XRefTable.SelfPrevNeverEnds | XRefTable.ChainF |
| src/document.rs:207-228 | a line of 17 bytes passes the `< 17` length test (line 207), then `entry_line[17]` (line 228) indexes past its end and panics | the entry line `0000000009 00000 ` followed directly by `\n` | lines shorter than 18 bytes are rejected as `InvalidXref` | not executed | XRefTable.EntryAsWritten, shown by XRefTable.SeventeenByteLinePanics | XRefTable.EntryF |
| src/document.rs:340-345 | after the object and generation numbers, `parse_object` meets the `obj` keyword token, which it rejects (src/parser/object.rs:66-69) | `1 0 obj 42 endobj` at a table offset | the `obj` keyword is skipped and the object after it is read | not executed | PdfDocument.ResolveAsWritten, shown by PdfDocument.ObjKeywordRejected | PdfDocument.ResolveF |
| src/document.rs:417-456 | `collect_pages` recurses into every reference kid with no record of the ancestors | a `Pages` node whose `Kids` array holds a reference to itself | a node already on the path contributes no pages | not executed | PdfDocument.CollectAsWritten, shown by PdfDocument.SelfParentNeverEnds | PdfDocument.CollectF, proved by PdfDocument.CollectAgrees |
| src/content/parser.rs:189 | `parse_operand` returns `None` on `]` or `>` without moving, so `parse` (lines 81-113) comes back to the same byte for ever | the content stream `]` | a stray delimiter is passed over like any other unknown byte (src/content/parser.rs:193-195) | not executed | ContentStreams.RunAsWrittenWith, shown by ContentStreams.StrayDelimiterSpins | ContentStreams.RunWith, proved by ContentStreams.RunAgrees |
| src/content/parser.rs:262-268 | the octal escape is accumulated in `u8`, so `val * 8 + d` overflows above 255 and panics in a debug build | the literal `(\400)` | the high-order overflow is ignored, as section 7.3.4.2 of ISO 32000-1 says: the byte is the value modulo 256 | not executed | ContentStreams.StringAsWritten, shown by ContentStreams.OctalOverflowExample | ContentStreams.StringF |
| src/font/cmap.rs:109-115 | `dst_lo + i` is computed in `u16`, so it wraps (or panics in a debug build) when the range runs past `0xFFFF` | `<0000><0001><FFFF>` | a destination past `0xFFFF` is not a `u16` value and maps nothing, like a destination that is not a character | not executed | ToUnicodeCMap.RangeFillAsWritten, shown by ToUnicodeCMap.RangeDestinationWraps | ToUnicodeCMap.RangeFill, with ToUnicodeCMap.RangeFillAgrees for in-range destinations |
| src/font/cmap.rs:140-147 | `src_lo + i as u16` wraps before the `src <= src_hi` test, so a surplus destination lands on a low code | `<FFFF><FFFF>[<0041><0042>]` | only codes from `lo` to `hi` receive destinations | not executed | ToUnicodeCMap.ArrayFillAsWritten, shown by ToUnicodeCMap.ArraySourceWraps | ToUnicodeCMap.ArrayFill, with ToUnicodeCMap.ArrayFillAgrees for in-range sources |
