# A model of the MongrelDB C++ client's wire codec

MongrelDB's C++ client is header-only. It writes request bodies with a hand-written JSON
writer, walks responses with a hand-written cursor (`JsonParser`), looks fields up without
building a tree, and builds request paths by percent-encoding. This project models that code
in Dafny and proves that the writing half and the reading half mean the same thing.

## How it is built

The code that changes things step by step is imperative here too: `Walker.JsonParser` is a
class with the fields `i` and `ok`, its methods have the loops and branches of the source,
and the getters, decoders and body builders are methods with loops. Each method is proved
against a function of its input, and that function is then compared with something that
does not know the method:

- `Grammar` has document trees that keep their layout, what text they have (`Text`), a
  reference parser, the lenient grammar the walker accepts and the strict one of RFC 8259.
- `Strings` has the byte loop of `read_string_raw` as a function and, separately, the meaning
  of a string as a sequence of written pieces. `Unicode` has UTF-16, UTF-8 and an automaton
  for well-formed UTF-8.
- `Alphabet` and `NumberLaws` fix the character classes, the kinds of value and the numbers by
  character codes, decimal places and literal bounds.
- `Lookup`, `Fields` and `IntegerLaws` compare the streaming getters with parsing first and
  looking up the tree.
- `Status`, `StatusLaws` and `StatusTrees`, `Rows` and `RowsLaws` are the response decoders and
  what they say about the document.
- `Scans` and `RowSteps` are about bytes that are no document: where a getter finds a value in
  a malformed body, and the row decoder as a flat machine that says what is thrown.
- `Writers`, `Requests` and `Tables` are the builders; `TxnLaws`, `Batches`, `QueryLaws`,
  `RangeLaws`, `ColumnLaws`, `TableLaws` and `BodyLaws` read their output back. `Truncation`
  and `TuningLaws` are about tuning blocks that do not fit their buffer.
- `Objects` shows that the text of an object determines its names and texts; with it,
  `QueryIdentity`, `TableIdentity` and `BatchIdentity` say exactly which requests have the same
  body, and `QueryValidity` which queries have a JSON body.
- `Url` is the percent-encoder and the request paths; `DotSegments` is what the removal of dot
  segments makes of them.

## Conventions

- A `std::string` is a Dafny string with one character per byte. Results hold for all
  strings, so for all byte strings; the percent-encoder, which prints a byte in hexadecimal,
  requires bytes.
- Shifts and masks on code points are written as division and remainder.
- Member names are written `Key("name")` instead of with escaped quotes.
- The getters repeat the same opening and closing steps; these are `OpenObject` and
  `NextMember`. The cases of `skip_value`, `read_string_raw` and the row decoder are methods
  of their own.
- `strtod` followed by the cast to `int64_t` is rounding to binary64, ties to even, on plain
  integers up to 2^63 - 513; for every other lexeme it is the parameter `cast`, about which
  nothing is assumed. A double is its printed text.
- JSON that callers supply as text is JSON text of RFC 8259 section 2: white space, a value,
  white space (`Fragments.IsFragment`). A body that is `Fragments.IsWhole` has no white space
  around its value.
- Exceptions are the results `None`, `Malformed` and `Outcome`.
- `Progress` and `Labels` group fields that `QueryStatus` and `DurableOutcome` have in common
  or that are read together.

## Where the code differs from what one would claim

- The comment on the getters says they return true on success. They also return true when a
  non-empty object has no such member (`Fields.FoundIsNotPresent`); `Lookup.ScanIsFind` says
  exactly what happens.
- Callers reuse scratch variables between getters. `StatusTrees.StatusIsDocument` says what
  every field then holds; `StatusTrees.QueryIdShowsAsStatus` and
  `StatusTrees.CommittedShowsAsRetryable` are bodies on which a field is not the document's;
  `StatusTrees.StatusTextsAreOwnIff`, `StatusTrees.OutcomeTextsAreOwnIff` and
  `StatusLaws.RetryableIsRightUnlessAbsent` say exactly when a text or the flag is right.
  `commit_hlc()` is right all the same (`StatusLaws.CommitHlcIsPathLookup`).
- A double such as 100.0 is printed as `100` and read back as an integer, and white space
  around raw JSON is not read back: `TxnLaws.WholeDoubleComesBackAsInteger` and
  `TxnLaws.SpaceAroundRawIsLost` are the inputs, `TxnLaws.ValueRoundTrip` the exact condition.
- Tuning blocks go through fixed buffers. `TuningLaws.HugeIndexIsNoValue` is an index that is
  cut; an index, and a whole create_table body, is valid JSON exactly when the blocks fit
  (`TuningLaws.IndexIsValueIffTuningFits`, `BodyLaws.CreateTableIsValueIffIndexesFit`).
- Range bounds are printed without a check. A condition with an infinite bound is no JSON
  (`RangeLaws.RangeIsJsonIffFinite`), and neither is its query
  (`QueryValidity.QueryIsJsonIffFinite`).
- `lo_inclusive` and `hi_inclusive` are fields of a range condition that are never sent, so an
  open and a closed range have the same body (`QueryIdentity.OpenAndClosedRangesAreSentAlike`).
  What a body does determine is `QueryIdentity.QueryBodiesEqualIff`.
- `pq_num_subvectors` and `pq_bits` are fields of an index that are never sent
  (`TableIdentity.SubvectorsAreSentAlike`). What an index and a table determine is
  `TableIdentity.IndexTextsEqualIff` and `TableIdentity.CreateTableBodiesEqualIff`.
- Names of a single or double dot are not encoded, and the URL library removes such segments:
  `DotSegments.CountOfDotDot` is an input, `DotSegments.DotRemovalKeepsPathIff` the condition.
- The walker accepts more than RFC 8259: any letters after t, f or n, any run of number
  characters, and any four bytes after `\u`. `Grammar.Lenient` is that language.

## Model

| member | source | states |
|---|---|---|
| `Walker.JsonParser.SkipSpace` | include/mongreldb/mongreldb_impl.hpp:120-126 | stops at the first byte that is not one of the four white-space bytes; keeps `ok` |
| `Walker.JsonParser.Peek` | include/mongreldb/mongreldb_impl.hpp:128-131 | the next byte after white space, or -1; the cursor ends on it |
| `Walker.JsonParser.Expect` | include/mongreldb/mongreldb_impl.hpp:133-140 | consumes exactly the wanted byte after white space, or clears `ok`; never sets it |
| `Walker.JsonParser.FindLowHalf` | include/mongreldb/mongreldb_impl.hpp:177-199 | the look-ahead for a low surrogate: finds one exactly when a hexadecimal low-half escape follows, and moves nothing |
| `Walker.JsonParser.ReadUnicodeEscape` | include/mongreldb/mongreldb_impl.hpp:163-220 | one `\u` escape: joined pair, U+FFFD for a lone half, or the code point, as UTF-8, and the cursor after what was used |
| `Walker.JsonParser.ReadStringRaw` | include/mongreldb/mongreldb_impl.hpp:142-230 | the decoded body and the position after the closing quote (StringAt); `ok` survives exactly if a quote closes it; the cursor never goes back |
| `Walker.JsonParser.ReadNumberRaw` | include/mongreldb/mongreldb_impl.hpp:232-244 | the longest run of number characters, returned unchanged |
| `Walker.JsonParser.SkipValue` | include/mongreldb/mongreldb_impl.hpp:247-292 | keeps `ok` exactly when the reference parser finds a value at the cursor, and then stops where that value ends; terminates on every input |
| `Walker.JsonParser.SkipArray` | include/mongreldb/mongreldb_impl.hpp:266-277 | the array loop, against the same parser |
| `Walker.JsonParser.SkipObject` | include/mongreldb/mongreldb_impl.hpp:251-265 | the object loop, against the same parser, including the members it goes through after a failed name |
| `Walker.JsonParser.ReadValue` | include/mongreldb/mongreldb_impl.hpp:295-329 | returns the value and end that ReadAt defines, or clears `ok` exactly where ReadAt has none |
| `Values.WordReads` | include/mongreldb/mongreldb_impl.hpp:306-313 | letters that start with t or f are a boolean, true only if they are the word true, whatever follows them |
| `Values.NullReads` | include/mongreldb/mongreldb_impl.hpp:314-317 | lower-case letters that start with n are null |
| `Values.LexemeReads` | include/mongreldb/mongreldb_impl.hpp:318-326 | a run of number characters is converted as a whole, as a double exactly if it has a point or an e, whether it is a number or not |
| `Values.NothingReads` | include/mongreldb/mongreldb_impl.hpp:327-328 | no other byte starts a value, for the reader and for the walker |
| `WalkerLaws.SkipsExactlyValues` | include/mongreldb/mongreldb_impl.hpp:247-292 | sound and complete: skip_value stops at e if and only if some tree of the lenient grammar is written from the cursor to e and does not go on there |
| `WalkerLaws.SkipsRfcValues` | include/mongreldb/mongreldb_impl.hpp:247-292 | every RFC 8259 value, in any layout, after any prefix and before any suffix that is empty or starts with white space, comma or a closing bracket, is consumed to its last byte |
| `WalkerLaws.SkippedSpanNests` | include/mongreldb/mongreldb_impl.hpp:247-292 | what a successful skip_value consumed is a correctly matched bracket word outside strings, by a separate stack scanner |
| `Grammar.ValueSound` | include/mongreldb/mongreldb_impl.hpp:247-292 | the reference parser loses nothing: the tree's text is the consumed span and its layout is accepted there |
| `GrammarLaws.ValueExact` | include/mongreldb/mongreldb_impl.hpp:247-292 | and is exact: every accepted tree written at a position is the tree built there |
| `GrammarLaws.StrictIsLenient` | include/mongreldb/mongreldb_impl.hpp:247-292 | the grammar of RFC 8259 sections 2 to 7 is contained in the accepted one |
| `GrammarLaws.TextInjective` | include/mongreldb/mongreldb_impl.hpp:247-292 | two accepted documents with the same text are the same tree, layout included |
| `Strings.StringIsMeaning` | include/mongreldb/mongreldb_impl.hpp:142-230 | the byte loop computes the meaning of the written pieces: the text is Meaning of the pieces, closed exactly when the pieces end in a quote |
| `Strings.LookAhead` | include/mongreldb/mongreldb_impl.hpp:177-199 | the look-ahead sees a low half exactly when the next piece is one, so it never swallows an escape it does not join |
| `StringLaws.StringRoundTrip` | include/mongreldb/mongreldb_impl.hpp:39-62 | for every byte string, prefix and suffix, reading `json_escape`'s output gives it back and stops right after the quote |
| `StringLaws.ReadSpelled` | include/mongreldb/mongreldb_impl.hpp:142-230 | any sequence of scalar values in any mix of raw UTF-8, the eight short escapes of RFC 8259, `\uXXXX` in digits of any case and surrogate pairs decodes to its UTF-8 encoding |
| `StringLaws.SpellingsDecodeAlike` | include/mongreldb/mongreldb_impl.hpp:142-230 | the same statement on pieces: the spelling chosen for each code point does not matter |
| `StringLaws.ReadEscapes` | include/mongreldb/mongreldb_impl.hpp:142-230 | the reader returns, for any run of written `\uXXXX` escapes in any context, their greedy UTF-16 decoding as UTF-8, and stops after the quote |
| `StringLaws.EscapesAreUtf16` | include/mongreldb/mongreldb_impl.hpp:163-220 | the same statement on pieces: a run of `\uXXXX` escapes decodes as greedy UTF-16, with exactly one U+FFFD per unpaired surrogate |
| `StringLaws.UnitReads` | include/mongreldb/mongreldb_impl.hpp:165-172 | the four hexadecimal digits of a code unit, taken from the tables of digits, are read as that unit |
| `StringLaws.AnyFourRead` | include/mongreldb/mongreldb_impl.hpp:164-172 | any four characters after `\u` are read as a code unit, characters that are no digits counting as 0 |
| `StringLaws.HexDigitsAre` | include/mongreldb/mongreldb_impl.hpp:168-170 | the accepted hexadecimal digits are those of the two tables, and nothing else counts |
| `StringLaws.ShortReads` | include/mongreldb/mongreldb_impl.hpp:153-162 | the eight short escapes read as their code points, every other escaped character but u as itself |
| `StringLaws.MalformedHalfIsNotJoined` | include/mongreldb/mongreldb_impl.hpp:177-200 | a high half followed by an escape with a character that is no digit is one U+FFFD and not joined |
| `StringLaws.ShortEscapeIsDropped` | include/mongreldb/mongreldb_impl.hpp:163-164 | a `\u` with fewer than four characters of input left is dropped |
| `StringLaws.UnclosedIsMeaning` | include/mongreldb/mongreldb_impl.hpp:142-230 | without a closing quote the reader stops at the end of the input with `ok` cleared, and what it leaves in the output is the meaning of the bytes up to there |
| `StringLaws.ReadingKeepsUtf8` | include/mongreldb/mongreldb_impl.hpp:142-230 | a valid UTF-8 body whose `\u` escapes have four hexadecimal digits decodes to valid UTF-8 |
| `Unicode.JoinIsBijection` | include/mongreldb/mongreldb_impl.hpp:191-194 | the joining arithmetic is a bijection between surrogate pairs and 0x10000..0x10FFFF |
| `Unicode.Utf8WellFormed` | include/mongreldb/mongreldb_impl.hpp:204-219 | every scalar value is encoded as well-formed UTF-8 (automaton of RFC 3629) |
| `Unicode.Utf8Inverse` | include/mongreldb/mongreldb_impl.hpp:204-219 | and can be decoded back |
| `Writers.JsonEscape` | include/mongreldb/mongreldb_impl.hpp:39-62 | appends a quoted string, byte by byte, and nothing else |
| `StringLaws.EscapeFaithful` | include/mongreldb/mongreldb_impl.hpp:39-62 | escaped text is legal under RFC 8259 section 7 and means the original bytes |
| `Writers.JsonValue` | include/mongreldb/mongreldb_impl.hpp:64-90 | appends the text of a value (doubles as their printed text) |
| `Writers.JsonCells` | include/mongreldb/mongreldb_impl.hpp:92-104 | appends a flat array of column id and value pairs |
| `TxnLaws.ValueRoundTrip` | include/mongreldb/mongreldb_impl.hpp:64-90 | `read_value` on what `json_value` wrote, in any context before a delimiter, returns the value and stops at its last byte if and only if it is not a double printed without a point or exponent, nor a non-finite double, nor raw JSON other than an array or object without white space around it |
| `TxnLaws.WholeDoubleComesBackAsInteger` | include/mongreldb/mongreldb_impl.hpp:77-85 | 100.0 is written as `100` and read as the integer 100 |
| `TxnLaws.SpaceAroundRawIsLost` | include/mongreldb/mongreldb.hpp:119-122 | raw JSON `[]` with a space after it is sent as it is and comes back without the space |
| `TxnLaws.CellsRoundTrip` | include/mongreldb/mongreldb_impl.hpp:92-104 | for every cell list, in any context, the decoder's cells loop on `json_cells` output returns the list and stops right after its bracket if and only if every value is recoverable in that sense |
| `Lookup.GetString` | include/mongreldb/mongreldb_impl.hpp:338-360 | returns what StringField defines on any byte string |
| `Lookup.GetNumber` | include/mongreldb/mongreldb_impl.hpp:362-384 | returns the lexeme that NumberField defines, before strtod |
| `Lookup.GetInt` | include/mongreldb/mongreldb_impl.hpp:386-391 | returns IntField: the lexeme through binary64 and the cast |
| `Lookup.GetUint64` | include/mongreldb/mongreldb_impl.hpp:393-420 | returns UintField, with the failure of strtoull on a mixed lexeme |
| `Lookup.GetBool` | include/mongreldb/mongreldb_impl.hpp:422-445 | returns BoolField |
| `Lookup.GetRaw` | include/mongreldb/mongreldb_impl.hpp:448-501 | returns RawField for objects and for arrays: the source slice |
| `Lookup.ScanIsFind` | include/mongreldb/mongreldb_impl.hpp:338-501 | on every body that starts with an object, in any layout, scanning reaches exactly the first member with the key's decoded name and the wanted kind at that level; with none it reaches the closing brace; on an empty object it fails |
| `Fields.StringFieldIsFind` | include/mongreldb/mongreldb_impl.hpp:338-360 | streaming equals parse-then-lookup for strings; `out` is untouched when there is no match |
| `Fields.BoolFieldIsFind` | include/mongreldb/mongreldb_impl.hpp:422-445 | the same for booleans |
| `Fields.RawFieldIsFind` | include/mongreldb/mongreldb_impl.hpp:448-501 | the same for containers, whose slice parses by itself to the member's tree |
| `Fields.IntFieldIsFind` | include/mongreldb/mongreldb_impl.hpp:386-391 | the same for get_int; an absent member gives 0 and true |
| `Fields.UintFieldIsFind` | include/mongreldb/mongreldb_impl.hpp:393-420 | the same for get_uint64, with both ways of failing |
| `Fields.NoObjectFails` | include/mongreldb/mongreldb_impl.hpp:338-501 | on a body that starts with anything but an object every getter fails and writes nothing |
| `Alphabet.KindsAre` | include/mongreldb/mongreldb_impl.hpp:338-501 | on RFC 8259 values the kinds that the getters ask for are strings, numbers, unsigned numbers, true and false, objects and arrays |
| `Alphabet.ClassesAre` | include/mongreldb/mongreldb_impl.hpp:120-126 | the character classes of the reader by character code; white space and digits are those of RFC 8259 |
| `Alphabet.StartsAre` | include/mongreldb/mongreldb_impl.hpp:278-288 | words start with t, f or n, numbers with a minus sign or a digit |
| `Alphabet.FirstBytesAre` | include/mongreldb/mongreldb_impl.hpp:351-492 | the first byte of a value that each getter waits for, by character code |
| `Scans.ScanHitsIff` | include/mongreldb/mongreldb_impl.hpp:338-501 | on any bytes, malformed or truncated, a getter finds a value at a position if and only if white space, the opening brace, complete members that do not match, and the key as a name lead there, and the byte there starts a value of the kind |
| `Scans.ScanMissesIff` | include/mongreldb/mongreldb_impl.hpp:338-501 | on any bytes, a getter reaches the closing brace if and only if the body starts with a complete object that is not empty and has no such member; in every other case without a hit it fails |
| `Scans.StringHit` | include/mongreldb/mongreldb_impl.hpp:350-353 | where it leads, get_string decodes the string, and without a closing quote fails but leaves what it decoded in the output |
| `Scans.BoolHit` | include/mongreldb/mongreldb_impl.hpp:434-438 | get_bool is true only on the word true |
| `Scans.NumberHit` | include/mongreldb/mongreldb_impl.hpp:374-377 | get_number takes the whole run of number characters |
| `Scans.UintHit` | include/mongreldb/mongreldb_impl.hpp:405-413 | get_uint64 takes the same run and fails if strtoull refuses it |
| `Scans.RawHit` | include/mongreldb/mongreldb_impl.hpp:460-466 | get_object_raw and get_array_raw return the text of the value, and fail on one that does not end |
| `Fields.FoundIsNotPresent` | include/mongreldb/mongreldb_impl.hpp:337-360 | a concrete body on which a getter returns true for an absent key, against the comment on line 337 |
| `IntegerLaws.GetIntExactIff` | include/mongreldb/mongreldb_impl.hpp:362-391 | get_int returns n exactly if and only if n has at most 53 significant bits, in particular up to 2^53; up to 2^63 - 513 it is within 512 |
| `IntegerLaws.GetIntMonotone` | include/mongreldb/mongreldb_impl.hpp:362-391 | get_int keeps the order of integers in that range |
| `IntegerLaws.FirstInexact` | include/mongreldb/mongreldb_impl.hpp:386-391 | 2^53 + 1 is the first integer that changes |
| `IntegerLaws.UnitOfBinade` | include/mongreldb/mongreldb_impl.hpp:386-391 | from 2^(52+e) to 2^(53+e) an integer is rounded to a multiple of 2^e |
| `IntegerLaws.HalfwayIsEven` | include/mongreldb/mongreldb_impl.hpp:386-391 | an integer halfway between two of them goes to the even one |
| `IntegerLaws.GetUint64Exact` | include/mongreldb/mongreldb_impl.hpp:393-420 | get_uint64 is exact on every run of digits up to 2^64 - 1 and saturates above |
| `NumberLaws.NumberReads` | include/mongreldb/mongreldb_impl.hpp:317-326 | every RFC 8259 number, before any delimiter, is read to its last byte: as an integer exactly when it has neither fraction nor exponent, with its decimal value saturated to int64, otherwise as the double of its text |
| `NumberLaws.ExponentReads` | include/mongreldb/mongreldb_impl.hpp:317-326 | `1e+20` is read as a double |
| `NumberLaws.WrittenReadsAs` | include/mongreldb/mongreldb_impl.hpp:64-90 | what each value other than raw JSON is read as once written: a non-finite double as null, a double without fraction and exponent as an integer, anything else as itself |
| `NumberLaws.NatValueIsWeighted` | include/mongreldb/mongreldb_impl.hpp:317-326 | a run of digits has its value by decimal places, digits taken from the table |
| `NumberLaws.TextIsDecimal` | include/mongreldb/mongreldb_impl.hpp:64-73 | the printed text of a number has that value by decimal places |
| `NumberLaws.LimitsAre` | include/mongreldb/mongreldb_impl.hpp:386-411 | the limits of the integer types and of exact doubles, in decimal |
| `NumberLaws.StrtollSaturates` | include/mongreldb/mongreldb_impl.hpp:317-326 | strtoll gives an integer lexeme its decimal value, kept within the literal bounds of int64 |
| `NumberLaws.StrtollStops` | include/mongreldb/mongreldb_impl.hpp:317-326 | strtoll stops at the first byte that is no digit |
| `NumberLaws.StrtollNoDigits` | include/mongreldb/mongreldb_impl.hpp:317-326 | a minus sign without digits is 0 |
| `NumberLaws.StrtoullSaturates` | include/mongreldb/mongreldb_impl.hpp:407-411 | strtoull gives a run of digits its decimal value, kept within the literal bound of uint64 |
| `NumberLaws.StrtoullFailsIff` | include/mongreldb/mongreldb_impl.hpp:407-411 | a numeric lexeme is refused if and only if it has a byte that is no digit |
| `Numbers.Binary64Nearest` | include/mongreldb/mongreldb_impl.hpp:362-391 | the modelled strtod fits in 53 bits and no value that does is nearer |
| `Numbers.StrtollInverse` | include/mongreldb/mongreldb_impl.hpp:318-324 | strtoll undoes the decimal printing of every int64 |
| `Status.ParseCommitHlc` | include/mongreldb/mongreldb_impl.hpp:504-520 | returns HlcFrom: none unless physical_micros succeeds |
| `Status.ParseDurableOutcome` | include/mongreldb/mongreldb_impl.hpp:522-569 | returns DurableFrom, with one scratch string and one scratch flag threaded through the getters |
| `Status.ParseOutcomes` | include/mongreldb/mongreldb_impl.hpp:606-612 | the nested outcomes read through one scratch text, which an absent durable inherits |
| `Status.ParseQueryStatus` | include/mongreldb/mongreldb_impl.hpp:571-614 | returns StatusFrom, scratch variables included |
| `StatusLaws.CommitHlcIsPathLookup` | include/mongreldb/mongreldb_impl.hpp:571-614 | for every status object with well-formed clocks, `commit_hlc()` (mongreldb.hpp:213-221) is the path lookup durable, outcome, top level, none; although the getters return true on absence and the scratch text is reused |
| `StatusLaws.NamesAre` | include/mongreldb/mongreldb_impl.hpp:504-614 | the 24 member names on the wire, against which the document side is stated in literals |
| `StatusLaws.StatusOnAnyBytes` | include/mongreldb/mongreldb_impl.hpp:571-614 | on any bytes, each field of a status by the literal name its getter asks for, the scratch text and flag it is given, and nothing from a getter that fails |
| `StatusLaws.LabelsOnAnyBytes` | include/mongreldb/mongreldb_impl.hpp:574-583 | the same for the labels; the server state falls back to the state |
| `StatusLaws.OutcomeOnAnyBytes` | include/mongreldb/mongreldb_impl.hpp:522-569 | the same for the texts of an outcome |
| `StatusLaws.ProgressOnAnyBytes` | include/mongreldb/mongreldb_impl.hpp:526-562 | the same for the shared fields: a number, flag or clock is set exactly if its getters succeed, to what they write |
| `StatusTrees.StatusIsDocument` | include/mongreldb/mongreldb_impl.hpp:504-614 | for every RFC 8259 status object, in any layout and member order, every field of the decoded status is given in terms of the document, scratch variables and absent members included |
| `StatusTrees.StatusTextsAreOwnIff` | include/mongreldb/mongreldb_impl.hpp:571-614 | for each text field of a status, exactly when it is the document's: an optional one if it is there, another also if nothing before it left a text behind |
| `StatusTrees.OutcomeTextsAreOwnIff` | include/mongreldb/mongreldb_impl.hpp:522-569 | the same for the text fields of an outcome |
| `StatusTrees.QueryIdShowsAsStatus` | include/mongreldb/mongreldb_impl.hpp:574-576 | a concrete body on which an absent status decodes as the query id |
| `StatusTrees.CommittedShowsAsRetryable` | include/mongreldb/mongreldb_impl.hpp:584-605 | a concrete body on which an absent retryable decodes as true |
| `StatusLaws.LabelsAreLastPresent` | include/mongreldb/mongreldb_impl.hpp:574-583 | what absent strings really hold: the last label present among those read before, so optional ones are always set |
| `StatusLaws.RetryableIsRightUnlessAbsent` | include/mongreldb/mongreldb_impl.hpp:584-605 | retryable equals the document's if and only if it is present or committed is not true |
| `Rows.DecodeRows` | include/mongreldb/mongreldb_impl.hpp:1328-1425 | the decoding loops return QueryRows: the rows, or which check threw |
| `Rows.ReadRows` | include/mongreldb/mongreldb_impl.hpp:1353-1425 | the rows array, against RowArrayAt |
| `Rows.ReadRow` | include/mongreldb/mongreldb_impl.hpp:1356-1418 | one row object, against RowObjectAt |
| `Rows.ReadRowMember` | include/mongreldb/mongreldb_impl.hpp:1364-1414 | one member of a row: its cells, or nothing for any other member, which is skipped |
| `Rows.ReadCells` | include/mongreldb/mongreldb_impl.hpp:1375-1400 | the cells loop, against CellArrayAt; the column id and value come from the same pair |
| `Rows.DecodeTableNames` | include/mongreldb/mongreldb_impl.hpp:1042-1063 | the names loop, against TableNames |
| `RowsLaws.QueryRowsAreDocumentRows` | include/mongreldb/mongreldb_impl.hpp:1328-1425 | on every response that starts with an object, in any layout and even a lenient one as long as words standing for cell values are keywords, rows are, in order, one per object of the first array-valued rows member, each the concatenation of its cells arrays; a non-object element or an odd cells array is rejected |
| `RowSteps.AnyResponseIsDriven` | include/mongreldb/mongreldb_impl.hpp:1328-1425 | on any response, malformed or truncated, the nested loops do what a flat machine of eleven modes does from the bracket of the first rows array that complete members lead to: the same rows, or the exception of the mode in which it is stuck; no rows if there is no such array |
| `RowSteps.ArrayIsDriven` | include/mongreldb/mongreldb_impl.hpp:1353-1425 | the loops from the bracket of the array against the machine, by induction over cells, members and rows |
| `RowsLaws.StrictCellsAreReadable` | include/mongreldb/mongreldb_impl.hpp:1375-1400 | every RFC 8259 object meets that condition |
| `RowsLaws.MissingCommaIsAccepted` | include/mongreldb/mongreldb_impl.hpp:1389 | the decoder does not insist on the comma between a column id and its value |
| `RowsLaws.NoObjectNoRows` | include/mongreldb/mongreldb_impl.hpp:1328-1332 | a response that starts with any other value has no rows |
| `RowsLaws.TableNamesAreDocumentNames` | include/mongreldb/mongreldb_impl.hpp:1042-1063 | on any body: no names unless it starts with an opening bracket; otherwise the decoded strings of the array in order, or an error exactly if it is no complete array of strings |
| `Writers.WriteOp` | include/mongreldb/mongreldb_impl.hpp:1167-1210 | appends one operation |
| `Writers.BuildTxn` | include/mongreldb/mongreldb_impl.hpp:1163-1218 | the transaction body; none for an empty batch |
| `Batches.TxnTreeText` | include/mongreldb/mongreldb_impl.hpp:1163-1218 | every transaction body is one RFC 8259 object |
| `Batches.BatchRecovered` | include/mongreldb/mongreldb_impl.hpp:1163-1218 | a decoder with the names of the wire in literals recovers every operation's kind, table and relevant fields, their order, and the idempotency key, and finds that nothing is to be returned; raw containers come back with the white space around them |
| `Batches.BodyDeterminesBatch` | include/mongreldb/mongreldb_impl.hpp:1163-1218 | two batches with equal bodies agree on all of those |
| `BatchIdentity.TxnBodiesEqualIff` | include/mongreldb/mongreldb_impl.hpp:1163-1218 | two batches of any values have the same body if and only if they have the same key and, in order, the same kinds, tables and relevant fields, values being compared as written |
| `BatchIdentity.LegibleTextsEqualIff` | include/mongreldb/mongreldb_impl.hpp:64-90 | on values other than integral or non-finite doubles and raw scalars, written alike is equal |
| `BatchIdentity.DoubleAndIntegerAreSentAlike` | include/mongreldb/mongreldb_impl.hpp:64-90 | putting 100.0 and putting 100 have the same body |
| `Fragments.WholeIsComplete` | include/mongreldb/mongreldb_impl.hpp:247-292 | every such text is one complete value that skip_value consumes to its last byte |
| `Requests.WriteCondition` | include/mongreldb/mongreldb_impl.hpp:1229-1294 | appends one condition, by kind, or the caller's JSON |
| `Requests.BuildQuery` | include/mongreldb/mongreldb_impl.hpp:1225-1320 | the query body, with empty lists, limits below one and a zero offset left out |
| `Requests.BuildSql` | include/mongreldb/mongreldb_impl.hpp:1428-1433 | the sql body |
| `Requests.BuildRetrieveText` | include/mongreldb/mongreldb_impl.hpp:616-630 | the retrieve_text body; k only if positive |
| `QueryLaws.ConditionRecovered` | include/mongreldb/mongreldb_impl.hpp:1229-1294 | an independent reader recovers a built condition's kind and every field that the kind sends; the inclusive flags of a range are not among them |
| `QueryLaws.QueryBodyIsFragment` | include/mongreldb/mongreldb_impl.hpp:1225-1320 | every query body is one RFC 8259 object holding the table, the conditions and the projection in order, the limit and the offset |
| `RangeLaws.RangeIsJsonIffFinite` | include/mongreldb/mongreldb_impl.hpp:1260-1274 | a built range condition is JSON if and only if neither bound is printed as `nan`, `-nan`, `inf` or `-inf` |
| `QueryValidity.QueryIsJsonIffFinite` | include/mongreldb/mongreldb_impl.hpp:1225-1320 | with valid raw conditions, a whole query body is JSON if and only if every built range bound is finite |
| `QueryValidity.RawListPassesAsTwo` | include/mongreldb/mongreldb_impl.hpp:1232-1235 | the raw condition `1,2` is no JSON, yet the body that carries it is: validity of each raw condition is not necessary |
| `QueryIdentity.QueryBodiesEqualIff` | include/mongreldb/mongreldb_impl.hpp:1225-1320 | two queries have the same body if and only if they agree on the table, the projection, the limit if positive, the offset, and condition by condition on everything but the inclusive flags and the fields that the kind ignores |
| `QueryIdentity.InclusiveFlagsAreLost` | include/mongreldb/mongreldb_impl.hpp:1260-1274 | changing `lo_inclusive` or `hi_inclusive` of any condition changes no body |
| `QueryIdentity.OpenAndClosedRangesAreSentAlike` | include/mongreldb/mongreldb.hpp:331-347 | the open and the closed range from 60 to 90 have the same body |
| `QueryLaws.SqlBodyIsFragment` | include/mongreldb/mongreldb_impl.hpp:1428-1433 | every sql body is one object that holds the statement, whatever its bytes |
| `QueryLaws.RetrieveTextBodyIsFragment` | include/mongreldb/mongreldb_impl.hpp:616-630 | every retrieve_text body is one object that holds the table, column, text and k |
| `Tables.SerializeColumn` | include/mongreldb/mongreldb_impl.hpp:694-732 | the text of a column, with its default by precedence |
| `Tables.SerializeIndex` | include/mongreldb/mongreldb_impl.hpp:734-822 | the text of an index, tuning blocks cut by their buffers |
| `Tables.SerializeCreateTable` | include/mongreldb/mongreldb_impl.hpp:824-850 | the create_table body |
| `ColumnLaws.ColumnRecovered` | include/mongreldb/mongreldb_impl.hpp:694-732 | every field of a column is read back; an expression wins over a JSON default and that over a string default |
| `TableLaws.IndexRecovered` | include/mongreldb/mongreldb_impl.hpp:734-822 | every field of an index that is sent is read back, the kind, the quantization and the algorithm by readers of the literal names, with the options of its kind and no others; `pq_num_subvectors` and `pq_bits` are never sent |
| `TableIdentity.ProductShapeIsLost` | include/mongreldb/mongreldb_impl.hpp:798-810 | changing `pq_num_subvectors` or `pq_bits` changes no index text |
| `TableIdentity.SubvectorsAreSentAlike` | include/mongreldb/mongreldb.hpp:301-308 | two product-quantized indexes with 8 and 16 subvectors have the same text |
| `TableIdentity.IndexTextsEqualIff` | include/mongreldb/mongreldb_impl.hpp:734-822 | two indexes whose blocks fit have the same text if and only if they agree on the name, the column, the kind, the predicate and the fields that the kind sends, zeros standing for defaults |
| `TableIdentity.ColumnTextsEqualIff` | include/mongreldb/mongreldb_impl.hpp:694-732 | two columns have the same text if and only if they agree on every field, the default by precedence and as text |
| `TableIdentity.CreateTableBodiesEqualIff` | include/mongreldb/mongreldb_impl.hpp:824-850 | two create_table bodies are equal if and only if the tables agree on the name, the constraints, and column by column and index by index on what is sent |
| `BodyLaws.CreateTableIsFragment` | include/mongreldb/mongreldb_impl.hpp:824-850 | create_table bodies are one RFC 8259 object with every column and index, as serialised on its own, in order |
| `Tables.BlocksWholeIffFew` | include/mongreldb/mongreldb_impl.hpp:779-810 | each tuning block is emitted whole if and only if its digits total at most 50, 36 and 38, and otherwise its first 95, 63 and 95 bytes are |
| `TableLaws.TuningRecovered` | include/mongreldb/mongreldb_impl.hpp:779-810 | then every tuning number that is emitted is read back along its path, and zero as the default |
| `TuningLaws.IndexIsValueIffTuningFits` | include/mongreldb/mongreldb_impl.hpp:734-822 | an index is a JSON value if and only if every block it emits fits; otherwise even the lenient walker rejects it |
| `TuningLaws.HugeIndexIsNoValue` | include/mongreldb/mongreldb_impl.hpp:779-797 | a concrete diskann index, with three tuning numbers of 2^64 - 1, that cannot be parsed |
| `BodyLaws.CreateTableIsValueIffIndexesFit` | include/mongreldb/mongreldb_impl.hpp:824-850 | with valid raw parts, a whole create_table body is a JSON value if and only if the blocks of every index fit; otherwise even the lenient walker rejects it |
| `Truncation.CutIsBroken` | include/mongreldb/mongreldb_impl.hpp:779-810 | wherever an index stands, if one or two closing braces and then the end of the index follow its cut block, it cannot be parsed |
| `Truncation.CutRun` | include/mongreldb/mongreldb_impl.hpp:779-810 | a block cut anywhere and followed by a brace or another block: if it can be read at all, the cut ends in the digits of a number, and what follows is read as if nothing were missing |
| `Url.UrlEncodeSegment` | include/mongreldb/mongreldb_impl.hpp:669-686 | the encoded segment, byte by byte |
| `Url.EncodedByByte` | include/mongreldb/mongreldb_impl.hpp:669-686 | each byte of a name stands as it is if and only if it is in the unreserved set of RFC 3986 section 2.3, given by codes, and otherwise as a percent sign and its two upper-case hexadecimal digits from the table |
| `Url.PathBytesMayAppear` | include/mongreldb/mongreldb_impl.hpp:1113-1122 | no byte of a path is anything but unreserved, a percent sign or a slash |
| `Url.PathMissingIff` | include/mongreldb/mongreldb_impl.hpp:1435-1449 | there is no path if and only if the query id of a status or cancel request is empty |
| `Url.PathsAre` | include/mongreldb/mongreldb_impl.hpp:1435-1449 | the five paths for a plain name, in full |
| `Url.DecodeInvertsEncode` | include/mongreldb/mongreldb_impl.hpp:669-686 | percent-decoding (RFC 3986 section 2.1) gives back every byte string |
| `Url.EncodeJoins` | include/mongreldb/mongreldb_impl.hpp:669-686 | encoding distributes over concatenation |
| `Url.EncodeIsOneSegment` | include/mongreldb/mongreldb_impl.hpp:669-686 | only unreserved bytes and percent signs are written, so never a slash, and nothing only for an empty name |
| `Url.RequestPath` | include/mongreldb/mongreldb_impl.hpp:1113-1122 | the five path templates; an empty query id is rejected (1435-1449, 1463-1469) |
| `Url.PathHasSegments` | include/mongreldb/mongreldb_impl.hpp:1113-1122 | cut at its slashes, a path has exactly its template's segments, whatever bytes the name has |
| `DotSegments.DotRemovalKeepsPathIff` | include/mongreldb/mongreldb_impl.hpp:1113-1122 | removing dot segments (RFC 3986 section 5.2.4), which the URL is not protected against (894), leaves a path as it is if and only if the name is neither `.` nor `..` |
| `DotSegments.CountOfDotDot` | include/mongreldb/mongreldb_impl.hpp:1117-1122 | counting the table `..` asks for `/count` |
| `Url.PathInjective` | include/mongreldb/mongreldb_impl.hpp:1113-1122 | different template and name pairs have different paths |

## Left out

- HTTP: libcurl set-up, headers, authentication, time-outs, the response size cap and the mapping of status codes to exceptions.
- Constructors, moves, `set_timeout`, `health` and base-URL trimming: nothing to prove.
- The text of `%.17g` and `strtod` on anything but plain integers: number lexemes are opaque.
- `parse_text_retrieve_result` and `decode_history_retention`: two getter calls each, covered by `Fields.RawFieldIsFind` and `Fields.UintFieldIsFind`.
- `truncated` of a query response: one `get_bool` call, covered by `Fields.BoolFieldIsFind`.
- Recursion depth: `skip_value` recurses once per nesting level; the machine stack is taken to be unlimited.
- Memory: allocation failures of `std::string` and `std::vector`.
- Server-side behaviour described in the documentation: atomicity, idempotent replay, retention, constraint checks and index search.
- The C headers `mongreldb_engine.h` and `mongreldb_kit.h`: declarations without bodies.
- StatusLaws.CommitHlcIsPathLookup: for clock objects with other than uint64 micros and uint32 parts the clock is only what `StatusTrees.StatusIsDocument` says, in terms of the parameter `cast`, as the conversions there depend on the C library.
- RowsLaws.QueryRowsAreDocumentRows: a response with a cell value that is a word other than true, false and null is left to `RowSteps.AnyResponseIsDriven`, since the decoder reads words (`Values.WordReads`, `Values.NullReads`) more narrowly than the walker skips them.
- QueryLaws.QueryBodyIsFragment: a condition given as JSON by the caller is taken to be valid JSON, as its documentation asks and the code does not check; an invalid one may or may not spoil the body (`QueryValidity.RawListPassesAsTwo`).
- TableIdentity.IndexTextsEqualIff: indexes with a tuning block that is cut off are left out, as their text is no JSON.
- DotSegments.DotRemovalKeepsPathIff: the base URL in front of the path is taken to have no dot segments of its own.
- `serialization_state()` of a query status: three branches on fields that `StatusTrees.StatusIsDocument` gives.
