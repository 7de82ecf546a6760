# Bro log values: the broker data type, the ASCII writer and the ElasticSearch writer

This project models three pieces of the Bro network monitor in Dafny and proves
properties of them.

- **The broker value type** (`broker/data.hh`, module `BrokerData`, file
  `broker_data.dfy`). `data` is a closed tagged union over nine kinds: boolean,
  integer, count, real, string, set, table, vector and record. A `record` is a
  sequence of optional fields read through a bounds- and absence-checked `get`.
  The model covers:
  - structural equality and the variant's `<`, proved a strict total order;
  - the standard containers' ascending iteration order;
  - the hash specialisations, proved consistent with the order;
  - the compile-time rule that picks the alternative a native type is stored as.
- **The ASCII log writer** (`src/LogWriterAscii.cc`, module `AsciiWriter`, file
  `ascii_writer.dfy`). The class `Writer` holds the log file's text and the line
  buffer. Its methods follow the C++ step by step: `get_escaped_string`, the
  header that `DoInit` writes, `DoWriteOne` with its placeholders and element
  loops, and the line assembly in `DoWrite`. Each method is proved against the
  rendering functions (`Render`, `Joined`, `Line`, `Header`). These are related
  by lemmas to `Join`/`Split` and to a hex decoder.
- **The ElasticSearch writer** (`src/logging/writers/ElasticSearch.cc`, module
  `ElasticSearch`, file `elastic_search.dfy`). The class `Writer` holds the bulk
  body (`buffer`), the record `counter`, the current and previous index names and
  the bodies handed to the HTTP request. Its methods follow the C++:
  - `AddValueToBuffer`, with its byte loop;
  - `AddFieldToBuffer`;
  - the action and document lines of `DoWrite`, and its batch thresholds;
  - `BatchIndex`, `UpdateIndex` and `DoRotate`.

  A ghost record list shows that the body is always the concatenation of the
  records counted. Nothing is lost when the body is sent.

Shared pieces:
- `log_value.dfy` (`LogValue`) holds the writers' value type.
- `text_format.dfy` (`TextFormat`) holds hex digits, decimal rendering, `Join`,
  `Split`, and their inverses.
- `ints.dfy` holds the 64-bit integer ranges.
- `wrappers.dfy` holds `Option`.

Characters stand for bytes throughout. A C `char` is signed, and the model
writes out the sign extension where the code's output depends on it.

## Model

| member | source | states |
|---|---|---|
| BrokerData.TagOf | broker/data.hh:56-88 | each alternative of the variant has its own tag, and each tag names exactly one alternative |
| BrokerData.Size | broker/data.hh:151-152 | `size()` is the number of fields the record was built from |
| BrokerData.EmptyRecord | broker/data.hh:143-152 | the default record has size 0 |
| BrokerData.Get | broker/data.hh:154-159 | `get(i)` yields a value exactly when `i < size()` and field `i` is present; out of range gives none; a value is the stored one |
| BrokerData.AssignThroughGet | broker/data.hh:161-166 | assigning through the mutable `get` succeeds exactly when `get` finds a value; it keeps the size, makes `get(i)` the new value, and leaves every other index as it was |
| BrokerData.RecordDeterminedByGet | broker/data.hh:147-159 | two records of the same size that agree on `get` at every index are equal |
| BrokerData.RecordLess | broker/data.hh:171-172 | record `<` never holds between equal records |
| BrokerData.RecordOrder | broker/data.hh:168-172 | record `<` is the lexicographic order of the field sequences (an absent field below a present one), and record `==` holds exactly when neither record is below the other |
| BrokerData.Less | broker/data.hh:183-184 | values of different kinds are ordered by the kind order alone, and `<` never holds between equal values |
| BrokerData.StringLess | broker/data.hh:183-184 | string `<` never holds between equal strings |
| BrokerData.StringLessLexicographic | broker/data.hh:183-184 | string `<` is the lexicographic order by character: a proper prefix is below, otherwise the first differing character decides |
| BrokerData.ElemsLessLexicographic | broker/data.hh:16-17 | sets and vectors compare lexicographically over their contents under the value order |
| BrokerData.EntriesLessLexicographic | broker/data.hh:18 | tables compare lexicographically over their entries, each entry by key and then by value |
| BrokerData.FieldsLessLexicographic | broker/data.hh:171-172 | field sequences compare lexicographically, an absent field below a present one |
| BrokerData.LessTransitive | broker/data.hh:183-184 | the value order is transitive |
| BrokerData.LessTotal | broker/data.hh:183-184 | given a strict order on the kinds, any two values are equal or ordered one way round |
| BrokerData.StrictTotalOrder | broker/data.hh:180-184 | `a == b` exactly when neither is below the other, and never both ways |
| BrokerData.DifferentKinds | broker/data.hh:180-184 | values of different kinds are never equal, and they are ordered by their kinds' order alone |
| BrokerData.VectorOrderExamples | broker/data.hh:180-184 | vectors compare lexicographically: a proper prefix is below; otherwise the first differing element decides |
| BrokerData.AscendingPairwise | broker/data.hh:16-18 | in a set's or table's iteration order, every earlier element is below every later one |
| BrokerData.AscendingUnique | broker/data.hh:16-18 | set elements and table keys in iteration order are pairwise distinct |
| BrokerData.AscendingHeadIsLeast | broker/data.hh:16-18 | the first element of a set is below every other element |
| BrokerData.CanonicalUnique | broker/data.hh:16-18 | in a value that keeps the containers' ordering invariant, no set holds an element twice and no table a key twice |
| BrokerData.AscendingDeterminedByElements | broker/data.hh:16-18 | two sets in iteration order with the same elements are the same sequence |
| BrokerData.HashRespectsOrder | broker/data.hh:189-223 | for any combiner and scalar hashes, values that neither order below the other hash alike |
| BrokerData.Hash | broker/data.hh:189-199 | a value hashes as its tag's hash combined with its alternative's; for sets, vectors, tables and records that is the fold of the parts' hashes into a zero seed, in iteration order |
| BrokerData.ElemsHash | broker/data.hh:196-199 | the hash of a set or vector is its elements' hashes folded into a zero seed, in iteration order |
| BrokerData.EntryHash | broker/data.hh:200-210 | a table entry's hash folds the key's hash and then the value's hash into a zero seed |
| BrokerData.EntriesHash | broker/data.hh:211-212 | the hash of a table is its entries' hashes folded into a zero seed, in key order |
| BrokerData.FieldsHash | broker/data.hh:213-223 | the hash of a field sequence is the fields' hashes folded into a zero seed, an absent field contributing the absent hash |
| BrokerData.RecordHash | broker/data.hh:213-223 | a record hashes as the container hash of its fields |
| BrokerData.Deduce | broker/data.hh:90-119 | `data` itself and types derived from it are rejected; otherwise the first matching test wins, stated for each kind as an if-and-only-if: floating point gives real; bool gives boolean, tested before unsigned; unsigned gives count; signed gives integer; string-convertible gives string; each of the four containers gives itself; anything else is rejected |
| BrokerData.DeductionExamples | broker/data.hh:90-119 | bool, int32_t, uint8_t, double, `const char*`, `std::string` and vector deduce as boolean, integer, count, real, string, string, vector; `data` and a pointer are rejected |
| BrokerData.Construct | broker/data.hh:131-138 | the constrained constructor exists exactly for the deducible types; the built value has the deduced kind and carries the native value (a bool is true exactly for 1) |
| BrokerData.ConstructExamples | broker/data.hh:131-138 | concrete constructions of a bool, a negative int, a count, a double and a string |
| AsciiWriter.EscapedString | src/LogWriterAscii.cc:16-28 | the loop returns each character's `%02x` escape, in order |
| AsciiWriter.EscapeCharHighByte | src/LogWriterAscii.cc:23 | byte 0x80 escapes as `\xffffff80`, ten characters that a reader of `\x##` groups cannot decode |
| AsciiWriter.EscapedAscii | src/LogWriterAscii.cc:16-28 | for characters 0..127 the escape as written is `\x` plus two lowercase hex digits per character |
| AsciiWriter.EscapedBytesRoundTrip | src/LogWriterAscii.cc:9-15 | the two-digit escape that the function comment promises has length 4·n and decodes back to the input |
| AsciiWriter.RenderUnset | src/LogWriterAscii.cc:160-164 | an unset value is exactly the unset placeholder, and writing it succeeds |
| AsciiWriter.RenderBool | src/LogWriterAscii.cc:168-170 | a boolean is `F` for 0 and `T` otherwise |
| AsciiWriter.RenderEmpty | src/LogWriterAscii.cc:203-265 | an empty string, table or vector is exactly the empty placeholder |
| AsciiWriter.StringNeverUnset | src/LogWriterAscii.cc:217-234 | a non-empty string never renders as the unset placeholder; one equal to it renders as its first byte's `\x##` escape followed by the rest unchanged |
| AsciiWriter.RenderContainer | src/LogWriterAscii.cc:239-277 | tables and vectors render alike; a non-empty one succeeds exactly when every element does, and is then its elements' texts joined by the set separator |
| AsciiWriter.JoinedIsJoin | src/LogWriterAscii.cc:247-254 | the element loop succeeds exactly when every element renders, and then its text is the texts joined by the separator, with none leading or trailing |
| AsciiWriter.JoinedStops | src/LogWriterAscii.cc:252-253 | once an element fails, later elements change neither the result nor the text |
| AsciiWriter.RenderUnsupported | src/LogWriterAscii.cc:279-282 | a type with no case fails and writes nothing |
| AsciiWriter.LineSplits | src/LogWriterAscii.cc:294-305 | with a one-character separator that no column contains, the line ends in a newline and splits back into the columns' texts |
| AsciiWriter.HeaderLineParts | src/LogWriterAscii.cc:77-83 | a header line is the prefix, then key, separator and value, then a newline |
| AsciiWriter.HeaderNamesSplit | src/LogWriterAscii.cc:114-137 | with a one-character separator that no name contains, the `fields` header line splits back into `fields` followed by the column names in order |
| AsciiWriter.Writer.constructor | src/LogWriterAscii.cc:30-63 | a new writer has the given settings, an empty line buffer and no open file |
| AsciiWriter.Writer.WriteHeaderField | src/LogWriterAscii.cc:77-83 | appends exactly the header line for the key and value to the file |
| AsciiWriter.Writer.DoInit | src/LogWriterAscii.cc:85-146 | opens the file truncated, and it then holds the header: the escaped separator, the path (standard output when configured), the field names and the field types |
| AsciiWriter.Writer.HeaderColumns | src/LogWriterAscii.cc:114-134 | the loop yields the names and the type names joined by the separator; table and vector types carry `[subtype]` |
| AsciiWriter.Writer.WriteOne | src/LogWriterAscii.cc:158-286 | appends the value's rendering to the line buffer and returns whether it succeeded |
| AsciiWriter.Writer.WriteElements | src/LogWriterAscii.cc:247-254 | appends the elements separated by the set separator, stopping after the first that fails, and returns whether all succeeded |
| AsciiWriter.Writer.DoWrite | src/LogWriterAscii.cc:288-317 | opens the file on first use; succeeds exactly when every column renders, and then appends the columns joined by the separator plus a newline; on failure the file is unchanged |
| ElasticSearch.JsonCharEscapes | src/logging/writers/ElasticSearch.cc:140-153 | a byte is escaped as `\u00` plus its two lowercase hex digits exactly when it is below 32, 127 or above (through the signed `char`), or one of `"` `'` `\` `&`; every other byte is copied |
| ElasticSearch.JsonStringRoundTrip | src/logging/writers/ElasticSearch.cc:138-155 | the escaped bytes decode back to the string |
| ElasticSearch.StringRendering | src/logging/writers/ElasticSearch.cc:134-156 | a string is quoted, and the bytes between the quotes decode back to it |
| ElasticSearch.CountRendering | src/logging/writers/ElasticSearch.cc:84-96 | a count is `null` and reports an error exactly when it is at least INT64_MAX; otherwise it is a decimal that reads back as the count |
| ElasticSearch.IntegerRendering | src/logging/writers/ElasticSearch.cc:78-82 | false and true are `0` and `1`; an integer is a decimal that reads back as itself |
| ElasticSearch.ContainerRendering | src/logging/writers/ElasticSearch.cc:158-182 | tables and vectors render alike as `[`, the elements joined by `,`, then `]`; an empty one is `[]`; a failing element does not fail the container |
| ElasticSearch.UnsupportedRendering | src/logging/writers/ElasticSearch.cc:184-187 | a type with no case fails and appends nothing |
| ElasticSearch.DocumentColumns | src/logging/writers/ElasticSearch.cc:218-225 | the document loop's text depends only on which columns are set and on the set columns' `"name":value` texts |
| ElasticSearch.WrittenLeadingComma | src/logging/writers/ElasticSearch.cc:219-224 | the comma test as written yields the intended comma-separated fields, preceded by one stray comma exactly when the first column is unset and some column is set |
| ElasticSearch.DocumentFieldsLeadingComma | src/logging/writers/ElasticSearch.cc:218-225 | the same statement for the document loop over the record's fields and values |
| ElasticSearch.NoneWritten | src/logging/writers/ElasticSearch.cc:219-224 | when no column is set, the document body is empty |
| ElasticSearch.AbsentFirstFieldComma | src/logging/writers/ElasticSearch.cc:221 | an unset first column followed by the count 1 yields `{,"b":1}`, which is not a JSON object |
| ElasticSearch.IntendedFieldsAreJoined | src/logging/writers/ElasticSearch.cc:221 | the corrected document body is the set columns' texts joined by single commas |
| ElasticSearch.DocumentAsIntended | src/logging/writers/ElasticSearch.cc:218-225 | when the first column is set (or there are none), the code as written produces the set columns joined by single commas |
| ElasticSearch.ActionLineBraces | src/logging/writers/ElasticSearch.cc:210-216 | for brace-free index, prefix and path, the action line as written opens two braces and closes only one |
| ElasticSearch.IntendedActionLineBraces | src/logging/writers/ElasticSearch.cc:208-209 | the action line the comment describes opens and closes two braces |
| ElasticSearch.Writer.constructor | src/logging/writers/ElasticSearch.cc:26-41 | a new writer has an empty body, a zero counter, no index and nothing sent |
| ElasticSearch.Writer.BatchIndex | src/logging/writers/ElasticSearch.cc:65-72 | sends the body, then empties it and zeroes the counter; what was sent plus the body is unchanged |
| ElasticSearch.Writer.DoFinish | src/logging/writers/ElasticSearch.cc:58-63 | sends what is left and leaves the body empty |
| ElasticSearch.Writer.UpdateIndex | src/logging/writers/ElasticSearch.cc:235-252 | the previous index becomes the current one, and the current one becomes the index name, `-`, and the interval's stamp |
| ElasticSearch.Writer.DoRotate | src/logging/writers/ElasticSearch.cc:255-265 | moves on to the next index as `UpdateIndex` does |
| ElasticSearch.Writer.AddValueToBuffer | src/logging/writers/ElasticSearch.cc:74-188 | appends the value's JSON rendering, returns whether its type is supported, and reports an error exactly when a count in it is too large |
| ElasticSearch.Writer.AddString | src/logging/writers/ElasticSearch.cc:138-155 | the byte loop appends the quoted, escaped string |
| ElasticSearch.Writer.AddChar | src/logging/writers/ElasticSearch.cc:142-152 | appends one byte's JSON form |
| ElasticSearch.Writer.AddElements | src/logging/writers/ElasticSearch.cc:158-182 | appends `[`, the elements joined by `,`, then `]`, and reports an error exactly when an element overflows |
| ElasticSearch.Writer.AddFieldToBuffer | src/logging/writers/ElasticSearch.cc:190-200 | an unset field returns false and appends nothing; a set field appends `"name":value` |
| ElasticSearch.Writer.AddActionLine | src/logging/writers/ElasticSearch.cc:208-216 | appends the action line for the current index, type prefix and path |
| ElasticSearch.Writer.AddDocument | src/logging/writers/ElasticSearch.cc:218-225 | appends the document line `{`, fields, `}` and a newline, and reports an error exactly when a set field overflows |
| ElasticSearch.Writer.DoWrite | src/logging/writers/ElasticSearch.cc:202-233 | sets the index on first use; appends one action line and one document; counts the record; sends and resets once the counter or the body size reaches its threshold, so afterwards both are below their thresholds or the body is empty and the counter zero (as happens on every write when a threshold is 0); what was sent plus the body grows by exactly this record |

## Left out

- The cross-kind order and the hashes of the scalar alternatives live in `util::variant`, `util::optional`, `util::container_hasher` and `hash_combine`, which are not part of this model. They are parameters: a strict order on the kinds (`rank`) and a `Hasher` of arbitrary functions. No particular integer-versus-count order is claimed.
- Real payloads are Dafny reals: NaN, signed zero and their ordering are not modelled.
- The ASCII writer's double, time, interval, address and subnet texts (`modp_dtoa`, `dotted_addr`) are taken as already formatted text.
- The ElasticSearch writer's double, interval, address and subnet texts are taken as already formatted text. Its time conversion to milliseconds, with its own `null` and error for large values (src/logging/writers/ElasticSearch.cc:119-132), is not modelled.
- `ODesc` is not part of this model. `Add`, `AddN` and `AddRaw` are plain appends, and the separator escaping enabled by `SetEscape` (src/LogWriterAscii.cc:62) is not modelled. Integers render as signed decimals.
- File I/O of the ASCII writer is not modelled:
  - `fopen` and `fwrite` always succeed, so their error paths are not modelled;
  - `LogExt` (`getenv`) and `IsSpecial` are not modelled;
  - the log file is the text written since opening;
  - `fflush`, `DoFlush`, `DoSetBuf` and `DoRotate` (which closes and renames the file) are not modelled.
- AsciiWriter.Writer.DoWrite takes the path and fields as arguments. The C++ passes `Path()` and `Fields()` of the frontend to `DoInit`, and those accessors are not part of this model.
- The writer constructors' reads of script-level constants become constructor parameters. The C++ type name function `type_name()` is not part of this model and is a setting of the ASCII writer.
- `Error` and `Fmt` messages are reduced to an `errorReported` flag on the ElasticSearch writer and to a `false` result in the ASCII writer.
- All of libcurl (`HTTPSetup`, `HTTPSend`, `HTTPReceive`) is left out. A send appends the body to `sent` and never fails.
- `last_send`, `current_time()` and `DoHeartbeat`'s time-based send are left out, because they need the clock.
- ElasticSearch.Writer.UpdateIndex: the rotation arithmetic (`calc_next_rotate`, `gmtime_r`, `strftime`) becomes the `stamp` argument, and the debug `printf` is left out.
- The ElasticSearch `DoInit`, `DoFlush` and `DoSetBuf` do nothing and are not modelled.
- ElasticSearch.Writer.DoWrite uses unbounded integers: the `uint` cast of the body length and the 64-bit counter are not modelled.
- AsciiWriter.Writer.DoInit escapes the separator as written (`Escaped`). The corrected two-digit escape (`EscapedBytes`) agrees with it on characters 0..127 (`EscapedAscii`).
- ElasticSearch.Writer.DoWrite follows the code as written for both findings below, the comma test and the action line. The corrected definitions (`IntendedFields`, `IntendedActionLine`) stand beside it, with their properties proved.

## Findings

| source | as written | input that shows it | evidently intended | confidence | as-written member | corrected member |
|---|---|---|---|---|---|---|
| src/logging/writers/ElasticSearch.cc:221 | the comma test reads the byte one past the written text, which is never `,`, so a comma goes before every set field after the first column | a record whose first column is unset and whose second is the count 1 gives the document `{,"b":1}` | commas only between written fields | not executed | ElasticSearch.AbsentFirstFieldComma | ElasticSearch.IntendedFieldsAreJoined |
| src/logging/writers/ElasticSearch.cc:216 | the action line ends with `"}` and a newline, closing one of its two braces | any record: the line has two `{` and one `}` | `"}}` and a newline, as the comment at line 209 shows | not executed | ElasticSearch.ActionLineBraces | ElasticSearch.IntendedActionLineBraces |
| src/LogWriterAscii.cc:23 | `%02x` of a signed `char` prints a sign-extended int, so bytes from 0x80 up take eight hex digits | the byte 0x80 escapes as `\xffffff80` | `\x` and two hex digits per byte, as the function comment says | not executed | AsciiWriter.EscapeCharHighByte | AsciiWriter.EscapedBytesRoundTrip |
