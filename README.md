# SmartJSON engine in Dafny

This project models the JSON engine of SmartJSON (`json.c`, `json.h`) and
proves properties of the model. The engine has five parts:

- **Recursive-descent parser.** `SJNSParse`, `_SJSNbuildVAL` and the `_SJSNmatch*` routines work over a
  text cursor, an error code and a nesting level held in the parser shell.
- **Exporter.** `_SJSNexportVAL/OBJ/ARR` and `_SJSNcapSTRING` write compact JSON into a buffer whose
  remaining room is passed down.
- **Member hash.** `_SJSNhashIDX` and `SJSNObjectIdx` compute the hash index of a member name.
- **Path query.** `SJSNQuery` works in read-only mode (0) and in auto-create mode (1).
  `SJSNObjMultiQuery` is also modelled.
- **Value tree.** The eight type tags, the linked element and member nodes, and the error codes.

The model keeps the code's own behaviour wherever it differs from RFC 8259:

- literals are matched in either case;
- string escapes stay undecoded;
- `{}` and `[]` are refused;
- any non-graphic byte counts as a blank;
- numbers such as `-`, `01` and `1.` are accepted.

## Layout

- `json_value.dfy` (`JsonValue`): the value tree.
  - Linked `next` chains are sequences.
  - A member is a name, its hash index and its own value.
  - A type byte outside 0..7 is `Unknown(tag)`.
  - Also holds the tags, the error codes and the nesting limit of 32.
- `ctype.dfy`, `wrappers.dfy`, `seqs.dfy`: character classes of the C library, `Option`, and sequence
  lemmas, including `Overwrite`, which writes text into a buffer image.
- `parse_spec.dfy` (`ParseSpec`): the parser as functions over the text and a cursor `(pos, err, level)`.
  - Every routine returns the value it built and the cursor after it.
  - The result also carries a flag telling whether the run stayed inside the fixed C buffers.
- `json_parser.dfy` (`JsonParser`): the parser as a class `Shell`, whose fields are the text, the cursor,
  the error code and the level.
  - It has one method per C routine, each with the C routine's loops.
  - Each method is proved equal to its `ParseSpec` function.
  - The number scanner fills the `num[40]` and `exp[8]` arrays.
- `parse_props.dfy` (`ParseProps`): properties of the parse.
- `json_hash.dfy` (`JsonHash`): the hash.
  - XOR is defined on naturals, and the four lanes are little-endian bytes.
  - The loop is a method proved against the function `HashOf`.
- `export_spec.dfy` (`ExportSpec`): the exporter as functions giving the text written and the error set.
- `json_exporter.dfy` (`JsonExporter`): the exporter as methods writing into an `array<char>`, with the
  C loops, proved against `ExportSpec`.
- `export_props.dfy` (`ExportProps`): what a successful export writes, the room that guarantees success,
  and the error codes.
- `query_spec.dfy` (`QuerySpec`): the path walk as functions.
  - The 128-byte name buffer `nbf` is modelled explicitly, starting from whatever the stack held.
  - Every descent returns the updated subtree.
- `json_query.dfy` (`JsonQuery`): the query loop as a method over an `array<char>` name buffer, proved
  against `QuerySpec`.
- `query_props.dfy` (`QueryProps`): properties of the query.
- `roundtrip.dfy` (`RoundTrip`): export followed by parse.

## Parameters standing in for things outside the model

- `fmt: RealFormat` stands for `sprintf("%lf")` on a real node.
  - It is a function of the mantissa and exponent texts the parser kept.
  - Real values themselves are not computed.
- `junk` is the initial content of the query's stack buffer `nbf`, which C leaves uninitialised.

## Model

| member | source | states |
|---|---|---|
| JsonParser.Shell.constructor | json.c:518-525 | a shell over the text starts at position 0 with the error code OK at level 0 |
| JsonParser.Shell.SkipBlank | json.c:61-64 | the blank-skipping loop moves the cursor exactly to `ParseSpec.SkipBlank`: the first graphic character or the end of text |
| ParseSpec.SkipBlank | json.c:61-64 | the cursor never moves back or past the text, and it stops on a graphic character or the end |
| ParseSpec.SkipBlankSkips | json.c:63 | every character passed over is a non-graphic, non-NUL character |
| JsonParser.Shell.GetString | json.c:66-99 | the two scanning loops return the text and the new cursor that `ParseSpec.GetString` gives |
| ParseSpec.GetString | json.c:66-99 | off a `"` there is no string and the cursor stays; from a `"` that yields no string the cursor is just past it; a string read is exactly the characters between the opening and the closing quote, escapes undecoded, with the cursor one past the closing quote; which quote closes it, and when there is none, is stated by `ParseSpec.GetStringExact` |
| ParseSpec.CloseQuote | json.c:75-87 | the closing quote found is a `"` at or after the start of the body; that it is the first unescaped one is stated by `ParseSpec.CloseQuoteExact` |
| ParseSpec.CloseQuoteExact | json.c:75-87 | the scan stops at q exactly when q holds a `"` and every byte before it is a unit of the body: a byte other than `"`, `\` and NUL, or a `\` followed by a non-NUL byte; so it finds the first unescaped quote, and nothing when the text ends or a NUL comes first |
| ParseSpec.CloseQuoteNone | json.c:77-87 | the scan finds nothing exactly when no quote past the start closes such a body |
| ParseSpec.CloseQuoteNulFree | json.c:77-87 | no NUL lies before the closing quote found: the scan never passes the end of text |
| ParseSpec.GetStringNulFree | json.c:89-94 | the string copied out holds no NUL |
| ParseSpec.GetStringExact | json.c:66-99 | from a `"`, the string read is b exactly when b is an escaped body followed by a `"`; there is no string exactly when no such quote exists |
| JsonParser.Shell.MatchString | json.c:101-116 | the string matcher yields the node and cursor of `ParseSpec.MatchString` |
| ParseSpec.MatchString | json.c:101-116 | the code stays OK exactly when a string was read, and otherwise becomes a syntax error; the level is unchanged |
| JsonParser.Shell.CopyDigits | json.c:140-165 | a digit-copy loop moves the cursor to the end of the digit run and appends exactly those digits to the buffer |
| JsonParser.Shell.Mantissa | json.c:134-153 | the sign, integer part, dot and fraction land in `num` in text order, and the number is real exactly when a dot was read |
| JsonParser.Shell.IntegerPart | json.c:134-140 | the first character and the following digits are copied into `num` |
| JsonParser.Shell.Fraction | json.c:142-151 | an optional dot and the digits after it are appended to `num`, and the number is marked real exactly when there was a dot |
| JsonParser.Shell.Exponent | json.c:156-168 | after `e`/`E`, a `-` is copied and a `+` skipped, and the exponent digits land in `exp` |
| JsonParser.Shell.MatchNumber | json.c:119-182 | the number matcher yields the node and cursor of `ParseSpec.MatchNumber` |
| ParseSpec.ScanNumber | json.c:119-168 | the scan's boundaries are ordered and lie within the text (a bound; what the token means is stated by `ParseProps.NumberTag` and `ParseSpec.IntegerToken`) |
| ParseSpec.IntegerToken | json.c:134-153 | a token without a dot is a sign followed by digits, as atoll reads it |
| ParseSpec.MatchNumber | json.c:119-182 | the number matcher moves forward and never changes the error code or the level |
| ParseProps.NumberTag | json.c:118-182 | a token is a real number exactly when it holds `.`, `e` or `E`; otherwise it is an integer of the value atoll gives; the token ends on a non-digit, which stays unread |
| ParseSpec.Digits | json.c:140 | a digit run ends on a non-digit |
| ParseSpec.DigitsAll | json.c:140 | every character of the run is a digit |
| JsonParser.Shell.MatchWord | json.c:343-458 | the letter-by-letter literal matcher yields the node and cursor of `ParseSpec.MatchWord` |
| JsonParser.Shell.MatchTrue | json.c:343-378 | `true` is matched by `ParseSpec.MatchWord` with the word `true` |
| JsonParser.Shell.MatchFalse | json.c:380-421 | `false` is matched by `ParseSpec.MatchWord` with the word `false` |
| JsonParser.Shell.MatchNull | json.c:423-458 | `null` is matched by `ParseSpec.MatchWord` with the word `null` |
| ParseSpec.Matched | json.c:346-367 | the count of matched letters stops at the first letter that is neither the word's letter nor its upper case |
| ParseSpec.MatchedNext | json.c:346-367 | one more letter matches exactly when the next character is the word's letter in either case |
| ParseSpec.MatchWord | json.c:343-458 | a literal only moves forward, leaves the level alone, and either keeps the code or raises a phrase error |
| ParseProps.MatchedAll | json.c:346-367 | all letters match exactly when the whole word stands at the cursor, each letter in either case |
| ParseProps.Literal | json.c:343-458 | a literal succeeds exactly when the whole word follows in either case and no letter or digit comes after it; it then yields its value with the cursor just after it, and otherwise raises a phrase error |
| JsonParser.Shell.BuildVal | json.c:460-485 | the dispatcher yields the value and cursor of `ParseSpec.BuildVal` |
| ParseSpec.BuildVal | json.c:460-485 | the cursor only moves forward and stays in the text (a bound; what the value means is stated by `ParseProps.BuildValKeeps` and `RoundTrip.BuildValBack`) |
| ParseSpec.ValueAt | json.c:474-484 | the matcher chosen by the first character only moves the cursor forward (a bound; see `ParseProps.ValueAtKeeps`) |
| JsonParser.Shell.Close | json.c:250-340 | the closer step yields the cursor of `ParseSpec.Close`: past the closer one level up, an unexpected NUL at the end of text, a syntax error otherwise |
| JsonParser.Shell.MemberHead | json.c:211-228 | a member head reads the name and colon, sets a syntax error when either is missing, and gives the name's hash index |
| ParseSpec.MemberHead | json.c:211-228 | a head that reads a name moves the cursor past it |
| JsonParser.Shell.MemberPass | json.c:210-248 | one pass of the member loop yields the member, the cursor and how the pass ended, as `ParseSpec.MemberPass` |
| ParseSpec.MemberPass | json.c:210-248 | a pass that continues at a comma has moved the cursor forward |
| JsonParser.Shell.MemberStep | json.c:210-248 | the members gathered so far plus the rest of the loop's members are the loop's members, in text order |
| ParseSpec.ObjectItems | json.c:210-248 | the member loop only moves the cursor forward (a bound; see `ParseProps.ObjectItemsKeep` and `RoundTrip.MembersBack`) |
| JsonParser.Shell.MatchObject | json.c:184-270 | the object matcher yields the value and cursor of `ParseSpec.MatchObject` |
| ParseSpec.MatchObject | json.c:184-270 | the object matcher only moves the cursor forward (a bound; see `ParseProps.ObjectKeeps`, `ParseProps.EmptyObject` and `RoundTrip.ObjectBack`) |
| JsonParser.Shell.ElementPass | json.c:298-319 | one pass of the element loop yields the element, the cursor and how the pass ended, as `ParseSpec.ElementPass` |
| ParseSpec.ElementPass | json.c:298-319 | a pass yields an element exactly when its value parsed, and a pass that continues has moved forward |
| JsonParser.Shell.ElementStep | json.c:298-319 | the elements gathered so far plus the rest of the loop's elements are the loop's elements, in text order |
| ParseSpec.ArrayItems | json.c:298-319 | the element loop only moves the cursor forward (a bound; see `ParseProps.ArrayItemsKeep` and `RoundTrip.ElementsBack`) |
| JsonParser.Shell.MatchArray | json.c:272-341 | the array matcher yields the value and cursor of `ParseSpec.MatchArray` |
| ParseSpec.MatchArray | json.c:272-341 | the array matcher only moves the cursor forward (a bound; see `ParseProps.ArrayKeeps`, `ParseProps.EmptyArray` and `RoundTrip.ArrayBack`) |
| ParseProps.EmptyObject | json.c:210-217 | `{` followed only by blanks and `}` is a syntax error at the `}` |
| ParseProps.EmptyArray | json.c:298-313 | `[` followed only by blanks and `]` is a phrase error at the `]` |
| JsonParser.Shell.Parse | json.c:487-516 | the parse yields the tree, error code and position of `ParseSpec.ParseText` |
| ParseSpec.ParseText | json.c:487-516 | a complete tree is returned exactly when the code is OK, and then only blanks follow the value up to the end of the text; no tree is returned only on UNEXP_SUFFIX, when the value parsed and a graphic byte follows it after blanks |
| JsonParser.QuickParse | json.c:518-525 | a quick parse returns the tree of `ParseSpec.ParseText`, which is complete exactly when the parse succeeded |
| ParseProps.BuildValKeeps | json.c:460-485 | a value changes the error code only to one a matcher raises, and every member it builds carries its name's hash index |
| ParseProps.ValueAtKeeps | json.c:474-484 | the same for the dispatched matcher |
| ParseProps.ObjectKeeps | json.c:184-270 | the same for an object |
| ParseProps.ObjectItemsKeep | json.c:210-248 | the same for the member loop |
| ParseProps.MemberPassKeeps | json.c:211-242 | the same for one member, whose hash index is that of its name |
| ParseProps.ArrayKeeps | json.c:272-341 | the same for an array |
| ParseProps.ArrayItemsKeep | json.c:298-319 | the same for the element loop |
| ParseProps.ElementPassKeeps | json.c:298-313 | the same for one element |
| ParseProps.ErrorPersists | json.c:487-516 | once the code is not OK, no later value resets it |
| ParseProps.ParseOutcome | json.c:487-516 | the root is returned, though partly built, exactly on an error other than unexpected trailing text; such an error is a syntax error, a phrase error or an unexpected NUL; a complete tree carries every name's hash index |
| JsonHash.HashIdx | json.c:768-782 | the byte-XOR loop computes `HashOf(name)`, and the empty name hashes to the seed `0xe3a1c280` |
| JsonHash.Hidx | json.c:939-942 | `SJSNhidx` is the hash of its argument |
| JsonHash.ObjectIdx | json.c:784-791 | a NULL node is left alone; otherwise the member keeps its name and value and gets the hash of its name |
| JsonHash.HashOfSingle | json.c:774-779 | the name `a` hashes to `0xe3a1c2e1`: its byte lands in the lowest byte of the seed |
| JsonHash.HashSwap4 | json.c:777-779 | swapping two characters four positions apart leaves the hash unchanged |
| JsonHash.SwapLanes | json.c:777-779 | after such a swap the lanes differ only in lane `i mod 4`, and only between the two swapped positions |
| JsonExporter.CapString | json.c:530-567 | the quoting routine writes a quote, the escaped text, a quote and a NUL, and returns the position of the NUL |
| JsonExporter.CapBody | json.c:539-561 | the loop writes the escaped text after the opening quote |
| JsonExporter.CapStep | json.c:540-560 | one character of the loop extends the written text by that character's escape |
| JsonExporter.CapChar | json.c:540-558 | newline, CR and tab become `\n`, `\r` and `\t`; `"` and `\` get a backslash; any other character is copied |
| ExportSpec.EscapeChar | json.c:540-558 | exactly the five escaped characters take two bytes, starting with a backslash |
| ExportProps.EscapeLength | json.c:539-561 | the escaped text is one byte longer per escaped character |
| ExportProps.CapLength | json.c:530-567 | a quoted string is its length plus two plus one per escaped character |
| ExportProps.EscapePlain | json.c:556-557 | a string with none of the five characters is copied unchanged |
| ExportProps.EscapeConcat | json.c:539-561 | escaping works character by character |
| ExportProps.EscapeRoundTrip | json.c:540-558 | removing the backslashes gives the source back |
| JsonExporter.StrCopy | json.c:633-649 | strcpy writes the text and its NUL |
| JsonExporter.ExportScalar | json.c:627-697 | a scalar below its threshold writes nothing and reports OUT_OF_BUF; otherwise it writes its text and NUL and ends at the NUL |
| JsonExporter.ExportVal | json.c:624-700 | exporting a node writes `Image(Emit(v, size))` and returns its end and error |
| JsonExporter.ExportMember | json.c:578-585 | one member writes its quoted name, a colon, its value and a comma |
| JsonExporter.ExportChild | json.c:581-582 | a child writes its value and a comma |
| JsonExporter.ExportName | json.c:578-579 | a member's quoted name and colon |
| JsonExporter.ExportObj | json.c:569-596 | the object loop writes what `ExportSpec.ObjectOut` gives |
| JsonExporter.ObjectStep | json.c:577-588 | one pass of the object loop; a member that fails ends the object after its comma |
| JsonExporter.CloseContainer | json.c:590-595 | a final comma is taken back, then the closer and a NUL follow |
| JsonExporter.ExportArr | json.c:598-622 | the array loop writes what `ExportSpec.ArrayOut` gives |
| JsonExporter.ArrayStep | json.c:606-614 | one pass of the array loop; an element that fails ends the array after its comma |
| JsonExporter.Export | json.c:702-710 | `SJSNExport` reports the export's error and writes its image; on success that is the compact JSON text of the tree followed by a NUL |
| ExportProps.EmitSound | json.c:569-700 | whatever the room, a successful export writes the compact text of the tree |
| ExportProps.ObjectSound | json.c:569-596 | a successful object is `{`, its members separated by commas, `}` |
| ExportProps.ArraySound | json.c:598-622 | a successful array is `[`, its elements separated by commas, `]` |
| ExportProps.MembersSound | json.c:577-588 | the member loop writes each member followed by a comma |
| ExportProps.ElementsSound | json.c:606-614 | the element loop writes each element followed by a comma |
| ExportProps.MemberPiecesJoin | json.c:590 | taking back the last comma of the loop's text gives the members joined by commas |
| ExportProps.ElementPiecesJoin | json.c:616 | the same for elements |
| ExportProps.EmitCompact | json.c:624-700 | a tree of defined types succeeds when the room is the text's length plus the largest threshold |
| ExportProps.ObjectCompact | json.c:569-596 | the same for an object |
| ExportProps.ArrayCompact | json.c:598-622 | the same for an array |
| ExportProps.MembersCompact | json.c:577-588 | the same for the member loop |
| ExportProps.ElementsCompact | json.c:606-614 | the same for the element loop |
| ExportProps.Thresholds | json.c:627-693 | a scalar fails exactly below its threshold (null 5, false 6, true 5, real 16, integer 33) and writes nothing; a string fails exactly when the room, taken as unsigned, is below its length plus 20; a container below 3 writes nothing; an undefined type gives EXPORT_TYPE |
| ExportProps.EmitErrors | json.c:624-710 | an export ends with OK, OUT_OF_BUF or EXPORT_TYPE, and EXPORT_TYPE only for a tree holding a node of undefined type |
| ExportProps.MembersErrors | json.c:577-588 | the same for the member loop |
| ExportProps.ElementsErrors | json.c:606-614 | the same for the element loop |
| JsonQuery.Query | json.c:795-910 | the path loop returns the tree and answer of `QuerySpec.Query` |
| QuerySpec.Query | json.c:795-807 | the tree after the query is present exactly when the root was |
| QuerySpec.Walk | json.c:809-907 | the walk never turns a node into NULL or back |
| QuerySpec.NameStep | json.c:822-876 | the same for a name step |
| QuerySpec.IndexStep | json.c:878-899 | the same for an index step |
| QuerySpec.FirstMatch | json.c:829-932 | the member chosen is the first one whose hash index matches, or none |
| QuerySpec.AtoI | json.c:883 | atoi's value fits an int (a bound; the value itself is stated by `QueryProps.AtoIDigits`) |
| QuerySpec.Unsigned | json.c:883 | a non-negative index below 2^32 is kept as it is in the unsigned counter |
| QuerySpec.Nulls | json.c:885-891 | auto-create appends NULL elements |
| QuerySpec.DigitEnd | json.c:883 | atoi's digit run ends on a non-digit |
| QuerySpec.SpaceEnd | json.c:883 | atoi's leading white space ends on a non-space |
| QuerySpec.AfterIndex | json.c:883-906 | after a `]` the index is closed and the `]` is the first byte of the buffer |
| QuerySpec.MultiQuery | json.c:912-935 | the result is the first member of the object, in list order, with the id's hash; there is one whenever such a member exists; a NULL node or a node that is not an object gives NULL |
| JsonQuery.MultiQuery | json.c:912-935 | the search loop returns `QuerySpec.MultiQuery` |
| JsonQuery.FindMember | json.c:829-834 | the member search loop stops at `FirstMatch` |
| JsonQuery.FollowNext | json.c:883-895 | the index loop finds element n when it exists, or in mode 1 after appending NULLs up to it |
| JsonQuery.VisitName | json.c:822-876 | a name step, as the loop performs it, equals `QuerySpec.NameStep` |
| JsonQuery.VisitIndex | json.c:878-899 | an index step equals `QuerySpec.IndexStep` |
| JsonQuery.NamePass | json.c:810-876 | the loop's name branch terminates the buffer and continues the walk in the child |
| JsonQuery.IndexPass | json.c:878-906 | the loop's `]` branch continues the walk in the element |
| JsonQuery.CharPass | json.c:900-906 | the loop's other branch stores one character, or the one after a backslash, in the buffer |
| JsonQuery.Rebuild | json.c:851 | putting the walk's subtree back into its parents keeps the answer |
| QueryProps.WalkReadOnly | json.c:836-868 | in mode 0 the walk leaves the tree unchanged |
| QueryProps.QueryReadOnly | json.c:795-910 | a mode-0 query leaves the tree unchanged |
| QueryProps.Collect | json.c:905-906 | a run of plain characters is copied into the buffer in order |
| QueryProps.NameBuffer | json.c:822-905 | the buffer holds the segment, a NUL, then older bytes |
| QueryProps.NameAtEnd | json.c:809-827 | a name segment ends in a name step over exactly that name |
| QueryProps.LookupName | json.c:822-876 | in mode 0 a name step answers NULL on a non-object or a missing hash, and otherwise returns or continues in the first member whose hash matches |
| QueryProps.QueryFirstMatch | json.c:795-910 | a one-segment query on an object returns the first member with the name's hash, or NULL |
| QueryProps.QueryCollision | json.c:831 | `ebcda` finds the member named `abcde`, because only hash indexes are compared |
| QueryProps.RootArray | json.c:810-869 | a path starting with `[` on a root array returns NULL, whatever follows |
| QueryProps.AtoIDigits | json.c:883 | atoi over a buffer of digits then a non-digit reads those digits |
| QueryProps.IndexEnd | json.c:878-899 | a final `[n]` returns element n, in mode 1 after appending NULLs up to it, and NULL in mode 0 when n is past the end |
| QueryProps.IndexNonArray | json.c:878-898 | an index step on a node that is not an array gives NULL and leaves the node alone |
| QueryProps.IndexEmptyArray | json.c:878-896 | a final `[0]` on an empty array gives NULL, in either mode: the element pointer is the empty list's NULL |
| QueryProps.LeakedDigits | json.c:883-905 | after the name `x12`, the unterminated buffer reads index `3` as 312 |
| QueryProps.LeakedIndex | json.c:878-899 | so `x12[3]` follows the array 312 elements on |
| QueryProps.IndexLeak | json.c:795-910 | the whole query `x12[3]` returns element 312, or NULL |
| QueryProps.AutoMember | json.c:836-847 | in mode 1 a missing member is appended at the end with type NULL and returned |
| QueryProps.AutoObject | json.c:853-868 | in mode 1 a NULL node becomes an object of one NULL member, which is returned |
| QueryProps.AutoMemberEmpty | json.c:836-838 | in mode 1 a missing member in an object with no members dereferences NULL: undefined |
| RoundTrip.ExportParse | json.c:487-516 | a portable tree, exported with room for its text plus 33, gives its compact text with OK; parsing that text brings back the same tree with OK |
| RoundTrip.BuildValBack | json.c:460-485 | a portable value's compact text, followed by a stop character, parses back to the value |
| RoundTrip.ObjectBack | json.c:184-270 | the same for an object |
| RoundTrip.MembersBack | json.c:210-248 | the member loop reads back the exported members, in order, up to the closing brace |
| RoundTrip.MemberBack | json.c:211-242 | one pass reads back one exported member, up to the comma or brace after it |
| RoundTrip.ArrayBack | json.c:272-341 | the same for an array |
| RoundTrip.ElementsBack | json.c:298-319 | the element loop reads back the exported elements, in order, up to the closing bracket |
| RoundTrip.ElementBack | json.c:298-313 | one pass reads back one exported element |
| RoundTrip.ScalarBack | json.c:474-480 | an exported scalar reads back as itself |
| RoundTrip.StringBack | json.c:66-99 | a quoted string without escaped characters reads back as the same string |
| RoundTrip.IntegerBack | json.c:119-182 | an integer's decimal text reads back as the same integer |
| RoundTrip.AtoLLIntText | json.c:180 | atoll of the `%ld` text of an integer is that integer |
| RoundTrip.IntTextLength | json.c:675-681 | a 64-bit integer's text has at most 20 characters, below the threshold of 33 |
| RoundTrip.WordBack | json.c:343-458 | an exported literal reads back as itself |
| RoundTrip.HeadBack | json.c:211-228 | an exported name and colon read back as the member's name |
| RoundTrip.EmptyObjectBreaks | json.c:590-593 | an empty object exports as `{}`, which the parser refuses with a syntax error |
| RoundTrip.EmptyArrayBreaks | json.c:616-619 | an empty array exports as `[]`, which the parser refuses with a phrase error |
| RoundTrip.EscapedStringChanges | json.c:541-543 | a string holding a newline exports as `"\n"`, which parses back to a backslash and an `n` |

## Left out

- Floating point: `atof(num)*pow(10, atoi(exp))` and `sprintf("%lf")` are not computed. A real node keeps its mantissa and exponent texts, and its exported text is the parameter `fmt`.
- Memory release (`SJSNFree` and its helpers): the model is garbage-collected.
- The malloc and free calls of the parser and the query are not modelled as operations. The placeholder node that the parser frees at the closer does not appear in the sequences.
- Fixed C buffers and libc ranges are preconditions, not behaviour:
  - the parser methods require the run to stay inside `p_stack[32]`, `num[40]` and `exp[8]`, and atoll's range;
  - the exporter methods require the caller's buffer to be large enough for what is written;
  - the query method requires that the path does not reach an undefined case (`Undefined` in `QuerySpec`).
- JsonQuery.Query: behaviour C leaves undefined is not followed; the method requires the walk's answer to be defined. That covers:
  - a write past `nbf[128]`;
  - atoi running off the unterminated buffer or overflowing;
  - a NULL predecessor or element dereferenced;
  - a path ending in a backslash.
- Mode-1 names are allocated one byte short (`malloc(strlen(nbf))` at json.c:841 and 861). The model stores the full name.
- `SJSN_LEVEL_EXCEED` is never raised by the code. The nesting limit appears only as the `safe` flag and as `room` in the round trip.
- JsonHash.ObjectIdx: a member name is always a string, so the no-op for a member whose name is NULL (json.c:787) is not represented.
- `SJSNObjMultiQuery` with a NULL node continues from a pointer that is never assigned, so it returns NULL. The model gives None.
- ParseSpec.ParseText: on an error other than UNEXP_SUFFIX, json.c:515 returns the partly built root. Its contents are not modelled: `PartialTree` carries no value. Those contents include the placeholder node that is never freed and, when an object's first member failed, a member that was already freed.
- The parser's `if(!sh)` and `if(!sh->str)` guards (json.c:492-493) are not modelled, because a shell always holds a text here.
- RoundTrip.ExportParse: covers only trees whose containers are non-empty, whose strings and names hold no escaped character and no NUL, with no real number, and nested fewer than 32 levels deep. EmptyObjectBreaks, EmptyArrayBreaks and EscapedStringChanges show why each exclusion is needed.
- The JSON-RPC layer (`jsonrpc.c`), the demo programs and the old header under `history/` are not part of this model.
