# Verified model of the Linux tracepoint crates

This project models, in Dafny, the logic of the Rust crates that write and read Linux tracepoints:
`eventheader`, `eventheader_dynamic`, `eventheader_types`, `tracepoint` and `tracepoint_decode`. It
proves what the code is for: that an event that was built and sent is read back as it was built,
that reading any bytes at all is safe, ends and is properly nested, that the fast ways of moving
and of writing text agree with the simple ones, and that the lock-free registration code never
loses or doubles a registration or a file descriptor.

`dafny verify dfyconfig.toml` checks everything.

## How it is laid out

**The decoder.** `EnumeratorModel` states one `move_next` as a function `Step` from state to state
and the invariant it keeps on every byte string. `Enumerator` is the class with the original's
fields, updated in place; each of its methods is proved to compute the function of the same name.
`EnumeratorBudget` adds the move limit and `move_next_sibling`. What a whole run means is proved in
modules of its own: `EnumeratorTermination`, `EnumeratorNesting`, `EnumeratorPayload`,
`EnumeratorSibling`, `EnumeratorSiblingPath` and `EnumeratorSkip`, on the runs that
`EnumeratorRuns` defines. `OpenedExamples` holds whole events, header included, with the runs on
them that show where the skip, the nested walk and the decoder part.

**The codec round trip.** `EventEncoding` describes an event as a tree of fields and the bytes for
it. `EventBuilder` is the builder class, proved to append exactly those bytes; `EventFraming` puts
headers around them; `TracepointName` writes and reads the tracepoint's name. `EventOpening` checks
name and headers before enumeration. `EventDecoding` proves that the decoder visits exactly the
items of a tree whose bytes lie ahead of it, and `EventRoundTrip` puts all of it together.
`EventJourney` does it once more with the objects themselves: builder reset, filled and written,
context opened on what was sent, `move_next` called until it returns false.

**Text output.** `Unicode` defines UTF-8 (RFC 3629) and UTF-16, `TextFilters` the filters and JSON
unescaping (RFC 8259), `CharConversion` the decoders that write into a filter. `JsonWriter` is the
comma and space automaton, `JsonOutput` the loop that writes items as JSON. `JsonOfEvent` closes the
circle: the text written for a built event is the text of the tree it was built from, names, tags
and values included.

**The rest.** `RegistrationProtocol` and `DescriptorFile` model the two lock-free protocols: every
atomic operation and every system call is one step, and the steps of any number of threads
interleave freely. Their classes contain the operations as written, with a loop of arbitrary
steps of other threads between their own. `ProviderList` is the linker-list fix-up on an array,
`Sha1` the streaming hash against RFC 3174, `FormatText` and `FormatFile` the parser and printer of
tracefs "format" files, `FormatSections` what becomes of files with several sections, and
`FormatExamples` holds files that are parsed and not the same after printing.

## What the model does as the code does, and what one might not expect

- A constant-length array of structs re-reads its type for every element after the first, which
  puts the metadata cursor back before the two-byte count (`PopRewinds`). `Step` does the same, and
  `Traversal` says where such a traversal ends. `TraversalEndsWhereSkipStops` says when that is where
  the skip stops, and `ConstantArrayEndsElsewhere` is an event on which it is not: a member of its
  structs is shown once more as a field of the event.
- Both array flags together mean variable length to the decoder and are an error to the skip
  (`ReservedDiffers`). `ReservedIsRead` and `ReservedIsRefused` are two events with the same metadata,
  of which the payload lets one be read to its end and the other not.
- The pending count of the skip is one byte. The model lets it wrap around, as it does in builds
  without overflow checks. `SkipIsWalk` says exactly when the skip stops where the walk stops, and
  `WrapStopsShort` is an event on which it does not: a field declared inside a struct is shown as one of
  the event's own. With overflow checks the addition panics, exactly if more than 255 fields are
  pending somewhere (`CheckedSkip`).
- The 16-bit count of common fields in a "format" file and the end of the last one wrap around in
  the same way, and panic with overflow checks.
- A counted string of more than 65535 characters gets a four-byte count. `SmallAreUncut` shows that
  the size check of `write` refuses every event with one.
- An event may hold more than 255 top-level fields or nest structs more than 8 deep as far as the
  builder is concerned, but then it is not read to its end. `ReadsBack` says exactly when it is, and
  `SentButNotRead` names one event of each kind that is small enough to be sent.
- UTF-32 text goes around the JSON filter. `Utf32EscapedIff` says for which text that is right;
  a single quotation mark is not (`QuoteGoesUnescaped`).
- `register` on a registered tracepoint panics, as documented, but leaves the shared word BUSY for
  good. `RegisteringTwiceStrands`, `StrandedOnlyByMisuse` and `StrandedForGood` say how, that nothing
  else does, and that no later step of any thread mends it; everything else about the protocol is
  proved whether or not some thread misuses it.
- With `close` running beside it an `update` can fail any number of times: once, and twice more for
  each `close` (`FailuresOfRun`), and as often as that for any number of them (`BoundIsTight`).
- Two "format:" sections in one file add up their common fields and keep only the second list. Where
  that makes the count larger than the list, the original indexes past its end; the model's parser
  returns `Panics`. `PanicsExactly` says for which files.
- Printing a format and parsing it again does not always give it back. `FormatRoundTrip` says for
  which formats it does, and `NoCommonIsLost`, `OpenPrintFmtIsLost` and `OpenNameIsLost` give a family of
  files for each way to fail.

## Model

| member | source | states |
|---|---|---|
| EnumeratorModel.StepInv | tracepoint_decode/src/enumerator.rs:1067-1227 | On every byte string every legal move keeps the invariant: cursors in their ranges, at most 8 frames, substate and position agree, every item's bytes in bounds, sizes equal to type size times count |
| EnumeratorModel.StartValueInv | tracepoint_decode/src/enumerator.rs:1742-1889 | Starting a value of any encoding gives an item in bounds or an error |
| EnumeratorModel.StartArrayInv | tracepoint_decode/src/enumerator.rs:1670-1728 | Starting an array gives its begin item with whole fixed-size payload in bounds, or an error |
| EnumeratorModel.NextPropertyInv | tracepoint_decode/src/enumerator.rs:1496-1607 | Moving to the next field, out of a struct or to the end keeps the invariant |
| EnumeratorModel.PopStructInv | tracepoint_decode/src/enumerator.rs:1566-1592 | Returning to the frame that holds a struct keeps every open frame on its field |
| EnumeratorModel.SkipFields | tracepoint_decode/src/enumerator.rs:1444-1494 | The skip changes only the metadata cursor and the current name, and leaves the cursor in the metadata |
| EnumeratorModel.NameEnd | tracepoint_decode/src/enumerator.rs:1609-1631 | A name ends at the first zero byte of the metadata at or after its start |
| EnumeratorModel.ScanZero | tracepoint_decode/src/enumerator.rs:1819-1874 | The scan of a zero-terminated string stops at an all-zero character or where no character is left |
| Enumerator.EventHeaderEnumeratorContext.ReadFieldType | tracepoint_decode/src/enumerator.rs:1633-1667 | Reads a type, format and tag and overwrites the metadata cursor, as the model's function says |
| Enumerator.EventHeaderEnumeratorContext.ReadFieldNameAndType | tracepoint_decode/src/enumerator.rs:1609-1631 | Reads a field's name and type into the top frame, as the model's function says |
| Enumerator.EventHeaderEnumeratorContext.StartArray | tracepoint_decode/src/enumerator.rs:1670-1728 | The fields after it are those of the model's `StartArray` |
| Enumerator.EventHeaderEnumeratorContext.StartValue | tracepoint_decode/src/enumerator.rs:1742-1788 | The fields after it are those of the model's `StartValue` |
| Enumerator.EventHeaderEnumeratorContext.StartValueZString | tracepoint_decode/src/enumerator.rs:1819-1874 | The loop finds the end that `ScanZero` defines, for all three character sizes |
| Enumerator.EventHeaderEnumeratorContext.StartValueString | tracepoint_decode/src/enumerator.rs:1876-1889 | Reads a counted string's length prefix, as the model's function says |
| Enumerator.EventHeaderEnumeratorContext.NextProperty | tracepoint_decode/src/enumerator.rs:1496-1607 | The fields after it are those of the model's `NextProperty` |
| Enumerator.EventHeaderEnumeratorContext.RestoreParent | tracepoint_decode/src/enumerator.rs:1566-1592 | Pops the frame and re-reads its type, rewinding the metadata cursor except after the last element |
| Enumerator.EventHeaderEnumeratorContext.SkipStructMetadata | tracepoint_decode/src/enumerator.rs:1444-1494 | The loop with its one-byte counter computes the model's skip |
| Enumerator.EventHeaderEnumeratorContext.ParseTracepointName | tracepoint_decode/src/enumerator.rs:892-945 | Accepts exactly the names that `ParseName` accepts and stores the keyword |
| Enumerator.EventHeaderEnumeratorContext.ReadExtensions | tracepoint_decode/src/enumerator.rs:947-1004 | The loop over the extension chain finds the extents, or the error, that `Extensions` defines |
| Enumerator.EventHeaderEnumeratorContext.Enumerate | tracepoint_decode/src/enumerator.rs:847-1033 | Gives the error that `Open` gives, or stands before the first item with header, keyword, activity and extents as `Open` says |
| Enumerator.EventHeaderEnumeratorContext.ResetImpl | tracepoint_decode/src/enumerator.rs:1054-1065 | Puts the context before the first item with a full move limit and the invariant established |
| Enumerator.EventHeaderEnumeratorContext.MoveNextImpl | tracepoint_decode/src/enumerator.rs:1067-1227 | Moves exactly as `Step` within the limit, fails with the limit error at the limit, keeps the invariant, and returns whether it is on an item |
| Enumerator.EventHeaderEnumeratorContext.MoveNextSiblingImpl | tracepoint_decode/src/enumerator.rs:1229-1273 | The loop computes `MoveNextSibling`, jump over simple arrays included |
| EnumeratorTermination.StepFalls | tracepoint_decode/src/enumerator.rs:1067-1227 | Every move lowers a lexicographic measure over the struct stack, although elements of struct arrays move the metadata cursor back |
| EnumeratorTermination.RunToEnd | tracepoint_decode/src/enumerator.rs:1067-1227 | Enumeration without any limit ends, on every byte string, after the last item or with an error |
| EnumeratorNesting.CompleteRunIsForest | tracepoint_decode/src/enumerator.rs:1091-1218 | The items of any run that reaches the end, with their names, tags and values, spell a forest: brackets match, an array begin of count n encloses exactly n values or structs, and all of these bear its name and tag |
| EnumeratorNesting.StepFollows | tracepoint_decode/src/enumerator.rs:1091-1218 | Each move reads a symbol that the open brackets allow, the end of a bracket with the name and tag of its begin and an element with its array's, and the end is reached only with none open |
| EnumeratorNesting.RunSpellsPartial | tracepoint_decode/src/enumerator.rs:1091-1218 | At every point of every run what was visited is a forest under construction with the brackets of the struct stack |
| EnumeratorPayload.PayloadConserved | tracepoint_decode/src/enumerator.rs:1088-1130 | The items passed, written back in wire form, are exactly the payload bytes up to the data cursor, at every state that is not an error |
| EnumeratorPayload.StepArrives | tracepoint_decode/src/enumerator.rs:1742-1889 | Leaving an item moves the data cursor by exactly the item's wire form |
| EnumeratorSibling.SiblingRefinesStepping | tracepoint_decode/src/enumerator.rs:1229-1273 | From any state, `move_next_sibling` and repeated `move_next` reach the same item, cursors and stack unless a limit intervenes, and the fast way needs no more budget |
| EnumeratorSibling.SimpleArrayPast | tracepoint_decode/src/enumerator.rs:1716-1727 | Stepping through a simple array takes count plus two moves and arrives where the jump does |
| EnumeratorSiblingPath.SiblingPassesOneNode | tracepoint_decode/src/enumerator.rs:1229-1273 | From a value or the begin of an array or struct, and unless it fails, it passes exactly the items of one node and arrives where the enclosing brackets, with that node counted, go on |
| EnumeratorSiblingPath.SiblingArrives | tracepoint_decode/src/enumerator.rs:1229-1273 | From every item there is a budget from which on the move limit never stops it |
| EnumeratorSkip.SkipIsWalk | tracepoint_decode/src/enumerator.rs:1444-1494 | A skip that succeeds stops where a nested walk over the members stops, end of metadata included, if and only if the true pending count is at no field a multiple of 256; it fails only where the walk meets a malformed field or one with both array flags, and, unless it wraps, wherever it meets one |
| EnumeratorSkip.ReservedDiffers | tracepoint_decode/src/enumerator.rs:1486 | A field with both array flags, on which the skip fails, is to the decoder an array whose count lies in the payload |
| EnumeratorSkip.FlatIsNested | tracepoint_decode/src/enumerator.rs:1444-1494 | A walk with one pending counter visits the same metadata as the walk that descends into structs |
| EnumeratorSkip.TraversalEndsWhereSkipStops | tracepoint_decode/src/enumerator.rs:1566-1588 | Whatever came before the struct, after its last element the metadata cursor is where the members end as the decoder traverses them, constant-length arrays with their rewinding included; a skip that does not wrap stops there exactly if the nested walk ends there, and where the walk does the skip does exactly if it does not wrap |
| EnumeratorSkip.TraversalIsWalk | tracepoint_decode/src/enumerator.rs:1566-1588 | Members without a constant-length array of several structs are traversed as the nested walk walks them |
| EnumeratorSkip.PopRewinds | tracepoint_decode/src/enumerator.rs:1566-1592 | The end of an element that is not the last sets the cursor to where the members start, or in a constant-length array to two bytes before that |
| EnumeratorSkip.CheckedSkip | tracepoint_decode/src/enumerator.rs:1468 | With overflow checks the skip panics if and only if somewhere on its way more than 255 fields are pending; otherwise it does what it does without them, and where it succeeds it ends where the nested walk ends |
| OpenedExamples.BareOpens | tracepoint_decode/src/enumerator.rs:847-1033 | Any metadata and payload behind these twelve bytes and an empty name is an event that is opened |
| OpenedExamples.WrapStopsShort | tracepoint_decode/src/enumerator.rs:1468 | An event that is opened, and its whole run: the skip of an empty array of structs wraps and stops short of where the walk ends, so that a field declared in the struct is shown at top level |
| OpenedExamples.ConstantArrayEndsElsewhere | tracepoint_decode/src/enumerator.rs:1576 | An event that is opened, and its whole run: the decoder leaves a constant-length array of two structs with its cursor at 19, a skip stops at 21, and the field between is shown again at top level |
| OpenedExamples.ReservedIsRead | tracepoint_decode/src/enumerator.rs:1486 | An event that is opened and has a field with both array flags inside an array of one struct is read to its end |
| OpenedExamples.ReservedIsRefused | tracepoint_decode/src/enumerator.rs:1486 | The event with the same metadata whose array is empty ends with an error, because the skip refuses that field |
| EventBuilder.EventBuilder.RawAddMeta | eventheader_dynamic/src/builder.rs:924-953 | Appends the entry for name, encoding, format and tag, with chain flags only where needed |
| EventBuilder.EventBuilder.RawAddDataCstr | eventheader_dynamic/src/builder.rs:955-966 | Appends the characters before the first zero one, and one zero character |
| EventBuilder.EventBuilder.RawAddDataCounted | eventheader_dynamic/src/builder.rs:968-978 | Appends the 16-bit count and the characters, or the 32-bit 65535 and the first 65535 characters |
| EventBuilder.EventBuilder.RawAddDataRange | eventheader_dynamic/src/builder.rs:980-1002 | Reserves a count, appends at most 65535 elements and patches the count in |
| EventBuilder.EventBuilder.AddSequence | eventheader_dynamic/src/builder.rs:550-580 | Appends the bytes of an array field |
| EventBuilder.EventBuilder.AddValue | eventheader_dynamic/src/builder.rs:512-530 | Appends the bytes of a value field |
| EventBuilder.EventBuilder.AddStr | eventheader_dynamic/src/builder.rs:601-615 | Appends the bytes of a counted-string field |
| EventBuilder.EventBuilder.AddCstr | eventheader_dynamic/src/builder.rs:692-705 | Appends the bytes of a zero-terminated-string field |
| EventBuilder.EventBuilder.AddStructWithBookmark | eventheader_dynamic/src/builder.rs:386-410 | Appends the struct's entry and returns where its count byte lies |
| EventBuilder.EventBuilder.SetStructFieldCount | eventheader_dynamic/src/builder.rs:429-445 | Patches the count byte and keeps its chain flag |
| EventBuilder.EventBuilder.AddFields | eventheader_dynamic/src/builder.rs:386-445 | A whole tree, added struct by struct with patched counts, appends exactly the tree's metadata and payload |
| EventBuilder.PatchedCount | eventheader_dynamic/src/builder.rs:429-445 | Patching a provisional count gives the entry that the final count would have given |
| EventBuilder.EventBuilder.Write | eventheader_dynamic/src/builder.rs:233-263 | Refuses with ERANGE exactly events over the size check, else sends the framed event whole, within 65535 bytes |
| EventEncoding.SmallAreUncut | eventheader_dynamic/src/builder.rs:240 | If the payload passes the size check no string and no array in the tree was truncated |
| EventFraming.WriteEventHeader | eventheader/src/_internal.rs:123-201 | Sends write index, header, activity extension and metadata header in order with the chain flag only where another extension follows, and never outgrows its buffer |
| EventOpening.OpenedIsValid | tracepoint_decode/src/enumerator.rs:847-1033 | Whatever the bytes, an event that is opened has its extents in bounds and in order, and the decoder's invariant holds before the first item |
| EventDecoding.DecodeField | tracepoint_decode/src/enumerator.rs:1067-1227 | With a field's bytes ahead of both cursors, exactly its items are visited in order with names, types, counts and values, and both cursors end behind it |
| EventDecoding.DecodeElements | tracepoint_decode/src/enumerator.rs:1092-1130 | From any element on, simple or complex, the elements are visited in order up to the array's end |
| EventDecoding.EntryReads | tracepoint_decode/src/enumerator.rs:1609-1667 | A metadata entry of the builder is read back as name, encoding, format and tag |
| EventDecoding.ZStringStarts | tracepoint_decode/src/enumerator.rs:1819-1874 | A zero-terminated string is seen up to its first zero character, and passed whole |
| EventDecoding.CountedStarts | tracepoint_decode/src/enumerator.rs:1876-1889 | An uncut counted string is seen whole |
| EventRoundTrip.FramedOpens | tracepoint_decode/src/enumerator.rs:847-1033 | Every framed event is opened with header, keyword, activity, name, metadata and payload where they were put |
| EventRoundTrip.ReadsBack | tracepoint_decode/src/enumerator.rs:1067-1227 | An event is read to its last byte exactly when it has at most 255 top-level fields nested at most 8 deep; then its items are exactly those of the tree; otherwise which error ends it, and that the items seen are those of the first 255 fields, up to the begin of the first struct that does not fit |
| EventRoundTrip.CodecRoundTrip | eventheader_dynamic/src/builder.rs:233-263 | For every provider, header, activity and tree that `write` accepts nothing was cut, and name and bytes are opened with everything as written |
| EventRoundTrip.TooDeepFails | tracepoint_decode/src/enumerator.rs:1184-1196 | A tree nested too deep for the stack ends with the overflow error at the first struct that does not fit, and what is seen are its items up to that struct's begin |
| EventRoundTrip.OverflowIsUnique | tracepoint_decode/src/enumerator.rs:1184-1196 | There is only one such place in a list of items |
| EventRoundTrip.SentButNotRead | eventheader_dynamic/src/builder.rs:240 | 256 fields of one byte, and one field nested 9 deep, pass the size check of `write` and are not readable |
| EventJourney.ReadItems | tracepoint_decode/src/enumerator.rs:591-593 | The loop over `move_next` sees exactly the items, and stops in exactly the state, that draining the event gives within the move limit |
| EventJourney.DrainCut | tracepoint_decode/src/enumerator.rs:1067-1075 | A smaller move limit shows the same items up to where it runs out, and ends there with the limit error |
| EventJourney.SendAndRead | eventheader_dynamic/src/builder.rs:184-263 | Builder reset, filled and written, and context opened and moved to the end, whatever state both were in: ERANGE exactly above the size check; else the event is opened with header, keyword, activity and name as given, and the items are exactly those of the fields added, up to the first limit of the decoder |
| TracepointName.LowercaseHexToInt | tracepoint_decode/src/enumerator.rs:35-54 | The loop shifts the run of digits into 64 bits and stops at the first other character |
| TracepointName.HexReads | tracepoint_decode/src/enumerator.rs:35-54 | Every 64-bit number is read back from its lowercase hexadecimal digits |
| TracepointName.CommandString.Format | eventheader/src/provider.rs:350-365 | For every provider within the length check the command is written into the fixed buffer, ends with its only zero byte and never overruns |
| TracepointName.CommandFits | eventheader/src/_internal.rs:26-34 | Names stay below the decoder's limit and commands within the buffer, and some command fills the buffer to the last byte |
| TracepointName.NameRoundTrip | tracepoint_decode/src/enumerator.rs:892-945 | Every registrable name is accepted with its own level and no other, and gives back keyword, provider name and options |
| Unicode.DecodeInvertsUtf8 | tracepoint_decode/src/charconv.rs:59-145 | Decoding the UTF-8 form of a text gives the text, and that form is well-formed by the grammar of RFC 3629 |
| Unicode.WellFormedUnchanged | tracepoint_decode/src/charconv.rs:59-145 | Bytes are well-formed if and only if decoding and encoding them again changes nothing |
| CharConversion.ValidLength | tracepoint_decode/src/charconv.rs:71-122 | The test by values accepts exactly the characters that the byte-range grammar of RFC 3629 accepts |
| CharConversion.WriteUtf8WithLatin1Fallback | tracepoint_decode/src/charconv.rs:59-145 | On all bytes the output is the filter's image of the greedy decoding; every run handed on is well-formed |
| CharConversion.WriteLatin1 | tracepoint_decode/src/charconv.rs:24-53 | The output is the filter's image of the bytes as Latin-1 |
| CharConversion.WriteUtf16 | tracepoint_decode/src/charconv.rs:149-196 | The output is the filter's image of the code units, surrogates paired or replaced |
| CharConversion.Utf16RoundTrip | tracepoint_decode/src/charconv.rs:149-196 | Any text stored as UTF-16 in either byte order is read back |
| CharConversion.WriteUtf32 | tracepoint_decode/src/charconv.rs:212-231 | The output is the decoded text unfiltered |
| CharConversion.Utf32EscapedIff | tracepoint_decode/src/charconv.rs:227 | Unfiltered output is right for JSON exactly when the text has no control character, quotation mark or backslash |
| CharConversion.QuoteGoesUnescaped | tracepoint_decode/src/charconv.rs:227 | One quotation mark in UTF-32 is written as it is, not as JSON asks for |
| TextFilters.Filter.WriteStr | tracepoint_decode/src/filters.rs:80-244 | Flushing runs writes the image of every character; every run flushed is well-formed |
| TextFilters.BytewiseIsCharwise | tracepoint_decode/src/filters.rs:80-106 | Working on the bytes of UTF-8 is working on its characters, for all filters |
| TextFilters.UnescapeInvertsEscape | tracepoint_decode/src/filters.rs:181-215 | Escaped text is valid between quotation marks and unescapes by section 7 of RFC 8259 to the text |
| TextFilters.EscapedTextRecovered | tracepoint_decode/src/filters.rs:181-244 | The bytes written for JSON, read as UTF-8 and unescaped, are the text |
| TextFilters.NoControlCharactersLeft | tracepoint_decode/src/filters.rs:59-106 | No filter but the plain one lets a control character through, and text without any passes the control-character filters unchanged |
| JsonWriter.JsonWriter.WriteRawCommaSpace | tracepoint_decode/src/writers.rs:340-354 | White space aside, adds a comma exactly when one is due |
| JsonWriter.JsonWriter.WriteSimpleArray | tracepoint_decode/src/perf_item.rs:1424-1471 | Writes the text of an array of the scalars that stand in the bytes, one after the other and as many as fit, or of one name for an encoding without a size |
| JsonOutput.WriteJsonItemAndMoveNextSibling | tracepoint_decode/src/enumerator.rs:1355-1442 | Moves as `move_next_sibling` does, and the text is the comma-separated list of members of the very tree whose items it passed, or the one member or value it started at; a comma is due after it exactly if something was written or one was due before |
| JsonOutput.RenderComplete | tracepoint_decode/src/writers.rs:261-354 | Completing a value at any nesting adds a comma if due, its name and tag if it is a member, and the value's text |
| JsonOutput.ElementsAreUnnamed | tracepoint_decode/src/perf_item.rs:491-495 | On every event the items without a name are exactly those that stand in an array |
| JsonOutput.JumpPath | tracepoint_decode/src/enumerator.rs:1383-1395 | Passing a simple array at once passes the items that stepping through it would visit |
| JsonOfEvent.SpellIsUnique | tracepoint_decode/src/enumerator.rs:1091-1218 | The sequence of items determines the tree: no two forests spell the same word |
| JsonOfEvent.TreeOfEncodedEvent | tracepoint_decode/src/enumerator.rs:1355-1442 | For every readable event the tree whose text is written as JSON is the tree of the fields it was built from, with their names, tags and values |
| RegistrationProtocol.StepKeeps | tracepoint/src/native.rs:354-533 | Every step of every thread keeps the ownership invariant |
| RegistrationProtocol.Ownership | tracepoint/src/native.rs:354-413 | In every interleaving at most one thread is between its swaps having drawn anything but BUSY, its second swap draws BUSY, and the calls to the kernel alternate |
| RegistrationProtocol.Balanced | tracepoint/src/native.rs:464-533 | At every moment the kernel has been asked exactly once to undo each registration but the current one |
| RegistrationProtocol.StrandedForGood | tracepoint/src/native.rs:471-477 | However a run goes on in which `register` was called on a registered tracepoint, the word stays BUSY, no thread owns the tracepoint, and the kernel is never asked to undo the registration |
| RegistrationProtocol.StrandedOnlyByMisuse | tracepoint/src/native.rs:471-477 | In every run, when no thread is between its swaps, the word is BUSY if and only if some step of the run was a `register` on a registered tracepoint |
| RegistrationProtocol.RegisteringTwiceStrands | tracepoint/src/native.rs:471-477 | A concrete run of two threads that ends so |
| RegistrationProtocol.TracepointState.Unregister | tracepoint/src/native.rs:354-413 | With other threads stepping in between: returns EBUSY and leaves BUSY, or leaves UNREGISTERED; its second swap draws BUSY |
| RegistrationProtocol.TracepointState.Register | tracepoint/src/native.rs:464-533 | With other threads stepping in between: panics, or leaves the new index on success and UNREGISTERED on any error; its second swap draws BUSY |
| DescriptorFile.StepKeeps | tracepoint/src/native.rs:203-272 | Every step of every thread keeps descriptors in exactly one place and, for every `update`, the bound on its failures in terms of the `close` calls beside it |
| DescriptorFile.InstalledStays | tracepoint/src/native.rs:203-231 | In every run without `close` an installed descriptor is never replaced |
| DescriptorFile.OpenedOnceClosedOnce | tracepoint/src/native.rs:203-251 | In every run each descriptor opened is closed exactly once or still in the word or in one thread's hands |
| DescriptorFile.QuietMeansClosed | tracepoint/src/native.rs:203-251 | When no thread is in the middle of anything the only open descriptor is the installed one |
| DescriptorFile.FailuresBound | tracepoint/src/native.rs:203-231 | An `update` fails its exchange and goes on at most once, and twice more for each `close` beside it; without one, a second failure ends it |
| DescriptorFile.FailuresOfRun | tracepoint/src/native.rs:203-251 | In every run no `update` has failed and gone on more than once and twice for each `close` of the run |
| DescriptorFile.BoundIsTight | tracepoint/src/native.rs:203-251 | For every number of `close` calls there is a run in which an `update` fails as often as that bound allows |
| DescriptorFile.UserEventsDataFile.Update | tracepoint/src/native.rs:203-231 | With other threads stepping in between, at most `most` times a `close` among it, the exchange loop ends after at most two failures and two for each `close`, with the word's value, and a losing descriptor is closed |
| DescriptorFile.UserEventsDataFile.Get | tracepoint/src/native.rs:265-272 | Returns the word's value, and, if no `close` comes between, an installed descriptor unchanged |
| DescriptorFile.UserEventsDataFile.Close | tracepoint/src/native.rs:241-251 | Takes what is in the word; a descriptor is closed afterwards and no longer in the word, and an error is replaced by EAGAIN |
| ProviderList.Provider.FixUp | eventheader/src/provider.rs:158-187 | Any list becomes, in place, the strictly descending list of the same tracepoints followed only by nulls |
| ProviderList.Provider.CompactFrom | eventheader/src/provider.rs:166-180 | From the first repetition on, later entries are moved down; no tracepoint is lost or added |
| ProviderList.TidyIsUnique | eventheader/src/provider.rs:158-187 | The fixed-up list is the only one of its length with these tracepoints |
| ProviderList.EachOnce | eventheader/src/provider.rs:75-85 | What is visited up to the first null is every tracepoint, none twice |
| ProviderList.Provider.Register | eventheader/src/provider.rs:139-208 | Panics if busy; else fixes the list up, registers each tracepoint once in order and returns the first error, or panics at the first that panics; a panic leaves the provider busy |
| ProviderList.Provider.Unregister | eventheader/src/provider.rs:63-91 | Unregisters the tracepoints before the first null and returns the first error, or does nothing if busy |
| Sha1.Sha1NonSecret.Finish | eventheader_types/src/guid.rs:408-430 | Whatever the pieces written, if the padded message stays within the chunk count, the digest is the SHA-1 of their concatenation, and the hasher is at a chunk boundary |
| Sha1.Sha1NonSecret.WriteU8 | eventheader_types/src/guid.rs:394-400 | The chunk holds what is left after the whole blocks of everything written, and those are hashed |
| Sha1.Sha1NonSecret.Drain | eventheader_types/src/guid.rs:432-531 | The four loops compute steps b to e of section 6.1 of RFC 3174 |
| Sha1.HashBlocksAppend | eventheader_types/src/guid.rs:402-406 | Blocks hashed one after the other are blocks hashed together |
| Sha1.FillEnds | eventheader_types/src/guid.rs:415-418 | The zero fill stops after exactly the zeros that section 4 of RFC 3174 asks for |
| FormatText.ConsumeString | tracepoint_decode/src/perf_field_format.rs:1107-1128 | The loop ends after the closing quote, escapes skipped, or at the end of the text |
| FormatText.ReadU32 | tracepoint_decode/src/perf_field_format.rs:1056-1101 | Reads hexadecimal after `0x`, else decimal, wrapping at 32 bits |
| FormatText.DecReads | tracepoint_decode/src/perf_field_format.rs:1056-1101 | Every 32-bit number is read back from its decimal digits |
| FormatText.BalancedLength | tracepoint_decode/src/perf_event_format.rs:137-146 | A value with balanced quotes at the end of a line is read back whole |
| FormatText.UnbalancedLength | tracepoint_decode/src/perf_event_format.rs:137-146 | A value with an open quote takes all text after it with it in which there is no quote or backslash, line ends included |
| FormatFile.ReadField | tracepoint_decode/src/perf_field_format.rs:589-659 | The loop over a field line computes the field that the line's properties define |
| FormatFile.ParseFormat | tracepoint_decode/src/perf_event_format.rs:79-240 | The loops over the file compute the format that its properties define |
| FormatFile.LineReads | tracepoint_decode/src/perf_field_format.rs:589-659 | A printed field line is parsed to the field it was printed for |
| FormatFile.SectionReads | tracepoint_decode/src/perf_event_format.rs:157-206 | The printed section is parsed to the same fields, the common ones told by the blank line after them |
| FormatFile.WriteTo | tracepoint_decode/src/perf_event_format.rs:290-316 | The writes, one after the other, produce the text that `Print` defines |
| FormatFile.FormatRoundTrip | tracepoint_decode/src/perf_event_format.rs:290-316 | Any parsed format, printed and parsed again, is the same exactly if the quotes in its name are balanced and, with a common field, those in its print format too; without one, exactly if there is no print format and the number of fields is a multiple of 65536, such as 0 |
| FormatFile.OpenNameIsLost | tracepoint_decode/src/perf_event_format.rs:290-316 | A name with an open quote is never read back together with the print format |
| FormatExamples.NoCommonIsLost | tracepoint_decode/src/perf_event_format.rs:290-316 | A file with a print format and no common field is parsed and lost by printing, whatever the print format |
| FormatExamples.OpenPrintFmtIsLost | tracepoint_decode/src/perf_event_format.rs:290-316 | So is one with a common field and an open quote in its print format, whatever the field |
| FormatExamples.OpenNameIsLost | tracepoint_decode/src/perf_event_format.rs:290-316 | So is one with an open quote in its name |
| FormatExamples.EachIsLost | tracepoint_decode/src/perf_event_format.rs:290-316 | One concrete file of each kind |
| FormatSections.PanicsExactly | tracepoint_decode/src/perf_event_format.rs:210-216 | The parser indexes past the end of its field list exactly if the file gives an ID and a name, and the common fields of all its sections, counted in 16 bits, are more than the fields of the last |
| FormatSections.OneSectionIsSafe | tracepoint_decode/src/perf_event_format.rs:157-216 | It never does on a file with at most one section |
| FormatSections.TwoSectionsPanic | tracepoint_decode/src/perf_event_format.rs:210-216 | It does on a concrete file with two |

## Left out

- `move_next_metadata`: a second, simpler walk over the metadata alone.
- The event's budget argument of `move_next` is modelled; the debug assertions that guard calls in a wrong state are preconditions.
- EnumeratorSkip.TraversalEndsWhereSkipStops: leaves out elements that hold an empty array of structs whose skip wraps its counter, or whose members contain a constant-length array of several structs: there the cursor after that array depends on the payload, not only on the metadata.
- DescriptorFile.UserEventsDataFile.Update: `most`, a parameter, is how many `close` calls come beside it at most; beside endlessly many the loop need not end.
- JsonOutput.WriteJsonItemAndMoveNextSibling: names, tags and the bytes of scalars stand in the tokens of the text; how a scalar is spelled from its bytes is not modelled, nor that a name is written through the filter of `TextFilters`; a walk started at the end of an array or struct is only shown to move as `move_next_sibling` does.
- RegistrationProtocol.TracepointState.Register: the kernel is taken to assign only indexes in the valid range, as the original's debug assertion does; one above it counts as a failure.
- Element types of the builder are bytes grouped by size; conversions from Rust values to bytes, `add_struct` on its own and the capacity arguments are not modelled.
- Filters stacked on filters: each filter writes to the underlying writer.
- The parsers of `FormatFile` work on what is left of the text where the original keeps a position in it.
- `PerfFieldFormat::new` and the types it deduces are one uninterpreted function from a field line to a name.
- `ioctl`, `writev`, `open` and the search of `/proc/mounts` are arbitrary results; weak memory ordering is not modelled, every atomic operation is one step on one memory.
- `sort_unstable_by` is specified by insertion sort, which for pointers leaves the same list as any sort.
- Scalar text formatting, `perf_item.rs` apart from the simple-array loop, `perf_session.rs`, `Guid` conversions, the macros crate, the perf.data reader and writer.
