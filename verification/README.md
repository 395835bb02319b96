# Verification of the embedded components

A Dafny model of six small state machines and codecs of this component library, with proofs of what they are
for. Each core file keeps its own form: what updates state in place is a class or a method over an array, proved
against a specification function; what is a pure computation is a function. `dafny verify dfyconfig.toml` checks
everything.

| part | files | what is proved |
|---|---|---|
| host key-value store | `Bytes`, `Tiling`, `KvsMap`, `KvsRecord`, `KvsStore` | the file of variable-size records, reused in place by first fit and best fit, is a map from key to typed value after every run, up to what the record format has no room for |
| base64 | `Base64`, `Base64Codec` | the two-pass decoder accepts exactly the legal texts; decoding and encoding are inverse, with the exact condition for the second direction |
| JSON token walker | `Jsmn`, `Weather`, `CliJson` | cursor arithmetic over a preorder token array recovers the meaning of the tree, with the exact condition where it can lose step; overwriting the text on the way harms nothing that is read later |
| streaming JSON builder | `JsonText`, `JsonOps`, `ChunkWriter`, `JsonBuilder`, `JsonLife` | flushing, growing, shrinking and refusing never change the document, opening a root over pending text always does; the documents are strict JSON and leave as one legal WebSocket message |
| command line | `CliReader`, `CliParser`, `CliCommand` | the resumable reader is a fold over the characters; the destructive parser returns intact slices; printed commands come back unchanged |
| STM32 bootloader | `Stm32Device`, `Stm32Bootloader` | what the answer "true" guarantees about the flash of a device that follows ST AN3155 |

What lies outside becomes a parameter or a nondeterministic choice: `read`, `write` and `lseek` work on a byte
sequence that is the file; `realloc`, the JSON sink, the UART, the reading of the firmware file and `getc` may
fail, refuse or be late at any time. Flags (`memory`, `policy`, `obliging`, `reliable`) name the environments in
which success is promised as well.

## Where the code does not do what one expects

The model follows the code. Each of these is a proved statement, not a remark.

- A text with a run of 2^32 (or a multiple of that) spaces inside a line is accepted by the base64 decoder,
  because the counter has 32 bits: `Base64.HugeRunOverlooked` is such a text, `Base64Codec.CheckPass` has the
  exact condition, and `Base64.LegalBelow4G` says that shorter texts are judged as documented.
- `utils_misc/include/utils_misc/base64.h` promises that `*olen` is always updated; the decoder leaves it alone
  when it refuses a text (`Base64Codec.Decode`).
- `kvs_set_blob` stores an empty blob and reports a failure; `kvs_get_blob` of size 0 succeeds for a missing key;
  `kvs_get_str` reports an empty string as missing (`KvsStore.Kvs.SetBlob`, `GetBlob`, `GetStr`).
- A string or blob of 65536 bytes or more is reported as stored, but no store holds it: the file stands for the
  new value exactly if it is shorter (`KvsStore.Kvs.WriteStrOrBlob`, `KvsStore.NeverHeld`).
- `kvs_get_str` with a buffer of size 0 writes its NUL outside the buffer exactly when a nonempty string is stored;
  of a string that is longer than the buffer it copies nothing, but its NUL replaces the last character that was
  there (`KvsStore.Kvs.GetStr`).
- `csu_copy_cat` lets a text through that fills the buffer exactly, and writes the NUL behind it; it stays inside
  without calling the error handler exactly if there is room for the NUL (`JsonBuilder.CsuCopyCat`). The builder
  always asks for enough (`JsonOps.PieceFits`).
- A JSON command with more than 19 pairs runs over the parameter array of 20, and a command with nested values
  makes the walk over the tokens lose step for good: it never reaches the end, and commands behind it are not
  called. `CliJson.Session.ProcessJson` has the exact condition for both, `CliJson.TwentyPairs` and
  `CliJson.LostCommand` are examples.
- `open_root_object` drops whatever is still pending, so a refused call leaves the document alone, and a successful
  one adds to it, exactly when nothing was pending (`JsonBuilder.Builder.OpenRoot`). Over a whole run the document
  is that of its calls exactly if no root was opened over pending text (`JsonLife.RunOn`); `JsonLife.LoseDocument`
  is an example.
- The builder copies strings as they are: a document parses back exactly if no string in it needs an escape
  (`JsonOps.DriveRoot`).
- A setter whose key has more than 14 characters aborts in the bounded copy of the key, but an integer setter has by
  then removed a string or blob of its first 14 characters (`KvsStore.Kvs.SetInt`).
- `write_json` sends `{}` when nothing is pending, and empties the buffer whatever the writer answers
  (`JsonBuilder.Builder.WriteJson`).
- `takeValue` promises to take strings as well as primitives; for numbers it takes primitives only
  (`Weather.TakeValue`).
- The command line parser needs room for one parameter more than there are
  (`CliCommand.ParserUndoesPrinting` is an if-and-only-if).
- `stm32Bl_writeMemoryFromBinFile` answers true when the file cannot be opened. It also cuts the number of pages to
  a byte, so a file of 257 pages has one page erased and all 257 programmed, and the answer is true as well
  (`Stm32Bootloader.LargeFileMisjudged`). The answer can be trusted exactly when the file is empty, or could be
  opened and its size is not one of those of `Stm32Bootloader.Misjudged`: more than 255 pages, and modulo
  2^32 either no byte at all, or below the end of the 32-bit addresses with a page count whose low byte is not zero
  (`Stm32Bootloader.TrueIsTrustworthyIff`). At an address
  other than the start of the flash it still erases from the start; for every size and address
  `Stm32Bootloader.FlashHoldsFileIff` gives the exact consequence, with `Stm32Bootloader.SecondPageMisjudged` as an
  example.

## Main results

- Store: `KvsStore.Run` with `KvsStore.LastOpWins`, `KvsStore.OtherBytesUnchanged`, `KvsStore.Kvs.FindKeyBlobW`,
  `KvsStore.LeastWaste`, `KvsStore.DataGrowth`, `KvsStore.Kvs.WriteStrOrBlob` and `KvsStore.Kvs.Foreach`.
- Base64: `Base64Codec.Decode` with `Base64.EncodedAt`, `Base64.DecodedAt`, `Base64.LegalBelow4G`,
  `Base64.EncodeDecode`, `Base64.AnnouncedLength`, `Base64.InsertLineEnd` and `Base64Codec.CodecRoundTrip`.
- Tokens: `Jsmn.SkipTree`, `Weather.ProcessJson` with `Weather.LastAtPath`, `CliJson.Session.ProcessJson` with
  `CliJson.DocumentWalk` and `CliJson.NeverCatchesUp`.
- Builder: `JsonLife.RunOn`, `JsonLife.Run`, `JsonLife.DocumentLife`, `JsonLife.Live`, `JsonOps.DriveRoot`,
  `ChunkWriter.DocumentIsMessage`.
- Command line: `CliReader.LineBuffer.GetLine`, `CliParser.ParseCommandline`, `CliParser.ValueMeaning`,
  `CliCommand.ParserUndoesPrinting`, `CliCommand.Serve`, `CliCommand.CommandsServed`.
- Bootloader: `Stm32Bootloader.Bootloader.DoWriteMemory` with `Stm32Device.AcceptedIff`,
  `Stm32Bootloader.Bootloader.WriteMemoryFromBinFile` with `Stm32Bootloader.FlashHoldsFileIff` and
  `Stm32Bootloader.TrueIsTrustworthyIff`; `Stm32Bootloader.EraseCompleteIff`.

The other rows of the table below are the steps to these.

## Model

| member | source | states |
|---|---|---|
| Bytes.StrNCmpEqMeaning | kvs/host/kvs_templates.hh:35 | `strncmp` over NUL-terminated text with a limit of n compares the first n characters and nothing else |
| KvsMap.FrameStore | kvs/host/kvs_posix.cc:251-338 | a change of the slots that touches one key only, and leaves it used in one slot, is a map update, and keys stay unique |
| KvsMap.FrameRemove | kvs/host/kvs_posix.cc:188-201 | a change that leaves one key used nowhere is a map removal |
| KvsRecord.IntRoundTrip | kvs/host/kvs_posix.cc:343-360 | the union of the record gives back every 8-, 16- and 32-bit value, signed or not, that was stored in it |
| KvsRecord.IntBytes | kvs/host/kvs_posix.cc:343-350 | the bytes in the union are the value in two's complement, least significant byte first |
| KvsRecord.Ranges | kvs/host/kvs_posix.cc:364-369 | which values the six type codes stand for |
| KvsRecord.KnownHeader | kvs/host/kvs_posix.cc:404-405 | the 32 bytes of a string header |
| KvsRecord.KnownFields | kvs/host/kvs_templates.hh:5-33 | lengths, key and size that are read from it |
| KvsRecord.MatchKeyMeaning | kvs/host/kvs_templates.hh:34-35 | `li_matchKey` finds exactly the used records whose key is the first 14 characters of the argument |
| KvsRecord.DataRecord | kvs/host/kvs_posix.cc:391-410 | header, data and what is left of the old payload are a record that stands for key and data, whatever the remainder |
| KvsStore.Kvs.FindNext | kvs/host/kvs_posix.cc:119-140 | the scan returns the first record behind the cursor that has the key and the type, or -1 exactly if there is none |
| KvsStore.Kvs.DeleteNode | kvs/host/kvs_posix.cc:164-176 | one record becomes free, all others keep their bytes and offsets, and the store stays valid |
| KvsStore.Kvs.FindKeyIntW | kvs/host/kvs_posix.cc:251-287 | string and blob records of the key, cut to 14 characters, are freed and integer records are not; the result is the key's integer record or else the first free integer slot |
| KvsStore.Kvs.ReleaseOwn | kvs/host/kvs_posix.cc:299-315 | the key's own record is the slot if its size is exact, and is freed otherwise |
| KvsStore.Kvs.WeighSlot | kvs/host/kvs_posix.cc:299-333 | one turn of the search keeps the slot of least waste so far, and takes an exact one at once only when the own record is out of the way |
| KvsStore.Kvs.FindKeyBlobW | kvs/host/kvs_posix.cc:289-338 | best fit: the slot has minimal waste among all free slots with waste in 0..1000, those just freed included, or is the key's own of exact size, which is never freed |
| KvsStore.LeastWaste | kvs/host/kvs_posix.cc:289-338 | by type codes and sizes: the chosen slot is a free string or blob record, and no other that would do is smaller |
| KvsStore.FirstFit | kvs/host/kvs_posix.cc:251-287 | by type codes: in front of the chosen slot there is no free integer record |
| KvsStore.IntGrowth | kvs/host/kvs_posix.cc:251-287 | an integer is appended exactly if there is neither a free integer record nor one of the key |
| KvsStore.DataGrowth | kvs/host/kvs_posix.cc:289-338 | a string or blob is appended exactly if there is no free record, and none of the key, with 0..1000 bytes to waste |
| KvsStore.RewriteFits | kvs/host/kvs_posix.cc:289-338 | a value of the length that the key already has always finds a slot |
| KvsStore.IntStep | kvs/host/kvs_posix.cc:343-350 | writing the found slot is a map update that leaves the records of all other keys byte for byte where they were |
| KvsStore.DataStep | kvs/host/kvs_posix.cc:391-410 | the same for strings and blobs, with the exact growth of the file |
| KvsStore.OtherBytesUnchanged | kvs/host/kvs_posix.cc:251-338 | a set or erase of one key changes no byte of the file at which a record of another key stands |
| KvsStore.LookupMeaning | kvs/host/kvs_posix.cc:119-140 | a lookup finds a record exactly if the map has the key with that type, and the record holds the map's value |
| KvsStore.VisitsMeaning | kvs/host/kvs_posix.cc:203-247 | the records that an iteration visits are the keys of the map with that type and prefix, each once |
| KvsStore.VisitedTypes | kvs/host/kvs_posix.cc:227-229 | with every key comes the type that the map has for it |
| KvsStore.HitsMeaning | kvs/host/kvs_posix.cc:227-239 | the count is that of the answers other than "no match" |
| KvsStore.Kvs.SetInt | kvs/host/kvs_posix.cc:343-350 | a key of at most 14 characters succeeds, is a map update and grows the file only if there is no record to write over; a longer one aborts, after a string or blob of its first 14 characters has been removed |
| KvsStore.Kvs.WriteStrOrBlob | kvs/host/kvs_posix.cc:391-410 | aborts exactly if the key has more than 14 characters, after a record of its first 14 characters that does not fit exactly has been removed; otherwise the file stands for the new value exactly if it is shorter than 65536 bytes; then it is a map update with the exact growth of the file, and rewriting a key with the same length never grows it |
| KvsStore.NeverHeld | kvs/host/kvs_templates.hh:25-27 | no store holds a string or blob of 65536 bytes or more |
| KvsStore.Kvs.SetStr | kvs/host/kvs_posix.cc:446-448 | reports success unless it aborts, and is a map update for strings below 65536 characters |
| KvsStore.Kvs.SetBlob | kvs/host/kvs_posix.cc:438-440 | is a map update for blobs below 65536 bytes, reported as success exactly if the blob is not empty |
| KvsStore.Kvs.EraseKey | kvs/host/kvs_posix.cc:188-201 | is a map removal of the key cut to 14 characters, with the same file length; true exactly if the key was there |
| KvsStore.Kvs.GetInt | kvs/host/kvs_posix.cc:352-360 | succeeds exactly for the stored type, with the stored value, and gives the default otherwise |
| KvsStore.Kvs.ReadStrOrBlob | kvs/host/kvs_posix.cc:373-389 | the stored length, and the stored bytes exactly if they fit |
| KvsStore.Kvs.GetStr | kvs/host/kvs_posix.cc:449-453 | true exactly for a stored nonempty string that fits with its NUL, which is then in the buffer; the whole buffer in every other case; outside the buffer only when its size is 0 |
| KvsStore.Kvs.GetBlob | kvs/host/kvs_posix.cc:442-444 | true exactly if the stored length, 0 for a missing key, is the length asked for; the whole buffer in every case |
| KvsStore.Kvs.Foreach | kvs/host/kvs_posix.cc:203-247 | the callback sees the matching keys in file order until it answers done, and the result counts its hits; without a callback it is the number of matching keys of the map |
| KvsStore.VisitOne | kvs/host/kvs_posix.cc:211-239 | one record is passed, counted, or shown to the callback, whose answer is counted, exactly as the key, the type and the prefix say |
| KvsStore.LastOpWins | kvs/host/kvs_posix.cc:343-453 | the last operation on a key alone decides what the key holds after a run |
| KvsStore.Run | kvs/host/kvs_posix.cc:188-453 | every run of sets and erases from the empty file, whatever their arguments, goes on to the first that the record format has no room for; up to there the store is valid and stands for the map of the run, and that operation aborts or leaves a file that does not hold its value |
| Base64.DecodeEncode | utils_misc/base64.c:133-160 | decoding undoes encoding, for every byte sequence |
| Base64.EncodeDecode | utils_misc/base64.c:235-250 | encoding undoes decoding exactly for texts of whole quartets whose dropped bits are zero |
| Base64.MapsAreTable | utils_misc/base64.c:71-97 | the two maps are table 1 of section 5.2 of RFC 1521 and its inverse |
| Base64.SymbolsAreTable | utils_misc/base64.c:82-97 | the symbols are the characters of that table |
| Base64.SextetIsPlace | utils_misc/base64.c:235-250 | the value of a symbol is its place in the table |
| Base64.EncodedAt | utils_misc/base64.c:133-160 | character k of an encoding is the table entry of the k-th six bits of the input, or a pad where the input has ended |
| Base64.DecodedAt | utils_misc/base64.c:235-250 | byte k of a decoding is the k-th eight bits of the groups that the table places of the symbols make |
| Base64.ManIsTWFu | utils_misc/base64.c:104-255 | "Man" and "TWFu", and the padded encodings of its beginnings |
| Base64.LegalBelow4G | utils_misc/base64.c:178-214 | the legal texts below 2^32 characters, in plain terms: characters of the table, at most two pads behind all symbols, line ends, and no space directly in front of a symbol or pad |
| Base64.DecodedLength | utils_misc/base64.c:235-250 | the number of bytes in terms of quartets, leftover symbols and pads |
| Base64.AnnouncedLength | utils_misc/base64.c:226-227 | the split formula is floor((6n+7)/8) and never below zero; the announced length is enough, and exact iff there are no more leftover symbols than pads |
| Base64.LayoutIgnored | utils_misc/base64.c:179-214 | a legal text and the text without its spaces and line ends are both legal and have the same symbols |
| Base64.InsertLineEnd | utils_misc/base64.c:182-202 | spaces and a line end may be inserted exactly anywhere but between a CR and its LF, or inside a run of spaces that the counter overlooked |
| Base64.LayoutBelow4G | utils_misc/base64.c:182-202 | below 2^32 characters the space rule is: no space directly in front of a symbol |
| Base64.HugeRunOverlooked | utils_misc/base64.c:182-202 | a concrete text with spaces inside a line that is accepted |
| Base64.EncodedLegal | utils_misc/base64.c:133-160 | what the encoder writes is legal and has no layout |
| Base64Codec.Encode | utils_misc/base64.c:104-166 | the bytes written are the encoding and a NUL, nothing behind them changes; when it refuses, and the announced size |
| Base64Codec.CheckPass | utils_misc/base64.c:178-214 | the first pass accepts exactly the legal texts and counts symbols and pads |
| Base64Codec.AccStep | utils_misc/base64.c:241 | the accumulator, never reset and cut to 32 bits, holds the last sextets in its low bits |
| Base64Codec.ConsumedStep | utils_misc/base64.c:235-250 | every symbol adds nothing or completes a quartet, and what is stored then is what the quartet means |
| Base64Codec.DecodePass | utils_misc/base64.c:235-250 | the second pass writes exactly the bytes that the symbols mean |
| Base64Codec.Decode | utils_misc/base64.c:171-255 | refuses exactly the illegal texts, announces the length when the buffer is too small, and writes the meaning of the text and nothing else |
| Base64Codec.CodecRoundTrip | utils_misc/base64.c:104-255 | the decoder accepts the encoder's text, announces exactly the length of the input and gives it back |
| Jsmn.AfterValue | jsmn/include/jsmn/jsmn_iterate.hh:283-314 | on any token array, wrong child counts included, skipping ends, moves on from a valid position and never passes the end |
| Jsmn.SkipTree | jsmn/include/jsmn/jsmn_iterate.hh:283-314 | where the preorder tokens of a value stand, skipping advances by exactly these and no assert fails |
| Jsmn.Iterator.SkipValue | jsmn/include/jsmn/jsmn_iterate.hh:283-307 | the mutually recursive loops end where the specification says |
| Weather.TakeValue | jsmn/include/jsmn/jsmn_iterate.hh:192-208 | assigns and advances by two exactly if key and value fit, and otherwise does neither |
| Weather.ProcessMain | weather/openweathermap.cc:17-29 | each of the three fields gets the last convertible value under its name; the cursor moves behind the member |
| Weather.ProcessWind | weather/openweathermap.cc:31-44 | the same for speed and deg |
| Weather.ProcessClouds | weather/openweathermap.cc:46-60 | the same for all |
| Weather.ProcessRootChild | weather/openweathermap.cc:78-81 | the dispatch table takes exactly one member in step, whatever it is |
| Weather.ProcessJson | weather/openweathermap.cc:66-87 | false, with nothing assigned, exactly if the text is no object; else every field holds the text of the last primitive of at most 31 characters under exactly its two names, and the walk ends exactly at the last token |
| Weather.ValuesMeaning | jsmn/include/jsmn/jsmn_iterate.hh:98-102 | a member contributes its text exactly if its key is a string with exactly the characters asked for and its value a primitive of at most 31 characters |
| Weather.LastAtPath | weather/openweathermap.cc:66-87 | what is assigned last is the text of the last member at the path that fits |
| Weather.TempIsTemp | weather/openweathermap.cc:17-29 | of a reply with temp, temp_min and temp_max, in characters, the field gets temp |
| CliJson.Session.TakeString | jsmn/include/jsmn/jsmn_iterate.hh:401-407 | the NUL makes the token readable and spoils no token that was terminated before or is read later; objects and arrays give a null pointer |
| CliJson.StringsMeaning | cli/cmdline_process.cc:60-72 | what a handler reads through its pointers is what the document says |
| CliJson.Subtree | jsmn/include/jsmn/jsmn_iterate.hh:283-307 | wherever a cursor stands in a value, a value starts there that ends inside, so that skipping is safe out of step too |
| CliJson.TurnInside | cli/cmdline_process.cc:36-81 | in front of any value a turn stays inside the tokens and fails no assertion, and a command ends at the end of its object exactly if every value is one token |
| CliJson.NeverCatchesUp | cli/cmdline_process.cc:91-96 | a walk that has lost step ends in front of the last token's end, so later commands are never called |
| CliJson.DocumentWalk | cli/cmdline_process.cc:83-97 | when the walk over a tree reaches its end, which calls it makes then, and how it ends otherwise |
| CliJson.CallsMeaning | cli/cmdline_process.cc:39-76 | token by token: an object under exactly "json" goes to the hook, any other to its handler under exactly its name |
| CliJson.PairsAt | cli/cmdline_process.cc:62-67 | pair i of a command is the text of key i and of value i, or a null pointer |
| CliJson.TakesMeaning | cli/cmdline_process.cc:52-67 | what a regular member is: at most 19 pairs, each value one token |
| CliJson.Session.ProcessObject | cli/cmdline_process.cc:55-76 | on any token array: one call with the name and the tokens taken pairwise, as the specification of the walk has it, or a store behind the array or a read behind the tokens exactly when that says so |
| CliJson.Session.ProcessMember | cli/cmdline_process.cc:39-81 | on any token array, in step with the tree or not: one turn of the walk, with its calls and the way it ends |
| CliJson.Session.ProcessJson | cli/cmdline_process.cc:83-97 | for every document: nothing is read outside the tokens and no assertion fails; the end of the tokens is reached if and only if every command has at most 19 pairs and only values of one token, and then the calls are those of the document, in order, each once; a store leaves the array if the first command that is not so has 20 pairs or more |
| CliJson.TwentyPairs | cli/cmdline_process.cc:57-67 | the JSON text of a command with 20 pairs, and its tokens between quotes and braces: it leaves the array |
| CliJson.LostCommand | cli/cmdline_process.cc:55-76 | a JSON text with an array as a value: the handler gets a null pointer, and the command behind it is never called |
| JsonText.ParsePrinted | uout/status_json.cc:215-348 | a strict parser for the grammar of RFC 8259, sections 4, 5 and 7, maps the text of every escape-free value back to it |
| JsonText.SampleText | uout/status_json.cc:215-486 | the text of a value of every kind, in characters |
| JsonText.DecimalStep | uout/status_json.cc:215-486 | every further digit of a number is the number modulo ten |
| JsonText.ParsesBackIff | uout/status_json.cc:215-348 | the text of a value with its strings copied as they are parses back to it if and only if no string needs an escape |
| JsonText.CleanRanges | uout/status_json.cc:215-348 | the characters that need no escape are the unescaped ones of RFC 8259, section 7 |
| JsonOps.PieceFits | uout/status_json.cc:136-141 | the space that a call asks for is enough for its text and the NUL, and at most 18 characters more |
| JsonOps.KeyThenValue | uout/status_json.cc:245-486 | a key on its own and then a string, object or array are the same text as the call that takes both |
| JsonOps.DriveRoot | uout/status_json.cc:215-348 | the calls for an object, with or without an id, write its compact text, with no trailing comma at any depth; it parses back to the object if and only if no string in it needs an escape |
| JsonOps.DepthThroughout | uout/status_json.cc:215-348 | after any calls the nesting depth of the text is the counter, and no string is open |
| JsonOps.RunRoot | uout/status_json.cc:215-348 | the calls for a document, with or without an id, meet every asserted precondition on the way |
| ChunkWriter.FunctionWriter.Write | uout/include/uout/uout_writer.hh:238-252 | accepted chunks are numbered -1 .. -k and then k + 1, or 0 alone; refused ones use up no number |
| ChunkWriter.OneFinalChunk | uout/include/uout/uout_writer.hh:238-252 | a finished numbering has exactly one final chunk, its last one; an unfinished one has none |
| ChunkWriter.KnownNumbers | net_http_server/esp32/websocket.cc:78-97 | the numbers and frames of a document of three chunks and of one |
| ChunkWriter.DocumentIsMessage | net_http_server/esp32/websocket.cc:78-97 | the frames of a finished document are one message as in section 5.4 of RFC 6455 and carry its text; those of an unfinished one never have FIN |
| JsonBuilder.CsuCopyCat | utils_misc/include/utils_misc/cstring_utils.hh:75-91 | appends all strings and a NUL; the handler is called exactly if they are longer than the space, and the NUL goes outside when they fill it exactly |
| JsonBuilder.Builder.ReallocBuffer | uout/status_json.cc:42-60 | keeps the pending text although the buffer may shrink; fails above 2048 |
| JsonBuilder.Builder.WriteSomeJson | uout/status_json.cc:618-639 | a flush never changes the document and always keeps its last character back, which is all that stays if the writer takes everything; after the final write it hands over nothing |
| JsonBuilder.Builder.BufferGrow | uout/status_json.cc:72-96 | makes room or refuses, without changing the document; with its own buffer and memory it makes room whatever the sink takes, as long as what is pending and what is asked for fit into 2048; another buffer has room exactly if the flush leaves enough |
| JsonBuilder.Builder.NotEnoughBuffer | uout/status_json.cc:136-146 | false only if there is enough room now; false for sure if there was or could be had, with any sink; true only if there is none left after the flush |
| JsonBuilder.Builder.OpenRoot | uout/status_json.cc:215-243 | starts a document; a refused call leaves the old one alone, and a successful one adds to it, exactly if nothing was pending |
| JsonBuilder.Builder.Append | uout/status_json.cc:245-332 | adds exactly the text of the call, or nothing when it reports failure, which it does only without room |
| JsonBuilder.Builder.Close | uout/status_json.cc:275-348 | takes a trailing comma back, even right after a flush, and adds the bracket; aborts only without room |
| JsonBuilder.Builder.WriteJson | uout/status_json.cc:596-616 | hands over what is pending, or `{}`; the final write finishes the chunk numbering |
| JsonBuilder.Preconditions | uout/status_json.cc:215-486 | what each call asserts of the counter, the buffer and the final write |
| JsonLife.Run | uout/status_json.cc:215-486 | calls up to the first that fails: what has been sent and what is buffered together are what an unbounded string builder makes of them, if and only if no root was opened over pending text; unhindered, no call fails, whatever the length, and with its own buffer and memory, whatever the sink takes, none with which the document stays within 2048 characters |
| JsonLife.FollowsStep | uout/status_json.cc:215-348 | once text is lost the document stays shorter than that of the unbounded builder, whatever is called |
| JsonLife.RunOn | uout/status_json.cc:215-486 | any calls whose asserted preconditions hold, by callers that ignore results: the counter is the depth of those that succeeded, and the document is theirs if and only if no root was opened, or refused, while text was pending; no call fails that may be made and is sure to have room, which with its own buffer and memory does not depend on the sink |
| JsonLife.Live | uout/include/uout/uout_writer.hh:233-252 | any calls whose asserted preconditions hold, roots opened over pending text included, and any writes, in any order, and then the destructor: at most one final chunk, the last one, and exactly one if the sink takes everything |
| JsonLife.SendDocument | uout/status_json.cc:596-616 | a document, with or without an id, that is fully sent is one finished chunk sequence and one legal message, and parses back to its tree if and only if no string needs an escape; unhindered, it is fully sent |
| JsonLife.DocumentLife | uout/include/uout/uout_writer.hh:233-252 | a document that was fully sent stays the only one accepted, with one final chunk, whatever is called after it and in the destructor; it parses back exactly if no string needs an escape |
| JsonLife.TinyDocument | uout/status_json.cc:215-228 | a builder with a buffer of 25 characters of the caller's own, and the document `{}` in it |
| JsonLife.LoseDocument | uout/status_json.cc:230-243 | that builder refuses a root with an id of 6 characters, and the document is gone |
| CliReader.StoredSemicolons | cli/cmdline_get.cc:60-83 | every ';' ever stored or delivered lies inside quotes, and delivered quotes are balanced |
| CliReader.TypeConcat | cli/cmdline_get.cc:21-98 | reading on from an unfinished line is reading all at once |
| CliReader.BackspacesUndo | cli/cmdline_get.cc:36-43 | typing characters and as many backspaces is typing nothing |
| CliReader.LineEndDiscards | cli/cmdline_get.cc:27-34 | a line end discards the line and nothing else, and an empty line has nothing to take back |
| CliReader.SemicolonCompletes | cli/cmdline_get.cc:66-86 | a ';' completes the line exactly if the number of quotes before it is even |
| CliReader.LineBuffer.Enlarge | cli/cmdline_set.cc:14-23 | a bigger buffer with the same unfinished line |
| CliReader.LineBuffer.Accept | cli/cmdline_get.cc:26-93 | one character is one step of the fold; the quote count stays the number of quotes in the line despite backspaces |
| CliReader.LineBuffer.GetCommandline | cli/cmdline_get.cc:17-98 | for any buffer size and any pattern of "nothing yet", text and line are the fold over the characters read; it reads until a line is complete, the buffer is full or nothing has arrived |
| CliReader.LineBuffer.GetLine | cli/cmdline_set.cc:26-55 | the same across enlarging and retrying; a nonempty line is at the front of the buffer; with enough memory it stops only at a complete line or when nothing has arrived |
| CliParser.ParseValue | cli/cmdline_parse.cc:70-106 | the value behind '=', quoted or plain, is where the specification has it, and is terminated in place without touching what lies before |
| CliParser.ValueMeaning | cli/cmdline_parse.cc:70-97 | which values are refused, and that a quoted one reaches to the next quote and a plain one to the next space, '=' or the end |
| CliParser.ParamMeaning | cli/cmdline_parse.cc:54-106 | what the key is, when a value belongs to it, where parsing goes on, and which parameter is the global option "mid" |
| CliParser.ParseParam | cli/cmdline_parse.cc:54-106 | the same for a key and its value |
| CliParser.ParseCommandline | cli/cmdline_parse.cc:33-117 | the in-place parser finds what the specification finds; the results are ordered, disjoint, NUL-terminated and unchanged slices of the line |
| CliCommand.ShownIsFound | cli/cmdline_parse.cc:54-106 | a printed parameter, with a quoted value, a plain one or none, is cut out again in front of a space or the end |
| CliCommand.ParserUndoesPrinting | cli/cmdline_parse.cc:33-117 | for any spaces in front, in between and behind: the parser returns exactly the printed parameters, quoted or plain, if and only if there are fewer than the array has room for; the global option "mid" takes no room and its last value counts |
| CliCommand.SampleLine | cli/cmdline_parse.cc:33-117 | a line with a lone key, a plain and a quoted value and the global option, in characters |
| CliCommand.ReaderKeepsLine | cli/cmdline_get.cc:21-98 | any line that can be typed, and its ';', are read back as that line |
| CliCommand.ShownIsTypeable | cli/cmdline_get.cc:21-98 | a word without control characters, and with ';' and quotes only where they belong, can be typed |
| CliCommand.LineIsTypeable | cli/cmdline_get.cc:21-98 | a line of such words can be typed, whatever the spaces |
| CliCommand.ProcessCommandline | cli/cmdline_process.cc:138-162 | the C strings that the handler is called with are the keys and values of the line |
| CliCommand.Serve | cli/cli.cc:51-75 | for any events, any number of calls and any failures of realloc, the outcomes are those of the lines of the fold over what has been read; with enough memory everything is read |
| CliCommand.CommandsServed | cli/cli.cc:51-75 | any command lines and JSON texts typed one after the other have exactly their outcomes: parameters reach the handlers as they are, 20 or more are refused, texts that begin with a brace go to the JSON side whole, and lines without parameters do nothing |
| Stm32Device.XorLaws | stm32/stm32_bootloader.cc:50-54 | the exclusive-or is zero exactly for equal bytes, and zero changes nothing |
| Stm32Device.XorIsBitwise | stm32/stm32_bootloader.cc:50-54 | every bit of the exclusive-or of two bytes is the sum of the two bits, modulo two |
| Stm32Device.ChecksumParity | stm32/stm32_bootloader.cc:163-167 | every bit of a checksum is the parity of that bit over all bytes of the message |
| Stm32Device.AcceptedIff | stm32/stm32_bootloader.cc:50-54 | a device accepts exactly the messages in which every bit is set in an even number of bytes, and exactly one last byte makes a message one |
| Stm32Bootloader.FrameParity | stm32/stm32_bootloader.cc:50-54 | the frames that are written have that parity, and no other last byte would give it |
| Stm32Bootloader.KnownFrames | stm32/stm32_bootloader.cc:43-208 | the bytes on the line for a write of three bytes and for an erase of two pages |
| Stm32Device.Completes | stm32/stm32_bootloader.cc:145-208 | a message split over several writes is executed by its last byte, as one message |
| Stm32Device.ProgramHolds | stm32/stm32_bootloader.cc:145-176 | programmed bytes stand in the flash exactly if every cell was erased before |
| Stm32Device.ProgramConcat | stm32/stm32_bootloader.cc:276-286 | programming in pieces is programming in one go |
| Stm32Bootloader.PagesAreRange | stm32/stm32_bootloader.cc:253-255 | the page numbers sent are exactly those of the pages that meet the address range |
| Stm32Bootloader.Bootloader.DoWriteMemory | stm32/stm32_bootloader.cc:145-176 | true only if the block is programmed; no message is malformed; on failure the block is written or not, and nothing else is; what is written to the line is the three frames of the command, or a front of them |
| Stm32Bootloader.Bootloader.DoEraseFlash | stm32/stm32_bootloader.cc:178-208 | the same for an erase with its two frames; an erase of no pages is refused by the device |
| Stm32Bootloader.Bootloader.EraseFlashByFileSize | stm32/stm32_bootloader.cc:248-260 | in 32-bit arithmetic, for every size: the pages erased are those whose numbers are sent, and for up to 255 pages those meeting the range |
| Stm32Bootloader.EraseCompleteIff | stm32/stm32_bootloader.cc:251-258 | for every address and size: the pages whose numbers are sent are those meeting the range if and only if there are at most 255, all among the first 256, or the range is empty and starts a page |
| Stm32Bootloader.Bootloader.WriteBlocks | stm32/stm32_bootloader.cc:276-286 | for any split of the reads, the bytes counted were written one after the other |
| Stm32Bootloader.Bootloader.WriteMemoryFromBinFile | stm32/stm32_bootloader.cc:263-299 | for every file and address: true means that the first k pages were erased and the file programmed, where k is the page count cut to a byte; nothing else is touched, no message but an erase of no pages is malformed, and a willing device is flashed if k is not 0 |
| Stm32Bootloader.FlashHoldsFile | stm32/stm32_bootloader.cc:263-299 | after true for an opened file of 1 byte to 255 pages at the start of the flash, the file is there, the rest of its last page is erased and everything else is as it was |
| Stm32Bootloader.FlashHoldsFileIff | stm32/stm32_bootloader.cc:263-299 | after true for an opened file of any size at any address, the file is there exactly if there is room and every cell it covers was erased by the call or already |
| Stm32Bootloader.TrueIsTrustworthyIff | stm32/stm32_bootloader.cc:272-298 | for every file: true can be trusted if and only if the file is empty, or could be opened and its size is not misjudged |
| Stm32Bootloader.LargeFileMisjudged | stm32/stm32_bootloader.cc:178-208 | a concrete file of 257 pages that is answered with true and is not in the flash |
| Stm32Bootloader.SecondPageMisjudged | stm32/stm32_bootloader.cc:272-298 | a concrete byte at the second page that is answered with true and is not in the flash |

## Left out

Key-value store:

- 64-bit integers: their type codes 0x08 and 0x18 are not recognised as integers by `li_typeInt`.
- KvsStore.Run: files of 2^31 bytes and more, where the positions of the source, of type `int`, end; and what
  follows a value of 65536 bytes or more, after which the file need not be a store.
- KvsStore.Kvs.WriteStrOrBlob: lengths of 2^31 and more, whose result does not fit the `int` it passes through.
- `kvs_callocHandle`, file descriptors, write errors, the template overloads of `kvs_foreach`, the flash backend of
  the ESP32.
- The layout of `struct line_info` is that of an LP64 little-endian host.

Base64:

- The bit operations are modelled as arithmetic and the two tables as ranges, which `Base64.MapsAreTable` ties to the
  table of the standard; the self test.

JSON tokens:

- The jsmn parser itself; the clients are proved for the token arrays that it makes for a tree. `atof` and `atol`:
  a field holds the text handed to them.
- CliJson.Session.ProcessObject: what happens after a store behind the parameter array, which is undefined.
- CliJson.Session.ProcessMember: the body of the hook.
- CliJson.Session.ProcessJson: what a walk that has lost step calls, beyond the specification on tokens.
- `value_equals_*`, `keyStartsWith`, the string overloads of `get_value`.

JSON builder:

- `add_value_d`, `add_value`, 64-bit and float members, `read_json_*_from_function`, `cat_to_buf`, `copy_to_buf`,
  `advance_position`, `get_a_buffer`, `alloc_bigger_buffer`, `writeln_json`, `get_json` and its NUL, escapes.
- JsonOps.DepthThroughout: strings that need an escape, whose quotes and backslashes the text does not tell from its
  own.
- JsonBuilder.Builder.WriteSomeJson: the overlapping `memcpy` is treated as a move.

Command line:

- The `error` branches of the reader, whose flag is never set, the build option that lets line feeds end a line,
  password hooks and output; `atoi` of the "mid" value, whose text is recorded.
- CliCommand.ParserUndoesPrinting: quoted values that contain a quote, and plain ones that begin with one, which the
  line syntax cannot express.

STM32:

- `stm32Bl_doExtEraseFlash`, the start of a session, GPIO, UART, locks and delays.
- Stm32Bootloader.Bootloader.WriteMemoryFromBinFile: bytes that the line forges, and a file that changes while it is
  read; the device model takes blocks of any length and alignment.

Also left out: Wi-Fi, Ethernet, MQTT, HTTP, OTA and FreeRTOS wrappers, float code, BCD and hex printing, settings
tables, `periodic` and the callback table.
