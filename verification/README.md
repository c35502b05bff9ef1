# A verified model of the LwM2M client platform

This project models the protocol code of an embedded JavaScript platform in Dafny and
proves what that code promises: its JSON codec, its bootstrap protocol and server lists, its
registration payload, its firmware transfer, its Ethernet copy loops, its block-wise CoAP
transfer, its sorted lists and resource paths, and its callback registry and attribute
parser.  `dafny verify dfyconfig.toml` checks all of it.

The code being modelled works by changing things step by step, and so does the model.  Each
C or JavaScript routine is a method with the loops of the original, over arrays, heap nodes
or the fields of a class; its `ensures` ties what it returns and what it changes to a
specification function; and the lemmas then prove what the routine promises of that
function, over all inputs or over whole runs.  Where the code and its documentation differ,
the model follows the code, and a lemma states exactly when the promise is kept.

Two conventions run through the files.  `Outcome` separates the routine's own error return
(`Refused`) from a run that would write outside its buffer or read a union member that was not
set (`Stuck`); a run is not followed beyond `Stuck`, nor beyond the code `Crash`, which stands
for a read through a null pointer or an empty array.  Where the code looks at the byte behind
a text, that byte is part of the model (`Uris`) or shown not to matter
(`JsonParse.PeekHarmless`).  Integer widths are written out: 32-bit
wrap-around in the path parser, 64-bit accumulation in the number parser, 16-bit ids.

## The parts

- **Text, lists and paths.**  `Text` holds the decimal helpers, `SortedList` the intrusive
  heap list, `IdLists` the same list as a value (used by the larger modules), `Uris` the path
  printer and parser with the grammar the header documents.
- **JSON codec** (section 6.4.4 of OMA LwM2M TS 1.0).  `JsonScan` is the hand-written
  scanner, `JsonParse` the top-level scan and the choice of the data returned, `JsonTree` the
  step from records to a tree and its clean-up, `JsonSerialize` the printer.  `JsonLayout` and
  `JsonNames` give the grammar of the texts the parser takes, apart from its code, `JsonRecords`
  what its records denote.
  `JsonReadBack` scans the printer's text back, `JsonOutput` proves what the parser can return
  at all, and `JsonRoundTrip` puts the two together, for every path a request can have.
  `JsonFits` says which data the printer has room for, `JsonRequests` what the other requests on
  a written text get, `JsonVariants` that texts of the same data in other layouts are read alike,
  and `JsonInstances` which texts below a resource are.
- **Bootstrap and server lists** (section 5.2 of OMA LwM2M TS 1.0).  `Context` holds the
  client context, `Objects` the object operations with the Security and Server objects,
  `ServerLists` the lists read from them, `Bootstrap` and `DeleteAll` the requests of a
  bootstrap server, `ClientStep` the client state machine, `RegistrationUpdate` the update an
  application asks for, which also reads the lists.  What each of these does is stated apart from
  their specification functions: `ObjectRequests` for writes, creates and deletes,
  `ServerContents` for the lists, `BootstrapCommands`, `BootstrapObjects` and `BootstrapMarks` for
  requests, `BootstrapPasses` for the passes over the servers, `ClientTransitions` for the state
  machine.  `BootstrapOrder` proves what every operation leaves in order, `BootstrapSafety` what
  keeps cache agreement, `BootstrapRuns` both over whole runs, `BootstrapStatus` the order of the
  bootstrap statuses, `BootstrapFinish` the refresh behind a finish request.
- **Registration payload** (section 2 of RFC 6690).  `Registration` sizes and writes it.
- **Firmware transfer.**  `FirmwarePackets` are the packets, `FirmwareUploader` and
  `FirmwareDownloader` the two ends, `FirmwareTransfer` every run of the two.
- **Ethernet.**  `Ethernet` cuts chains into descriptor buffers and back.
- **Block-wise transfer** (sections 2.4, 2.5, 2.9.2 and 2.9.3 of RFC 7959).  `Blockwise`
  reassembles and slices.
- **Event loop.**  `EventLoop` is the callback list together with the JavaScript-side map.
- **Attributes.**  `Attributes` reads and writes the notification attributes.

## Main results

- `JsonRoundTrip.RoundTrip`: data written for the root, an object or an instance is read back
  as the same list, in the same order, if and only if its ids are below 65535 and do not repeat
  (a lone object may have 65535), its strings hold no brace and are ones the splitter takes
  whole, no integer is the most negative one, no container is empty, and it is not a chain of
  lone containers down to a multiple resource.  `JsonRoundTrip.ResourceNeverReturns`: what is
  written for a resource is never read back.  `JsonFits.WrittenReturns`: data that returns is
  written whenever its text has at most 1024 bytes.
- `JsonVariants.LayoutParsed`: neither white space nor the order of members and pairs nor the
  spelling or absence of the base path makes a difference to what is read.
  `JsonLayout.SplitExact`: the splitter takes exactly the pairs of a grammar.
- `JsonRecords.RecordsDenote`, `JsonRecords.LastRecord`: what any records of a text denote.
- `JsonRequests.RequestAnswered`: what every request on a written text gets.
- `JsonParse.ItemsExact`: the item loop, which no bound guards, visits exactly the counted
  brace groups inside the buffer.
- `BootstrapRuns.RunOrdered`: over every run, failing Security writes included, ids are unique
  and the server lists stay strictly sorted and disjoint.
- `BootstrapRuns.RunKeeps`, `BootstrapRuns.RunRefreshExact`: over every run whose Security
  writes are harmless the server lists are a faithful cache of the Security object.
  `BootstrapRuns.WriteAgreementExact` says of a request exactly when its write loses that.
- `ServerContents.RefreshContents`: which servers a refresh leaves, with which lifetime, read off
  the Security and Server objects.
- `BootstrapCommands.IgnoredExact`, `BootstrapCommands.PutWrites`,
  `BootstrapObjects.PutObjectExact`, `BootstrapCommands.DeleteTakesAway`,
  `BootstrapMarks.ServersLeft`: which requests of a bootstrap server are accepted, and what each
  leaves in the objects and the server lists.
- `ClientTransitions.FromInitial` and the lemmas beside it: every transition of the client.
- `BootstrapStatus.RunOnward`: over every run a bootstrap only moves forward.
- `BootstrapStatus.FinishExact`, `BootstrapFinish.RefreshAfterFinish`: the finish
  request of a pending server is accepted exactly when every Security instance in neither list
  is readable, and the refresh behind it succeeds exactly when those whose server is marked
  dirty are readable too.
- `DeleteAll.DeleteAllExact`: what delete-all leaves, with its two termination measures.
- `Registration.PayloadLists`: exactly which links are announced, in which order.
- `Registration.GetRegisterPayload`: the second pass succeeds if and only if the buffer has
  the size the first pass returns, or more.
- `FirmwareTransfer.RunEnds`: every download ends, with the verdict the file size and the
  flash size determine, and a success leaves the file and a zero byte in the flash.
- `FirmwareDownloader.SuccessNeeds`, `FirmwareDownloader.ChunkExact`: what the receiver does with
  packets of any sender.
- `Ethernet.Loopback`: output and input compose to the identity, however both sides are cut.
- `Blockwise.SliceThenReassemble`, `Blockwise.FetchExact`: exactly which bodies survive.
- `Uris.UriRoundTrip`, `Uris.DocumentedGrammarExact`, `Uris.RangeEnforced`: exactly which paths
  return, which texts the parser takes, and which numbers escape its range check.
- `Text.TextToIntSpec`, `Text.OutOfRangeExact`: exactly which texts are read as which numbers.
- `FirmwareTransfer.MemoryCheckExact`: exactly when the memory check of a download suffices.
- `Attributes.OrderIndependent`, `Attributes.ReadExact`, `Attributes.AttributesRoundTrip`: the order
  of options does not matter, exactly which options are read and which attributes return.

## Where the code differs from what is said of it

- A printed path always ends in a slash, which the path parser refuses behind a resource id
  (src/lwm2m/core/uri.c:266, src/lwm2m/core/uri.c:322): `Uris.UriRoundTrip`.
- The header gives the range of ids, but ids of nine digits and more wrap in 32 bits, and small
  negative results are truncated to zero (src/lwm2m/core/uri.c:72-82): `Uris.RangeEnforced`
  says for which numbers, `Uris.OverlongObjectId` gives one of each kind.
- The text of the most negative integer holds a character that is no digit, and a negative
  number that would fill its buffer exactly is refused (src/lwm2m/core/utils.c:165-211):
  `Text.IntRoundTrip`.
- The number parser should refuse what does not fit 64 bits, but its guard looks at the number
  before the next digit is added (src/lwm2m/core/utils.c:76).  A text passes when no prefix,
  taken modulo 2^64, is above a tenth of the range (`Text.OutOfRangeExact`): the four numbers
  from 2^64 on pass, and so do longer texts that start with 2^64, such as
  184467440737095516165, which is read as 5 (`Text.TextToIntWraps`, `Text.LongerTextWraps`).
- A lone multiple resource moves its id into the base path, whose closing slash is then
  refused (src/lwm2m/core/json.c:1383-1398): `JsonRoundTrip.OnlyFaithfulReturns`.  For the same
  reason no text written for a resource is read back: `JsonRoundTrip.ResourceNeverReturns`.
- A request on a text with several objects sees the first of them only
  (src/lwm2m/core/json.c:942-957): `JsonRequests.RequestAnswered`.
- An item's name may have empty segments, which count as 0, and a truth value may be cut short
  (src/lwm2m/core/json.c:345-361, src/lwm2m/core/json.c:394-398): `JsonNames.NameExact`,
  `JsonNames.KeyExact`.
- A command that comes in place of a lost acknowledgement makes its server PENDING without a new
  timer (src/lwm2m/core/bootstrap.c:305-311), and the next pass lets it fail:
  `BootstrapPasses.LostAcknowledgement`.
- A finish request is checked against lists that still hold the servers marked dirty
  (src/lwm2m/core/bootstrap.c:215), but the refresh that follows drops those first
  (src/lwm2m/core/liblwm2m.c:215-251).  A PUT that takes away the short id of a known server is
  answered with 2.04 (`BootstrapFinish.ShortIdCleared`), the finish request behind it is accepted,
  and then the client answers 5.03 (`BootstrapFinish.FinishThenUnavailable`);
  `BootstrapFinish.RefreshAfterFinish` says exactly when that happens.
- A delete-all that may not delete from the Security object answers 2.02 all the same as soon as
  another object follows it (src/lwm2m/core/bootstrap.c:556-567): `DeleteAll.DeleteAllCode`.
- A registration update that has to read the server lists itself does not ask the servers it
  read: with a short id it answers 4.04 (src/lwm2m/core/registration.c:399-406):
  `RegistrationUpdate.ReadOnUpdate`.
- A Security write that fails may have applied the resources in front of the failing one
  without marking the server (src/lwm2m/core/bootstrap.c:403): `BootstrapRuns.WriteAgreementExact`
  says which requests do harm, `BootstrapRuns.AgreementLost` gives one.
- An instance node of a bootstrap write on an object is created under the least unused id,
  not under its own (src/lwm2m/core/objects.c:880): the two are the same if and only if all
  smaller ids are in use (`Objects.CreatedIdExact`); `Objects.CreatedElsewhere` is a list and a
  node for which they differ.
- A shorter binding is copied over the front of the old one (object_server.c writes no
  terminator): `Objects.BindingOverlay`.
- Block 0 of a Block1 transfer is not checked against the size limit
  (src/lwm2m/core/block1.c:79): `Blockwise.SizeBound`.
- The memory check of a firmware download (src/firmware_downloader.c:113-117) looks at neither
  the terminating zero nor the name in front of the code: `FirmwareTransfer.MemoryCheckExact`
  says when it suffices.  On the STM32 platform it does for names of at most 490 bytes
  (`FirmwareTransfer.Stm32MemoryCheck`); a file of 130560 bytes under a longer name passes the
  check and ends in a write error (`FirmwareTransfer.LongNameFails`).
- A chunk packet may announce more bytes than the receive buffer holds, which are then read from
  behind it (src/firmware_downloader.c:146-158): `FirmwareDownloader.OverreadExact`.
- A period attribute of more than 32 bits is cut silently: `Attributes.PeriodExact`.

## Model

| member | source | states |
|---|---|---|
| Text.DecimalValue | src/lwm2m/core/utils.c:165-211 | the shortest decimal notation of a number denotes that number |
| Text.ExtractDigits | src/lwm2m/core/utils.c:176-192 | the digit loop leaves exactly the decimal notation at the end of its window, runs out of room if and only if the notation is longer, and writes nowhere else |
| Text.IntToText | src/lwm2m/core/utils.c:165-211 | the rendered text ends up at the front of the buffer, its length is returned, bytes outside the window stay; which lengths fail is settled for every 64-bit value |
| Text.RenderExact | src/lwm2m/core/utils.c:165-211 | a number is written if and only if its digits fit, with two bytes more for a negative one; which lengths end outside the buffer |
| Text.ParseInt | src/lwm2m/core/utils.c:55-99 | the loop with its early overflow guard computes the 64-bit accumulation, including its wrap |
| Text.TextToIntExact | src/lwm2m/core/utils.c:55-99 | a digit string is read as its value if and only if the value fits a signed 64-bit integer |
| Text.AccumulateWraps | src/lwm2m/core/utils.c:72-85 | a digit string is refused if and only if some proper prefix, modulo 2^64, is above a tenth of the 64-bit range; else what is left is the value modulo 2^64 |
| Text.TextToIntSpec | src/lwm2m/core/utils.c:55-99 | for every text: whether it is read, and as which number |
| Text.OutOfRangeExact | src/lwm2m/core/utils.c:76-87 | a number above the signed 64-bit range is refused if and only if the guard fires or what is left modulo 2^64 is out of range too |
| Text.TextToIntWraps | src/lwm2m/core/utils.c:76-87 | 2^64 to 2^64 + 3 are read as 0 to 3 |
| Text.LongerTextWraps | src/lwm2m/core/utils.c:76-87 | 2^64 followed by one more digit is read as that digit |
| Text.IntRoundTrip | src/lwm2m/core/utils.c:55-99 | writing a number and reading it back returns it if and only if it is not the most negative one |
| Text.StringCopy | src/lwm2m/core/utils.c:430-446 | the copy with its NUL stands at the window if and only if both fit, the length is returned, nothing else is written |
| SortedList.Add | src/lwm2m/core/list.c:21-44 | the node is linked in at the one place that keeps strict id order; the id-to-node map gains the new id and is otherwise the same |
| SortedList.InsertLookup | src/lwm2m/core/list.c:21-44 | an insertion changes the id-to-node map at the new id only |
| SortedList.Find | src/lwm2m/core/list.c:47-58 | the walk that stops at the first id not smaller finds what the map holds, null included |
| SortedList.Remove | src/lwm2m/core/list.c:61-96 | the node of the id, if there is one, is unlinked and handed out; order is kept, the id-to-node map loses that id only, and a missing id leaves the chain as it was |
| SortedList.RemoveLookup | src/lwm2m/core/list.c:61-96 | a removal deletes one id from the map and keeps every other |
| SortedList.NewId | src/lwm2m/core/list.c:98-113 | all ids below the result are in use, and the result is unused if and only if fewer than 65536 ids are in use |
| SortedList.DensePrefix | src/lwm2m/core/list.c:98-113 | the end of the dense prefix is a gap, so the list cannot be full |
| Uris.ToString | src/lwm2m/core/uri.c:274-328 | the loops leave the specified path text at the front of the buffer, return its length and the depth, and write nothing beyond the window |
| Uris.InstancePathFits | src/lwm2m/core/uri.c:274-328 | eighteen bytes hold every object or instance path, and what it looks like |
| Uris.PrintedExact | src/lwm2m/core/uri.c:274-328 | a path is printed if and only if the buffer has room for one byte more than it takes |
| Uris.ParseNumber | src/lwm2m/core/uri.c:57-84 | the 32-bit accumulator, one decimal place ahead, yields the wrapped tenth of the digit string, and a negative number exactly for bad segments |
| Uris.Number32Exact | src/lwm2m/core/uri.c:57-84 | the number read is the number written if and only if ten times it is a 32-bit integer |
| Uris.StringToUri | src/lwm2m/core/uri.c:208-272 | the parser with its advancing position computes the specified path and byte count, or the error return |
| Uris.PathAccepted | src/lwm2m/core/uri.c:208-272 | every text of the documented grammar is consumed whole and yields its ids |
| Uris.GrammarExact | src/lwm2m/core/uri.c:208-272 | a terminated text is consumed whole with a given result if and only if it is digit segments between slashes, a closing slash not behind a resource id, whose ids pass the range check as computed |
| Uris.DocumentedGrammarExact | include/lwm2m/core/liblwm2m.h:264-267 | on texts without nine digits in a row, the parser accepts exactly the documented paths with ids in the documented range, and returns the ids that are written |
| Uris.RangeExact | src/lwm2m/core/uri.c:68-83 | the number read lies in a range if and only if ten times the number written, modulo 2^32, is small enough or at most nine below 2^32 |
| Uris.RangeEnforced | src/lwm2m/core/uri.c:235-262 | the documented range is enforced on a number if and only if it lies in it or fails that condition; always below nine digits |
| Uris.ObjectIdExact | src/lwm2m/core/uri.c:235-246 | an object path of digits is accepted if and only if its number meets that condition |
| Uris.OverlongObjectId | src/lwm2m/core/uri.c:68-83 | 429496730, which wraps, and 858993459, which is truncated, are both taken for the Security object |
| Uris.UriRoundTrip | src/lwm2m/core/uri.c:274-328 | a printed path is parsed back to itself if and only if it has no resource id; with the closing slash dropped resource paths return too |
| Uris.ResourcePathRejected | src/lwm2m/core/uri.c:261-266 | a resource path with a closing slash is always refused |
| JsonScan.SkipSpace | src/lwm2m/core/json.c:127-140 | the position of the first character that is no white space |
| JsonScan.SkipStops | src/lwm2m/core/json.c:127-140 | white space is never skipped past another character |
| JsonScan.SplitPair | src/lwm2m/core/json.c:142-237 | the seven-step scan of one pair, with every position it reports inside the text read |
| JsonScan.SplitStep | src/lwm2m/core/json.c:161-225 | every step keeps the ordering of token and value positions |
| JsonScan.CountItems | src/lwm2m/core/json.c:239-285 | the number of brace groups up to the bracket, or -1 |
| JsonScan.ReadSegment | src/lwm2m/core/json.c:345-361 | a segment is read as its number if and only if it is all digits and at most 65535 |
| JsonScan.ReadPath | src/lwm2m/core/json.c:316-367 | the ids of a quoted path: up to four segments, one leading slash ignored, set only once |
| JsonScan.AppliedOnce | src/lwm2m/core/json.c:310-435 | six keys are known; a second value or a second path is refused, and only `n` touches the path |
| JsonScan.ItemKeeps | src/lwm2m/core/json.c:299-438 | along a whole item the first value and the first path stay |
| JsonScan.ParseItem | src/lwm2m/core/json.c:287-441 | the pairs of an item applied in order up to the first that fails |
| JsonNames.NameExact | src/lwm2m/core/json.c:316-367 | exactly the quoted paths are taken as names: up to four segments of digits, an empty one counting as 0, with one slash more in front or without |
| JsonNames.KeyExact | src/lwm2m/core/json.c:369-435 | what every other key does; a truth value is taken from any part of its word that stands at the front of it |
| JsonLayout.SplitExact | src/lwm2m/core/json.c:142-237 | the splitter takes exactly the pairs: a quoted key, a colon and a quoted or bare value, with white space between and around them, up to a comma or the end |
| JsonLayout.ItemTaken | src/lwm2m/core/json.c:287-441 | name and value of an item are read in either order, with white space anywhere between the tokens |
| JsonLayout.ItemsTaken | src/lwm2m/core/json.c:803-835 | the counter counts the items of an array laid out with white space, and the loop returns their records |
| JsonLayout.LayoutScanned | src/lwm2m/core/json.c:756-895 | the scan of a text in any layout finds all records in order, and the base path wherever it stands |
| JsonLayout.TimeSkipped | src/lwm2m/core/json.c:846-858 | the member `bt` is skipped up to the comma or brace behind it, once |
| JsonTree.ConvertValue | src/lwm2m/core/json.c:443-504 | the typed resource a raw value denotes, or none |
| JsonTree.NumberExact | src/lwm2m/core/json.c:455-495 | a number is an integer if and only if it has no dot and is read as one, and a fraction if and only if it is digits, a dot and at least one digit |
| JsonTree.FindDataItem | src/lwm2m/core/json.c:506-523 | the first defined entry with the id |
| JsonTree.PlaceRecord | src/lwm2m/core/json.c:650-688 | a record is put below the nodes of its path ids, extending or overwriting what is there |
| JsonTree.ConvertRecord | src/lwm2m/core/json.c:559-698 | the tree of all records below the nodes of the base path, one slot per record |
| JsonRecords.PlaceExact | src/lwm2m/core/json.c:650-688 | a record changes the entry at its own path and no other |
| JsonRecords.RecordsDenote | src/lwm2m/core/json.c:559-698 | the tree built from any records holds under every path what its records denote |
| JsonRecords.LastRecord | src/lwm2m/core/json.c:650-688 | a record for a resource is its value whatever was there before; one for an instance is added behind those before it; others change nothing |
| JsonRecords.UsableExact | src/lwm2m/core/json.c:622-644 | records are converted only if each has exactly the ids that are missing, or one more, and a value that can be converted, and refused only if one has not |
| JsonTree.DataStrip | src/lwm2m/core/json.c:700-754 | the defined entries in order, containers stripped in turn; nothing left is an error |
| JsonTree.StripSize | src/lwm2m/core/json.c:709-718 | the size counted in the first loop is the number of entries kept by the second |
| JsonParse.ScannersAgree | src/lwm2m/core/json.c:803-835 | where the counter found c items, the loop finds a brace, its closing brace inside the buffer, and then the bracket or a comma and c - 1 items |
| JsonParse.GroupsInBuffer | src/lwm2m/core/json.c:809-822 | the groups visited are pairs of matching braces inside the buffer |
| JsonParse.ItemsExact | src/lwm2m/core/json.c:807-835 | the loop succeeds, having visited exactly the counted groups, if and only if each of them parses |
| JsonParse.ParseItems | src/lwm2m/core/json.c:807-835 | the loop never reads outside the buffer and stops on the bracket with one record per group |
| JsonParse.ItemLength | src/lwm2m/core/json.c:814-815 | the loop without a bound ends at the closing brace |
| JsonParse.ScanArray | src/lwm2m/core/json.c:788-837 | the member `e`: the records and the position of the bracket |
| JsonParse.ScanBase | src/lwm2m/core/json.c:839-886 | the members `bn` and `bt`, each at most once |
| JsonParse.ScanTop | src/lwm2m/core/json.c:756-895 | the members of the whole text, or a refusal |
| JsonParse.PeekHarmless | src/lwm2m/core/json.c:784-787 | a text that ends right behind a quote is refused whatever byte the switch finds behind the buffer |
| JsonParse.BaseExact | src/lwm2m/core/json.c:905-936 | a base name is a path if and only if it is a quoted text of the path grammar, and the root if and only if it is a quoted slash |
| JsonParse.Select | src/lwm2m/core/json.c:942-1016 | which part of the tree the request gets, stripped; `JsonRequests` and `JsonOutput.SelectExact` say what that is |
| JsonRequests.RequestAnswered | src/lwm2m/core/json.c:942-1016 | every request on a written text is answered from its first object: the resource, the instances of a multiple one, the resources of an instance, or -1 |
| JsonRequests.ResourceRequested | src/lwm2m/core/json.c:971-1000 | data written for an instance, asked for one of its resources, gives that resource, or what a multiple one lists, and -1 if and only if none has the id |
| JsonRequests.InstanceRequested | src/lwm2m/core/json.c:957-970 | data written for an object, asked for one of its instances, gives its resources, and -1 if and only if none has the id |
| JsonParse.Parse | src/lwm2m/core/json.c:756-1033 | the whole parse equals its specification, over which the round trip is proved |
| JsonSerialize.SerializeValue | src/lwm2m/core/json.c:1035-1143 | the text of a value in its window, or the failure, nothing written outside |
| JsonSerialize.SerializeData | src/lwm2m/core/json.c:1145-1215 | the items of a resource or of a container with its path in front of each id |
| JsonSerialize.SerializeChildren | src/lwm2m/core/json.c:1183-1188 | the items of all children behind each other, as long as they fit |
| JsonSerialize.FindAndCheckData | src/lwm2m/core/json.c:1217-1357 | the entries below the path, whichever level the data starts at; mixed levels are refused |
| JsonSerialize.ExtendBase | src/lwm2m/core/json.c:1383-1398 | lone containers move their ids into the base path |
| JsonSerialize.WriteBody | src/lwm2m/core/json.c:1415-1422 | the loop over the items into what is left of the buffer |
| JsonSerialize.Serialize | src/lwm2m/core/json.c:1359-1436 | the bytes returned equal the specified text; 0 and -1 exactly where specified |
| JsonReadBack.ItemRead | src/lwm2m/core/json.c:287-441 | the item parser turns the text of a resource into its record |
| JsonReadBack.SplitQuoted | src/lwm2m/core/json.c:142-237 | the splitter takes a quoted value whole, ending at its closing quote |
| JsonReadBack.SplitPlain | src/lwm2m/core/json.c:142-237 | the splitter takes a bare value whole |
| JsonReadBack.ScanRead | src/lwm2m/core/json.c:756-895 | the top-level scan of a written text finds its base path and all its records in order |
| JsonOutput.SplitClean | src/lwm2m/core/json.c:142-237 | whatever the text, a value that starts with a quote is a closed quoted text |
| JsonOutput.ItemsClean | src/lwm2m/core/json.c:807-835 | whatever the text, no record holds a brace or an open quote in its string, and ids are 16-bit |
| JsonOutput.ScannedClean | src/lwm2m/core/json.c:756-895 | the same for every record of every text scanned |
| JsonOutput.PlaceFaithful | src/lwm2m/core/json.c:650-688 | placing a record among objects, instances or resources keeps ids distinct and values representable at every level |
| JsonOutput.SelectExact | src/lwm2m/core/json.c:942-1016 | a request for a path at or above the base path of a text gets the nodes in between and the data placed, and none of the unused slots |
| JsonOutput.OutputFaithful | src/lwm2m/core/json.c:756-1033 | whatever the text, data returned for the root, an object or an instance is faithful, if its base path has no resource id |
| JsonOutput.SoundStrips | src/lwm2m/core/json.c:700-754 | a tree in which every container holds something defined is stripped without a skipped entry |
| JsonOutput.NeverMiscounts | src/lwm2m/core/json.c:938-1013 | whatever the records and the request, the clean-up of a parsed tree never meets a container that strips to nothing |
| JsonOutput.ParseStuckExact | src/lwm2m/core/json.c:756-1033 | a parse stops being followed exactly where placing a record below a plain resource does |
| JsonRoundTrip.NodesText | src/lwm2m/core/json.c:1359-1436 | what the printer writes is the header with the path and the ids of lone containers, the items with commas between them, and the footer |
| JsonRoundTrip.PlaceNodes | src/lwm2m/core/json.c:650-688 | the records of faithful objects, instances or resources build exactly these again |
| JsonRoundTrip.FaithfulReturns | src/lwm2m/core/json.c:756-1033 | faithful data that was written is read back as the same list in the same order |
| JsonRoundTrip.OnlyFaithfulReturns | src/lwm2m/core/json.c:756-1033 | data that is read back as itself is faithful and not a lone multiple resource |
| JsonRoundTrip.RoundTrip | src/lwm2m/core/json.c:756-1033 | data written for the root, an object or an instance is read back as itself if and only if it is faithful and not a chain of lone containers down to a multiple resource |
| JsonFits.WrittenExact | src/lwm2m/core/json.c:1359-1436 | data that comes back is written if and only if its text has at most 1024 bytes |
| JsonFits.WrittenReturns | src/lwm2m/core/json.c:1359-1436 | such data with such a text is written, and what is written is read back as the same list |
| JsonFits.LevelsRefused | src/lwm2m/core/json.c:1217-1357 | data of several levels, or that starts below the path, is refused |
| JsonFits.LongPathNotWritten | src/lwm2m/core/json.c:1383-1398 | nothing is written when lone containers make the base path longer than 17 bytes |
| JsonFits.ValueExact | src/lwm2m/core/json.c:1035-1143 | a value of any type is written if and only if it has a text and there is room for it |
| JsonVariants.LayoutParsed | src/lwm2m/core/json.c:756-1033 | a text of the entries in any layout, its base path in any spelling or left to the request, is read like the text the printer writes below that path |
| JsonVariants.LayoutReturns | src/lwm2m/core/json.c:756-1033 | faithful data returns from every text of its items below its path |
| JsonVariants.NothingListed | src/lwm2m/core/json.c:756-1033 | a text with a base path and no array is read as no data, for every request |
| JsonVariants.PrintedLaidOut | src/lwm2m/core/json.c:1400-1436 | the printer's text is one of those layouts |
| JsonRoundTrip.RoundTripBelow | src/lwm2m/core/json.c:1217-1357 | the same when the data starts above the path: what lies below it returns |
| JsonRoundTrip.TargetExact | src/lwm2m/core/json.c:1217-1357 | data that starts above the path is searched along the ids of the path, each time in the first container with the id |
| JsonRoundTrip.RoundTripUnder | src/lwm2m/core/json.c:1217-1357 | what the ids of the path lead to returns if and only if it is faithful and not a lone multiple resource |
| JsonRoundTrip.ResourceNeverReturns | src/lwm2m/core/json.c:1359-1436 | a text written for a resource is refused, whatever the data and the request |
| JsonInstances.InstancesReturn | src/lwm2m/core/json.c:756-1033 | values below a resource return from every text of them whose base path names the resource without a closing slash, or that has none |
| JsonRoundTrip.PlainStringsFaithful | src/lwm2m/core/json.c:142-237 | single resources with distinct ids and strings free of quotes, backslashes, commas and braces always return |
| IdLists.AddFind | src/lwm2m/core/list.c:21-44 | on values: a fresh record is found and disturbs no other |
| IdLists.RemoveFind | src/lwm2m/core/list.c:61-96 | on values: a removed record is gone and no other is |
| IdLists.PutFind | src/lwm2m/core/list.c:47-58 | on values: a record changed through the pointer found is the only one changed |
| IdLists.AddPutRemove | src/lwm2m/client/object_security.c:435-462 | adding, changing and removing a record restores the list |
| IdLists.NewIdFresh | src/lwm2m/core/list.c:98-113 | on values: the new id is unused as long as one is |
| IdLists.NewIdLeast | src/lwm2m/core/list.c:98-113 | on values: the new id is the one unused while all smaller ids are in use |
| Objects.BindingOverlay | src/lwm2m/client/object_server.c:301-312 | a binding copied over the old one is read back as written if and only if the old one was no longer |
| Objects.WriteNodes | src/lwm2m/client/object_security.c:187-416 | the instance and code after the nodes up to the first that fails |
| Objects.SecurityWritten | src/lwm2m/client/object_security.c:202-415 | a Security write answers 2.04 if and only if every node is taken, and leaves the last bootstrap flag in front of the first refused node |
| ObjectRequests.WrittenExact | src/lwm2m/client/object_server.c:227-331 | a write on a Security or Server instance applies the nodes in front of the first refused one, each resource holding what the last node for it says, and answers that refusal or 2.04 |
| Objects.Write | src/lwm2m/core/objects.c:210-248 | the new objects and code of a write, nothing else changed |
| ObjectRequests.WriteExact | src/lwm2m/core/objects.c:210-248 | a write answers 2.04 if and only if the instance is there, the object is writable and every node is taken; then the instance holds what was written and nothing else has changed |
| ObjectRequests.WriteCode | src/lwm2m/core/objects.c:210-248 | the code of every write request, down to the first resource refused |
| Objects.CreateWith | src/lwm2m/client/object_server.c:372-399 | create: add, write, take out again on failure; the new objects and code |
| Objects.Create | src/lwm2m/core/objects.c:266-330 | which id a create request creates, or the code that refuses it |
| ObjectRequests.CreateExact | src/lwm2m/core/objects.c:266-330 | which create requests answer 2.01, under which id, and that the blank instance with the nodes written is all that is new |
| ObjectRequests.CreateCode | src/lwm2m/core/objects.c:266-330 | the code of every create request |
| Objects.Delete | src/lwm2m/core/objects.c:332-377 | one instance is deleted, or the loop ends with none left |
| ObjectRequests.DeleteExact | src/lwm2m/core/objects.c:332-377 | a delete answers 2.02 if and only if the object offers it and the instance is there; then that instance, or all, are gone and nothing else |
| ObjectRequests.DeleteCode | src/lwm2m/core/objects.c:332-377 | the code of every delete request |
| Objects.CreateInAllOrNothing | src/lwm2m/client/object_server.c:372-399 | a create that is refused leaves the instances exactly as they were, one that succeeds adds one instance and touches no other, and it succeeds if and only if the write does |
| Objects.CreateObjectAllOrNothing | src/lwm2m/client/object_security.c:435-462 | the same for the object list: every other object stays |
| Objects.CreateAllOrNothing | src/lwm2m/core/objects.c:266-330 | whatever a create request asks for, a refusal changes nothing and ids stay unique |
| Objects.CreateInstanceAllOrNothing | src/lwm2m/core/objects.c:865-881 | for creates inside a bootstrap write: a refusal changes nothing, a success adds one instance, ids stay unique |
| Objects.CreatedIdExact | src/lwm2m/core/objects.c:865-881 | such a create leaves an instance under the id of its node if and only if all smaller ids are in use |
| Objects.CreatedElsewhere | src/lwm2m/core/objects.c:880 | node 5 of an object without instances is created as instance 0 |
| ServerLists.FindServerInstance | src/lwm2m/core/objects.c:656-692 | the first account with the short id |
| ServerLists.ScanGoodExact | src/lwm2m/core/objects.c:757-862 | the scan returns 0 if and only if every Security instance that neither list knows is readable |
| ServerLists.GetServers | src/lwm2m/core/objects.c:734-863 | the lists and the return value after the loop over unknown Security instances; `ServerContents.ReadExact` says which they are |
| ServerContents.ContributionExact | src/lwm2m/core/objects.c:757-855 | which Security instances are in range, and the record each gives: short id and lifetime of its first account, or short id and hold-off time |
| ServerContents.ReadExact | src/lwm2m/core/objects.c:757-862 | reading succeeds if and only if every Security instance that neither list knows is in range; then exactly the servers due to those instances are added |
| ServerLists.DryRunKeeps | src/lwm2m/core/objects.c:734-863 | a dry run changes neither list |
| ServerLists.DryRunEqualsRealRun | src/lwm2m/core/bootstrap.c:215-218 | a dry run returns what the real run would return from the same state |
| ServerLists.Relink | src/lwm2m/core/liblwm2m.c:215-249 | the clean servers linked one by one into a new list |
| ServerLists.RelinkedFind | src/lwm2m/core/liblwm2m.c:215-249 | relinking keeps exactly the clean servers, each under its id, and strict order |
| ServerLists.Refresh | src/lwm2m/core/liblwm2m.c:210-252 | the lists and the return value of a refresh |
| ServerContents.RefreshContents | src/lwm2m/core/liblwm2m.c:210-252 | a refresh succeeds if and only if every Security instance without a clean server is in range; clean servers stay, and under every other id stands exactly the server due to its Security instance |
| ServerLists.ScanAgrees | src/lwm2m/core/objects.c:757-860 | the scan keeps order, disjointness and agreement, and when it succeeds every flagged instance has its bootstrap server |
| ServerLists.RefreshExact | src/lwm2m/core/liblwm2m.c:210-252 | a refresh keeps agreement, clears every dirty mark, and when it returns 0 the bootstrap servers are exactly the Security instances flagged bootstrap |
| ServerLists.RefreshGoodExact | src/lwm2m/core/liblwm2m.c:210-252 | a refresh returns 0 if and only if every Security instance without a clean server is readable |
| ServerLists.ScanKeepsAgree | src/lwm2m/core/objects.c:757-860 | the scan keeps agreement also over lists that hold servers marked dirty |
| Bootstrap.Step | src/lwm2m/core/bootstrap.c:128-203 | the servers and the timeout after one pass |
| BootstrapPasses.PassExact | src/lwm2m/core/bootstrap.c:128-203 | what a pass does to each server: when it is put on hold, sends its request, waits on, finishes or fails |
| BootstrapPasses.TimeoutExact | src/lwm2m/core/bootstrap.c:128-203 | the timeout becomes the least of what it was and what the servers wait for |
| BootstrapPasses.LostAcknowledgement | src/lwm2m/core/bootstrap.c:305-318 | a command in place of a lost acknowledgement makes its server PENDING under the timer of the request, so the next pass lets it fail if that time has come |
| Bootstrap.Start | src/lwm2m/core/bootstrap.c:236-251 | every server starts over, with a session if one can be had |
| BootstrapPasses.StartExact | src/lwm2m/core/bootstrap.c:236-251 | every server is DEREGISTERED, its session kept or opened |
| BootstrapPasses.FirstPass | src/lwm2m/core/bootstrap.c:136-148 | the first pass of a bootstrap puts every server on hold for its hold-off time |
| Bootstrap.GetStatus | src/lwm2m/core/bootstrap.c:258-295 | pending if and only if some bootstrap is under way, else finished if one is, else failed |
| Bootstrap.FindBootstrapServer | src/lwm2m/core/utils.c:376-397 | the first server with the session |
| Bootstrap.TagServer | src/lwm2m/core/bootstrap.c:332-346 | the server with the id is marked dirty, in whichever list it is |
| Bootstrap.TagAllServers | src/lwm2m/core/bootstrap.c:348-368 | every server is marked dirty but the one excepted |
| Bootstrap.HandlePutInstance | src/lwm2m/core/bootstrap.c:386-410 | PUT on an instance: create or write, marking the server of a changed Security instance |
| Bootstrap.HandlePutNode | src/lwm2m/core/bootstrap.c:431-455 | one instance node of a PUT on an object |
| Bootstrap.HandlePutNodes | src/lwm2m/core/bootstrap.c:429-460 | the nodes of a PUT on an object up to the first that fails |
| Bootstrap.HandlePut | src/lwm2m/core/bootstrap.c:388-465 | a PUT on an instance or on an object, with the codes for an empty or unreadable payload |
| Bootstrap.HandleDelete | src/lwm2m/core/bootstrap.c:467-490 | DELETE on an instance or object, marking the servers concerned |
| Bootstrap.HandleCommand | src/lwm2m/core/bootstrap.c:370-511 | the whole context and the code after a command, which `BootstrapCommands` and `BootstrapMarks` read off the request |
| BootstrapCommands.IgnoredExact | src/lwm2m/core/bootstrap.c:297-330 | a request is ignored, and then changes nothing, if and only if its session belongs to no bootstrap server or to one that is not DEREGISTERED, on hold, INITIATED or PENDING |
| BootstrapCommands.OtherVerbs | src/lwm2m/core/bootstrap.c:386-500 | GET and POST are answered with 4.00, and nothing but the server and its timer changes |
| BootstrapCommands.ServerLeft | src/lwm2m/core/bootstrap.c:490-510 | status, timer and state left by an accepted request: PENDING after 2.04 or 2.02, and a bootstrap a server starts itself begins |
| BootstrapCommands.PutWrites | src/lwm2m/core/bootstrap.c:388-410 | PUT on an instance answers 2.04 if and only if the object is writable and every node is taken; then the instance holds what was written |
| BootstrapCommands.PutCreates | src/lwm2m/core/bootstrap.c:390-399 | PUT on an instance that is not there: when it answers 2.04, and the blank instance with the nodes written under which id |
| BootstrapCommands.PutObjectWrites | src/lwm2m/core/bootstrap.c:429-460 | PUT on an object naming existing instances answers 2.04 if and only if each takes what is written, and then each holds it |
| BootstrapCommands.PutObjectRefused | src/lwm2m/core/bootstrap.c:412-428 | PUT on an object without nodes is refused and changes nothing but the server |
| BootstrapObjects.PutNodeExact | src/lwm2m/core/bootstrap.c:431-455 | when an instance node of a PUT on an object is stored, and that an existing instance then holds it with its server marked, a new one under the least unused id |
| BootstrapObjects.PutObjectExact | src/lwm2m/core/bootstrap.c:429-460 | whatever nodes a PUT on an object carries: instance nodes are stored one after the other, others passed over, up to the first that does not fit; the last node determines the code |
| BootstrapObjects.CommandCode | src/lwm2m/core/bootstrap.c:386-490 | the code of an accepted PUT on an instance or DELETE is that of the write, create or delete request on the object, 2.04 standing for 2.01 |
| BootstrapCommands.DeleteTakesAway | src/lwm2m/core/bootstrap.c:467-490 | DELETE answers 2.02 if and only if there is something to delete that may be deleted; then it is gone and nothing else |
| BootstrapMarks.ServersLeft | src/lwm2m/core/bootstrap.c:332-510 | the whole server lists after a PUT on an instance or a DELETE: the sender's status and timer, and a mark on exactly the servers whose Security instance was written or deleted |
| Bootstrap.HandleFinish | src/lwm2m/core/bootstrap.c:205-228 | the whole context and the code after a finish request |
| DeleteAll.DeleteShrinks | src/lwm2m/core/objects.c:353-372 | a delete that answers 2.02 makes the list shorter, one that does not changes nothing: why the restarting walk ends |
| DeleteAll.ClearExact | src/lwm2m/core/bootstrap.c:537-554 | the restarting walk leaves only the kept instance, or nothing changed when Security instances cannot be deleted |
| DeleteAll.ClearFromExact | src/lwm2m/core/bootstrap.c:526-569 | the loop over the objects clears exactly those behind its position |
| DeleteAll.ClearSecurityObject | src/lwm2m/core/bootstrap.c:537-554 | the loop that starts over after each deletion ends, and leaves the specified objects and code |
| DeleteAll.DeleteAllExact | src/lwm2m/core/bootstrap.c:513-572 | a request of a server that is listened to leaves in a deletable Security object at most the server's own instance, every other deletable object empty and the rest as it was, answers 2.02 and marks every other server |
| DeleteAll.DeleteAllCode | src/lwm2m/core/bootstrap.c:526-571 | 4.05 is answered if and only if a Security object that offers no deletion is the only object and holds an instance to delete, else 2.02; servers are marked if and only if the Security object was cleared |
| DeleteAll.DeleteAllIgnored | src/lwm2m/core/bootstrap.c:520-525 | a request of a server that is not listened to changes nothing |
| DeleteAll.HandleDeleteAll | src/lwm2m/core/bootstrap.c:513-572 | the nested loops end and leave the specified context and code |
| ClientStep.StepClient | src/lwm2m/core/liblwm2m.c:364-483 | the jumps of the state machine end, and the context, code and timeout are those of `ClientTransitions` |
| ClientTransitions.FromInitial | src/lwm2m/core/liblwm2m.c:381-393 | from INITIAL: 5.03 when the lists cannot be read, registering when a server is known, bootstrapping when only a bootstrap server is, else 5.03 |
| ClientTransitions.FromBootstrapRequired | src/lwm2m/core/liblwm2m.c:395-409 | a bootstrap starts with every bootstrap server on hold, or 5.03 without one |
| ClientTransitions.FromBootstrapping | src/lwm2m/core/liblwm2m.c:411-426 | under way every server passes; finished the lists are read again; all failed answers 5.03 |
| ClientTransitions.FromRegisterRequired | src/lwm2m/core/liblwm2m.c:429-433 | REGISTERING if and only if the registration starts, else its code |
| ClientTransitions.FromRegistering | src/lwm2m/core/liblwm2m.c:434-455 | READY when registered, a bootstrap when that failed, else waiting |
| ClientTransitions.FromReady | src/lwm2m/core/liblwm2m.c:457-466 | READY is left only for a bootstrap, when the registration has failed |
| ClientTransitions.TimeoutLeft | src/lwm2m/core/liblwm2m.c:364-483 | the timeout is lowered by a bootstrap only: to the least hold-off time when it starts, to the least time a server waits for when it is under way |
| ClientStep.StepJumps | src/lwm2m/core/liblwm2m.c:378-466 | every jump lowers a measure and leads to the same result as the state it jumps to |
| ClientStep.StepSettles | src/lwm2m/core/liblwm2m.c:364-483 | a step that answers 0 leaves no refresh, bootstrap or registration waiting to be started |
| BootstrapSafety.SafeKeeps | src/lwm2m/core/bootstrap.c:332-368 | an operation that marks what it changes keeps cache agreement |
| BootstrapSafety.CommandedSafe | src/lwm2m/core/bootstrap.c:370-511 | every command does, if its Security writes answer 2.04 or leave the bootstrap flag alone |
| BootstrapSafety.DeletedAllSafe | src/lwm2m/core/bootstrap.c:513-572 | delete-all does |
| BootstrapSafety.StepKeeps | src/lwm2m/core/liblwm2m.c:364-483 | every client step keeps agreement, order and disjointness |
| BootstrapOrder.PutNodesSorted | src/lwm2m/core/bootstrap.c:429-460 | a PUT on an object keeps ids unique, if there is room for its nodes |
| BootstrapOrder.CommandedServers | src/lwm2m/core/bootstrap.c:370-511 | no command adds, removes or reorders a server, or clears a mark |
| BootstrapOrder.RefreshSeparate | src/lwm2m/core/liblwm2m.c:210-252 | a refresh keeps both lists strictly sorted and disjoint, whatever the Security instances say |
| BootstrapRuns.EventSorted | src/lwm2m/core/packet.c:106-194 | every event leaves ids unique, if there is room for what it creates |
| BootstrapRuns.EventTwoLists | src/lwm2m/core/packet.c:106-194 | every event leaves the server lists strictly sorted and disjoint |
| BootstrapRuns.RunOrdered | src/lwm2m/core/bootstrap.c:370-572 | over every run, failing Security writes included, ids are unique and both lists strictly sorted and disjoint |
| BootstrapRuns.EventKeeps | src/lwm2m/core/packet.c:106-194 | every event whose Security writes are harmless keeps cache agreement |
| BootstrapRuns.RunKeeps | src/lwm2m/core/liblwm2m.c:210-252 | over every run whose Security writes are harmless, every clean server has a Security instance of matching flag |
| BootstrapRuns.RunRefreshExact | src/lwm2m/core/liblwm2m.c:210-252 | at any point of such a run, a refresh that returns 0 leaves exactly the instances flagged bootstrap |
| BootstrapRuns.WriteAgreementExact | src/lwm2m/core/bootstrap.c:400-408 | read off the request: a Security write keeps agreement if and only if no node is refused, or the last bootstrap flag in front of the first refused node is missing or as it was, or the server is not cached |
| BootstrapRuns.FlagSetThenRefused | src/lwm2m/client/object_security.c:187-416 | a write that sets the flag and is then refused |
| BootstrapRuns.AgreementLost | src/lwm2m/core/bootstrap.c:400-408 | a PUT to a client with one cached server after which a clean server stands in the wrong list |
| BootstrapStatus.FinishExact | src/lwm2m/core/bootstrap.c:205-228 | FINISHING is entered if and only if the sender stands at PENDING and reading the lists for real would succeed; any other sender is ignored, and 4.06 is answered if and only if reading would fail |
| BootstrapFinish.RefreshAfterFinish | src/lwm2m/core/liblwm2m.c:210-252 | after an accepted finish request a refresh returns 0 if and only if every Security instance whose server is marked dirty is readable |
| BootstrapFinish.RefreshAfterPass | src/lwm2m/core/liblwm2m.c:410-425 | the same for the refresh one pass later, which is the one that ends the bootstrap |
| BootstrapFinish.ShortIdCleared | src/lwm2m/core/bootstrap.c:400-406 | a PUT that takes the short id away is answered with 2.04 and marks the server |
| BootstrapFinish.FinishThenUnavailable | src/lwm2m/core/liblwm2m.c:378-430 | the finish request behind it is accepted, the bootstrap ends, and the next step answers 5.03 |
| BootstrapStatus.CommandedQuiet | src/lwm2m/core/bootstrap.c:297-330 | a command moves statuses forward only and lets no server begin to finish |
| BootstrapStatus.DeletedAllQuiet | src/lwm2m/core/bootstrap.c:513-572 | so does delete-all |
| BootstrapStatus.SteppedQuiet | src/lwm2m/core/bootstrap.c:128-203 | so does a pass over the servers |
| BootstrapStatus.ReplyExact | src/lwm2m/core/bootstrap.c:47-66 | a reply changes something if and only if its server is initiated; that server goes to PENDING with a new timer, or to FAILING, and no other changes |
| BootstrapStatus.ReplyQuiet | src/lwm2m/core/bootstrap.c:47-66 | a reply moves statuses forward only |
| BootstrapStatus.Frozen | src/lwm2m/core/bootstrap.c:297-330 | requests of a finishing, failing, finished or failed server change nothing |
| BootstrapStatus.EventQuiet | src/lwm2m/core/bootstrap.c:205-228 | between resets only a finish request lets a server begin to finish |
| BootstrapStatus.RunOnward | src/lwm2m/core/bootstrap.c:32-203 | between two resets of any run, failing Security writes and lists read in between included, every server stays and its status only moves forward, never from finishing to failing or back |
| RegistrationUpdate.UpdateRegistration | src/lwm2m/core/registration.c:388-470 | servers, lists and code after an update: the loop over known servers, or the lists read on the spot |
| RegistrationUpdate.UpdatedExact | src/lwm2m/core/registration.c:408-468 | no server comes, goes or moves and only those asked for change their status; 4.04 if and only if no server has the short id; without one every registered server is asked |
| RegistrationUpdate.OneUpdated | src/lwm2m/core/registration.c:410-447 | an update with a short id changes the first server that has it, as its status asks, or answers 4.00, and no other server |
| RegistrationUpdate.AllUpdated | src/lwm2m/core/registration.c:448-466 | without a short id exactly the servers REGISTERED and REG_UPDATE_PENDING are asked |
| RegistrationUpdate.ReadOnUpdate | src/lwm2m/core/registration.c:399-406 | servers the update reads itself are not asked: with a short id it answers 4.04 |
| Registration.ClosedJoin | src/lwm2m/core/objects.c:646-649 | links each with a comma behind it are the joined links and one comma more |
| Registration.InstancesGrow | src/lwm2m/core/objects.c:625-642 | the text grows with every instance by more than a template |
| Registration.PutTemplate | src/lwm2m/core/objects.c:477-499 | the template of an object in its window, if and only if it and a NUL fit |
| Registration.PutInstances | src/lwm2m/core/objects.c:625-642 | the links of all instances, copied from the first template, if and only if they fit |
| Registration.PutObject | src/lwm2m/core/objects.c:608-643 | the links of one object, or one link when it has no instances |
| Registration.GetRegisterPayload | src/lwm2m/core/objects.c:571-654 | success if and only if the buffer has two bytes more than the payload; then the payload of `Registration.PayloadLists` stands at its front |
| Registration.PayloadLists | src/lwm2m/core/objects.c:571-654 | the payload is the root link and, in ascending order, one link for every instance and every object without instances, none of them of the Security object |
| Registration.MeasureObject | src/lwm2m/core/objects.c:526-563 | the size added for one object is the length of its links |
| Registration.GetRegisterPayloadBufferLength | src/lwm2m/core/objects.c:501-569 | exactly two bytes more than the payload |
| Registration.RegisterPayload | src/lwm2m/core/registration.c:232-241 | a buffer of the size found always takes the payload |
| FirmwarePackets.ChunkFields | src/firmware_downloader.c:22-27 | the packed structure read over a received packet holds what the sender put in |
| FirmwarePackets.DescriptionFields | src/firmware_downloader.c:34-39 | the same for the description |
| FirmwareUploader.Uploader.WriteChunk | utils/firmware-uploader.js:32-56 | the state and packet of `sendChunk`, or its exception |
| FirmwareUploader.Uploader.HandleData | utils/firmware-uploader.js:58-93 | the state and the packet the `data` handler answers with, or its exception |
| FirmwareUploader.RequestExact | utils/firmware-uploader.js:60-74 | a request is answered with the number of chunks of the size asked for that the file takes, 256 bytes when none is asked for |
| FirmwareDownloader.Downloader.WriteCodeChunk | platform/stm32f429-core/src/platform/firmware.c:58-76 | the flash is programmed as far as it goes, the code length grows, and failure is reported if and only if the chunk does not fit |
| FirmwareDownloader.Downloader.HandleDescription | src/firmware_downloader.c:105-130 | a packet while the description is awaited: the memory check, the erase, the start of the flow |
| FirmwareDownloader.Downloader.HandleChunk | src/firmware_downloader.c:136-168 | one received packet: flash, phase and acknowledgement |
| FirmwareDownloader.Downloader.Start | src/firmware_downloader.c:103-168 | the two receive loops end with a result, having sent the specified packets and left the specified flash |
| FirmwareDownloader.DescriptionExact | src/firmware_downloader.c:105-130 | whoever sends, only a description ends the wait: with the memory error, the write error, or the start of the flow on erased flash |
| FirmwareDownloader.ChunkExact | src/firmware_downloader.c:146-167 | the bytes of any chunk packet stand at 512 times its number as far as there is flash, nothing else changes, and it is acknowledged if and only if there was room |
| FirmwareDownloader.OtherDropped | src/firmware_downloader.c:136-146 | a packet that is no chunk is dropped, or ends the download with success |
| FirmwareDownloader.OverreadExact | src/firmware_downloader.c:146-158 | the code reads behind its buffer if and only if a chunk announces more than 521 bytes |
| FirmwareDownloader.SuccessNeeds | src/firmware_downloader.c:103-168 | whatever arrives, a download succeeds only if a description was followed by the end of the flow before the connection closed |
| FirmwareTransfer.SendsChunk | utils/firmware-uploader.js:32-56 | the k-th chunk sent is the k-th part of the file, zero-padded, the last one byte longer than was read |
| FirmwareTransfer.DataIsImage | utils/firmware-uploader.js:40-50 | the bytes that count of a chunk are its part of the file followed by a zero |
| FirmwareTransfer.ReceivesChunk | src/firmware_downloader.c:146-167 | a chunk is written behind what was acknowledged and acknowledged, if and only if the flash has room |
| FirmwareTransfer.StepStage | src/firmware_downloader.c:95-173 | every step of the two ends leads from each stage of the protocol to the only one that can follow |
| FirmwareTransfer.StepPossible | utils/firmware-uploader.js:58-93 | until the receiver has stopped one end can always go on |
| FirmwareTransfer.RunStage | src/firmware_downloader.c:95-173 | the stage reached after any number of steps, and how many can follow |
| FirmwareTransfer.RunSafe | src/firmware_downloader.c:132-168 | every run is finite, at most one packet is under way, and the flash holds exactly what was acknowledged |
| FirmwareTransfer.RunEnds | src/firmware_downloader.c:95-173 | a run that cannot go on has ended with the verdict; after a success the flash holds the file and a zero byte |
| FirmwareTransfer.ChunksSent | utils/firmware-uploader.js:61-63 | chunks sent are the chunks declared, and one more if and only if the chunk size divides the file size |
| FirmwareTransfer.MemoryCheckExact | src/firmware_downloader.c:112-117 | no file that passes the check ends in a write error, if and only if the code area is larger than the whole chunks the reported memory holds |
| FirmwareTransfer.Stm32MemoryCheck | platform/stm32f429-core/src/platform/firmware.c:37-41 | on the STM32 sector that is so if and only if the name has at most 490 bytes |
| FirmwareTransfer.LongNameFails | platform/stm32f429-core/src/platform/firmware.c:127-130 | a file of 130560 bytes passes the check under any name, and is written under names of at most 490 bytes only |
| Ethernet.CopyIn | platform/stm32f429-core/src/ethernetif.c:365-406 | one copy changes exactly its stretch of one descriptor buffer |
| Ethernet.CopyBuffer | platform/stm32f429-core/src/ethernetif.c:375-405 | the buffers hold the frame up to the end of this payload, or a needed descriptor was not free |
| Ethernet.LowLevelOutput | platform/stm32f429-core/src/ethernetif.c:351-425 | the frame is taken if and only if every descriptor it needs is free; then the buffers joined are the payloads joined and the length is the total |
| Ethernet.FillBuffer | platform/stm32f429-core/src/ethernetif.c:468-487 | one packet buffer is filled with the bytes that stand at its place of the frame |
| Ethernet.LowLevelInput | platform/stm32f429-core/src/ethernetif.c:435-513 | any chain of the right total length receives the frame, and exactly the descriptors of the frame go back, chain or no chain |
| Ethernet.Loopback | platform/stm32f429-core/src/ethernetif.c:351-513 | output and then input return the payloads joined, however both chains are cut |
| Ethernet.FlatAt | platform/stm32f429-core/src/ethernetif.c:365-406 | each payload stands in the frame behind those in front of it |
| Blockwise.Slot.Handle | src/lwm2m/core/block1.c:52-140 | the transfer and the answer after a block, buffers reallocated |
| Blockwise.BufferIsLog | src/lwm2m/core/block1.c:62-139 | whatever blocks arrive, the buffer is the concatenation of the payloads accepted since the last block 0, and the message id is that of the last of them |
| Blockwise.AnswerExact | src/lwm2m/core/block1.c:62-139 | the answer to a block after any blocks: when it is 4.08 or 4.13, and which body is complete |
| Blockwise.NumbersInOrder | src/lwm2m/core/block1.c:102-107 | with full blocks of one size the accepted numbers are exactly 0, 1, 2 and so on |
| Blockwise.Retransmission | src/lwm2m/core/block1.c:96-124 | the same block twice in a row gives the same transfer and the same answer |
| Blockwise.SizeBound | src/lwm2m/core/block1.c:79-112 | the buffer stays below 4096 bytes if and only if no block 0 is that long |
| Blockwise.FetchExact | src/lwm2m/core/packet.c:241-322 | a body fetched slice by slice arrives whole if and only if it is not empty and the size asked for is the size given or one slice holds it |
| Blockwise.FedRest | src/lwm2m/core/block1.c:65-139 | slices fed on from any point complete the body, or end in 4.13 when it is too long |
| Blockwise.SliceThenReassemble | src/lwm2m/core/block1.c:65-139 | slices fed back in order under changing message ids give the body if and only if it is shorter than 4096 bytes |
| EventLoop.EventKeeps | src/eventloop.c:237-333 | ids stay distinct, descending and below the counter, and are exactly the keys of `_callbacks` |
| EventLoop.EventExact | src/eventloop.c:237-333 | what each event leaves of the list, the keys, the counter and the heap |
| EventLoop.RunKeeps | src/eventloop.c:194-333 | the same over every run |
| EventLoop.Resolves | src/eventloop.c:284-333 | a callback not destroyed or cleared resolves to the function it was created with, whatever else happens |
| EventLoop.EventLoop.Start | src/eventloop.c:145-159 | a fresh heap with an empty `_callbacks` object, the list untouched |
| EventLoop.EventLoop.RegisterFunction | src/eventloop.c:303-309 | the calls on the value stack register the function under the id and leave the stack as it was |
| EventLoop.EventLoop.UnregisterFunction | src/eventloop.c:315-319 | the calls on the value stack remove the id and leave the stack as it was |
| EventLoop.EventLoop.Create | src/eventloop.c:284-312 | the list is well linked with the new callback first, the registry is the one specified, the value stack is as before |
| EventLoop.EventLoop.Destroy | src/eventloop.c:314-333 | the list is well linked without the callback, its key is gone, the value stack is as before |
| EventLoop.EventLoop.Dispatch | src/eventloop.c:207-219 | the function called is the one registered, if any, and each round keeps the stack height |
| EventLoop.EventLoop.Clear | src/eventloop.c:237-259 | every callback is visited once, list, map and counter are reset |
| EventLoop.LoadModule | src/eventloop.c:101-132 | which module is loaded, and that a repeated load adds nothing |
| EventLoop.LoadExact | src/eventloop.c:101-132 | a module is loaded if and only if one is registered under the name and initialises, and joins the loaded ones once |
| EventLoop.LoadedOnce | src/eventloop.c:101-132 | the loaded modules stay the marked ones, each exactly once |
| Attributes.ReadAttributes | src/lwm2m/core/management.c:56-160 | the loop over the options computes their combined effect, or refuses |
| Attributes.ReadExact | src/lwm2m/core/management.c:56-160 | options are read if and only if each has a known name and a value in range and no two have the same name; the kinds set or cleared are those named |
| Attributes.ReadValues | src/lwm2m/core/management.c:66-154 | a bare name clears its kind, a value sets it, a period in 32 bits |
| Attributes.OrderIndependent | src/lwm2m/core/management.c:56-160 | every permutation of the options gives the same verdict and the same attributes |
| Attributes.EachKindOnce | src/lwm2m/core/management.c:56-160 | set and cleared kinds are disjoint, and there are as many as options |
| Attributes.OwnBranch | src/lwm2m/core/management.c:66-154 | an option is taken by the branch of its own key and by no other of the chain |
| Attributes.PeriodExact | src/lwm2m/core/management.c:66-94 | a period is stored as written if and only if it is below 2^32 |
| Attributes.WriteAttributes | src/lwm2m/core/management.c:603-742 | the option list, or the refusal |
| Attributes.WrittenExact | src/lwm2m/core/management.c:619-712 | attributes are written if and only if no kind is both set and cleared, numeric ones are for a resource, two steps fit between the limits, and every number has a text |
| Attributes.AttributesRoundTrip | src/lwm2m/core/management.c:653-737 | attributes written as options are read back if and only if no negative step is set |

## Left out

- JsonTree.ConvertValue: a fraction is carried as its text, because the number conversions are not part of this model; so it lacks their upper bound of a double.
- JsonSerialize.SerializeValue: an opaque value is carried as its text, because the base64 conversion is not part of this model; an object link cannot be written, as in the code.
- JsonRoundTrip.RoundTrip: for values that are integers, booleans and strings, single or multiple; fractions and opaque values are not among them, because their texts depend on those conversions.
- JsonVariants.LayoutParsed: numbers are spelled as the printer spells them, without leading zeros or fractions; texts with the member `bt`, with times or with links are not among the layouts.
- BootstrapObjects.PutObjectExact: what the write of a node that does not fit leaves is not part of it; `ObjectRequests.WrittenExact` says that of the instance.
- JsonTree.DataStrip: on a container that strips to nothing the code miscounts, and the model ends in `Stuck`; `JsonOutput.NeverMiscounts` shows that no parse gets there.
- JsonTree.PlaceRecord: the code descends through pointers into arrays it extends in place; the model rebuilds the tree on values, so aliasing is not captured.
- Lists above `SortedList`: objects, instances and servers are sequences with the behaviour of the sorted list, held in the fields of a context and reassigned; identity and release of nodes are not captured.
- The rest of the Security object: server addresses, keys and the SMS resources are accepted without being stored.
- Objects other than Security and Server: whether they accept a resource is part of the request, and their instances can always be deleted where deletion is offered.
- TLV and CoAP encodings: requests arrive parsed, a message is its verb, path and nodes.
- ClientStep.StepClient: the calls of the observation, registration and transaction layers behind its switch are not modelled; what those layers answer within the switch is a parameter.
- Network: sessions, sending and time are parameters.
- Memory: allocation succeeds.
- BootstrapRuns.RunOrdered: a run has no event that crashes, and instance lists have room for what is created.
- BootstrapRuns.RunKeeps: asks besides that Security writes answer 2.04 or leave the bootstrap flag alone; `BootstrapRuns.WriteAgreementExact` shows why.
- Attributes.ReadAttributes: the code compares beyond the end of an option shorter than its key; options are compared within their length here.
- Attributes.AttributesRoundTrip: conversions between fractions and their texts are parameters, required to be inverse.
- FirmwareDownloader.Downloader.WriteCodeChunk: that programming an address beyond the sector is refused is taken from the flash hardware; the C code passes the address on, and so the write error of `FirmwareTransfer.LongNameFails` is that of the hardware.
- Firmware: several connections on one open file, packets split or joined on the way, the name and metadata in front of the code area, and that flash bits can only be cleared; each address is written once after an erase.
- FirmwareTransfer.RunEnds: for files whose chunk ids and chunk count are 16-bit numbers and whose description fits the receive buffer, the limits of the packet formats.
- Ethernet.LowLevelOutput: a frame longer than the ring goes around it, and nothing is promised of the buffers then; DMA registers and the hand-over of a frame to the hardware are not modelled.
- EventLoop.EventLoop.Clear: timers, garbage collection and the clean-up of modules; ids above 2^53, which a JavaScript number cannot tell apart; callbacks still queued when they are destroyed.
- `uri_decode`, discovery, notification attributes of observed resources, and the server side of registration: they would add parsing of the same kind.
- Board start-up, sockets, GPIO and third-party code: no protocol behaviour of their own.
