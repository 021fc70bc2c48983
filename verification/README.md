# A verified model of the agent sandbox

The repository watches a process tree through Event Tracing for Windows, decides when it touches protected
folders, and moves the work into a Windows container sandbox. This project models its four stateful parts and
proves what holds of them for every input and over every run.

**Event records** (`SizeProvider`, `Parser`, `RecordBuilder`, `RoundTrip`, `ExactReading`,
`PackedRecords`, `Guid`, `ExtendedData`). The parser looks properties up lazily: a wrap-around name hint, a cache, and a forward walk
that remembers where it stopped and scans for terminators. Whatever was asked before, it answers like a walk from the
first byte. Any record whatever gives given values exactly when its bytes say each value at the place that the declared
lengths of those before it lead to. Packing and parsing are composed on that: a packed record of any size gives back its
values exactly then; with flags declared in four bytes and 64-bit pointers that means exactly when every value has its
declared length and survives the end of the record - trimmed, or cut by the 16-bit length field. GUID text, start keys and container ids round-trip as well.

**Process lifetimes** (`ProcessStore`, `ProcessHandlers`, `Lifetimes`, `RegistrationOrder`, `Monitor`,
`ImageHistory`). The store keeps lifetimes apart under reused process ids, repeated and late events. Key allocation
terminates under 64-bit wrap-around. Over every run identities stay unique, a stop is final and exact, registrations
commute exactly when they agree, and the image list of every lifetime is exactly its load events, each unloaded at the
time of the first event that cleared its base. What an event is resolved to, and what a registration, a stop, an image or
a thread event makes of a lifetime, is stated field by field.

**File events** (`FileCorrelation`, `FileHistory`, `Monitor`). Three maps correlate opens, completions and names.
Each map and the verdict on every kind of event is characterised by the whole event history, in terms of the numbers in
the events' fields; the file history of every lifetime is a projection of the interleaved run, each record telling of its
event, and the providers' methods go through that run state by state.

**Sandbox** (`SandboxRunner`, `WorkspaceDelete`, `PathPolicy`, `ChildEnvironment`). Every lease, endpoint, container,
snapshot and task stays accounted for although every call may fail, and which answers make each operation succeed is
exact; a deletion in the workspace never crosses a
symbolic link; containment of paths is the component-prefix order; the child's environment block decodes to what was
put in.

Code that changes state is modelled by classes and methods with loops, each proved equal to a step function or
against a direct specification; the theorems about runs are lemmas about these functions. Answers of the operating
system (job membership, process queries, path normalisation, directory tests, TDH sizes, containerd and HCN calls) are
inputs: fields of the event, parameters, or a script of outcomes.

## Where the code falls short of its intention

Each item has its exact condition and, in `Counterexamples` or beside it, an input that meets the theorem's
hypotheses and fails.

- A trimmed empty string that is the only property of a record does not read back: a record without bytes has a
  null address, and the parser takes a null address for "not found" (`PackedRecords.SmallRecordReadsBack`,
  `Counterexamples.LoneEmptyStringIsNotFound`).
- A string with a NUL inside is cut at the NUL on the way back (`RoundTrip.NulCutsField`, `Counterexamples.NulCutsString`).
- A packed record of 65536 bytes or more is cut silently; which records survive that is exact, and none does whose last
  value is not the empty string (`PackedRecords.PackedRecordReadsBack`, `PackedRecords.OversizedRecordLosesItsEnd`,
  `Counterexamples.OversizedBlobsAreLost`).
- The builder compares types but not lengths, and fills by type - a blob with one byte, a pointer with eight: a value
  that has not its declared length is packed without error and does not read back, or shifts what is behind it
  (`PackedRecords.TypedRecordReadsBack`, `ExactReading.AnyRecordReads`, `Counterexamples.ShortFillerLosesTheNext`,
  `Counterexamples.WidePointerShiftsTheNext`).
- With two properties of one name, the hint decides which one is found (`Parser.HintIsIrrelevant`,
  `Counterexamples.HintDecides`).
- `Cleanup` reports success and leaves the snapshot behind if the container disappeared on its own and the call to
  delete it is answered: the not-found answer skips the snapshot's removal (`SandboxRunner.Runner.Cleanup`,
  `SandboxRunner.ForgottenSnapshot`).
- A lease, endpoint, container or task whose creation takes effect but reports an error stays live without any record of
  it (`SandboxRunner.Lifecycle`, `SandboxRunner.LeakedLease`).
- A Codex home containing a NUL breaks the environment block (`ChildEnvironment.BuildChildEnvironment`,
  `Counterexamples.NulSplitsCodexHome`).
- Registrations that disagree on a field depend on their order (`RegistrationOrder.RegistrationConfluence`,
  `Counterexamples.LaterImageWins`).

## Model

| member | source | states |
|---|---|---|
| SizeProvider.GetHeuristicSize | krabs/krabs/size_provider.hpp:105-153 | The terminator scan, in steps of two or one bytes and bounded by the end of the record, measures the extent of the text as the recursive definition has it |
| SizeProvider.GetPropertySize | krabs/krabs/size_provider.hpp:53-103 | The schema's length decides, for pointers the header's width; without one, the scan for a terminator, for strings without flags that start inside the record; and TDH decides everything else, whatever its type |
| SizeProvider.OneSizeEnds | krabs/krabs/size_provider.hpp:120-150 | At most one size takes in everything up to the first NUL unit or to the end of the record, so the scan's contract leaves no choice |
| SizeProvider.WideExtentOfText | krabs/krabs/size_provider.hpp:125-137 | The scan over a NUL-free wide text takes in the terminator, or stops at the end of the record if there is none |
| SizeProvider.NarrowExtentOfText | krabs/krabs/size_provider.hpp:138-149 | The same for narrow text |
| Parser.GetStringContentLength | krabs/krabs/parser.hpp:253-266 | The backward loop finds the length of the text without the NULs at its end |
| Parser.DecodeAt | krabs/krabs/parser.hpp:310-350 | What a read means to its caller: it is refused exactly for a missing property, a differing size or a pointer that is not 4 or 8 bytes; a text comes back as the property's units without the NULs at its end, a flag says whether one of four bytes is not zero |
| Parser.WalkedRangesTile | krabs/krabs/parser.hpp:212-236 | Located properties lie inside the record and tile it from the front without gap or overlap |
| Parser.LocatedRange | krabs/krabs/parser.hpp:212-236 | A property that starts inside the record is located in exactly its declared length, the width of a pointer, the bytes up to its terminator, or the size TDH answers - or lies past the end if these leave the record |
| Parser.FailureIsPermanent | krabs/krabs/parser.hpp:226-228 | Once a property runs past the record, no later property is ever located |
| Parser.ResolveIsComplete | krabs/krabs/parser.hpp:169-186 | The wrap-around scan misses a name exactly when no property carries it, for every hint |
| Parser.ResolveIsFirst | krabs/krabs/parser.hpp:169-182 | The property found is the first of its name at or behind the hint, going around |
| Parser.AskingAgainMovesOn | krabs/krabs/parser.hpp:188 | Asking again for the same name finds the next property of that name, going around |
| Parser.HintIsIrrelevant | krabs/krabs/parser.hpp:164-182 | All hints find the same property if and only if at most one property carries the name |
| Parser.Parser.ResolveIndex | krabs/krabs/parser.hpp:169-186 | The loop finds the cyclically first property of that name |
| Parser.Parser.WalkForward | krabs/krabs/parser.hpp:212-236 | The resumed walk keeps the cache equal to a fresh walk, also when it stops because a property overruns the record |
| Parser.Parser.FindProperty | krabs/krabs/parser.hpp:151-239 | On a parser used before in any way, a lookup answers as the cache-free front-to-back walk: same range, not found, or out of range; and moves the hint behind the property |
| Parser.Parser.Parse | krabs/krabs/parser.hpp:310-350 | A parse gives what it would give as the first question ever asked, up to the remembered hint |
| Parser.Parser.TryParse | krabs/krabs/parser.hpp:271-298 | Succeeds exactly when the parse does and leaves the output alone otherwise; the given hint replaces the remembered one |
| Parser.LookupAll | krabs/krabs/parser.hpp:151-239 | Any sequence of lookups with any hints, including after one that threw, answers each question as the front-to-back walk |
| RecordBuilder.MakeThunk | krabs/krabs/testing/record_property_thunk.hpp:101-146 | A value becomes its bytes - numbers least significant byte first, a flag as a 32-bit 1 or 0, a string unit by unit with one NUL unit behind it |
| RecordBuilder.FindIf | krabs/krabs/testing/record_builder.hpp:339-343 | The first supplied value of a name is the one used, and none only if there is none |
| RecordBuilder.PackImpl | krabs/krabs/testing/record_builder.hpp:323-389 | The accumulating loop computes the record, the unfilled names and the trim field by field, with both errors; the record it computes is the one the round-trip lemmas are about |
| RecordBuilder.PackErrorStays | krabs/krabs/testing/record_builder.hpp:349-357 | The first property that cannot be packed determines the error of the whole record |
| RecordBuilder.PackingSucceeds | krabs/krabs/testing/record_builder.hpp:345-380 | A record packs exactly when every property is supplied by a value of its type or has a type with a filler |
| RecordBuilder.PackingFails | krabs/krabs/testing/record_builder.hpp:349-357 | Otherwise the error is that of the first property that cannot: a value of another type, or no filler |
| RecordBuilder.Pack | krabs/krabs/testing/record_builder.hpp:255-280 | Refuses exactly the records with an error or a property nobody supplied, and names those properties; otherwise attaches the extended data with its count cut to 16 bits |
| RecordBuilder.PackIncomplete | krabs/krabs/testing/record_builder.hpp:282-294 | The same without refusing unfilled properties |
| RecordBuilder.UnfilledAreTheMissing | krabs/krabs/testing/record_builder.hpp:371-381 | No property is reported unfilled exactly when every one was supplied |
| RecordBuilder.UnfilledInOrder | krabs/krabs/testing/record_builder.hpp:371-378 | The names reported unfilled are exactly those of the properties nobody supplied, in schema order |
| RoundTrip.WholeFieldSize | krabs/krabs/size_provider.hpp:53-153 | The size provider measures every whole NUL-free field exactly |
| RoundTrip.OpenFieldSize | krabs/krabs/size_provider.hpp:120-137 | It measures a non-empty text exactly that the record ends behind |
| RoundTrip.HalfFieldSize | krabs/krabs/size_provider.hpp:127-136 | With half of a wide terminator gone, the text seems to reach one byte past the record |
| RoundTrip.WalkFollows | krabs/krabs/parser.hpp:212-236 | As long as every value survives, the parser's walk reaches each property where the builder put it, or at the end of the record |
| RoundTrip.InterpretField | krabs/krabs/parser.hpp:310-350 | Reading exactly a value's bytes gives the value back, per type |
| RoundTrip.FieldReadsBack | krabs/krabs/parser.hpp:310-350 | A value that survives the end of the record reads back: whole, short of exactly its terminator, or empty beyond the end with TDH size 0 |
| RoundTrip.FieldIsLost | krabs/krabs/parser.hpp:226-228 | Any other value does not: it overruns the record, is shorter, ends at a NUL, or is not found |
| RoundTrip.NulCutsField | krabs/krabs/size_provider.hpp:125-149 | A string with a NUL inside never reads back as given |
| PackedRecords.PackedField | krabs/krabs/testing/filler.hpp:19-50 | A property is packed as the supplied value's bytes, or as those of the zero of its type |
| PackedRecords.FillerIsDefault | krabs/krabs/testing/filler.hpp:19-50 | The filler of each type is that type's zero in its own width - one, two, four, eight or sixteen bytes - or the empty string; only the null and unlisted types have none |
| PackedRecords.PackIsLayout | krabs/krabs/testing/record_builder.hpp:335-388 | The packed bytes are the values' fields in schema order, the last terminator missing exactly when trimming was asked for and the last property is a supplied string |
| RoundTrip.RecordReadsBack | krabs/krabs/parser.hpp:310-350 | A record that holds packed values, whole or cut at any byte, gives back all of them under every hint if and only if every value survives |
| ExactReading.AnyRecordReads | krabs/krabs/parser.hpp:310-350 | A record of whatever bytes gives given values under every hint if and only if the bytes say each of them at its place; nothing is asked of declared lengths, and a string ends at its terminator or at the end of the record |
| ExactReading.TextReads | krabs/krabs/size_provider.hpp:120-150 | A string property reads as a text if and only if the record holds the text and its terminator there, or its end cuts exactly the terminator, or the text is empty beyond the end with TDH size 0 |
| ExactReading.FixedReads | krabs/krabs/parser.hpp:310-336 | Any other property reads as a value if and only if the record holds it in exactly the declared size; a flag in four bytes whatever is declared |
| PackedRecords.PackedRecordReadsBack | krabs/krabs/testing/record_builder.hpp:323-389 | Pack, then parse: for every flat schema with distinct names and every assignment that packs, of any size and whatever lengths are declared, all supplied values and all defaults read back if and only if the packed bytes say each of them at its place |
| PackedRecords.FittingRecordReadsBack | krabs/krabs/testing/record_builder.hpp:335-388 | If every value has its declared length, that is the case if and only if every value survives the end of the record |
| PackedRecords.TypedRecordReadsBack | krabs/krabs/testing/record_builder.hpp:345-380 | With flags of four bytes and pointers of eight, everything reads back if and only if every value has its declared length and survives the end of the record |
| PackedRecords.SmallRecordReadsBack | krabs/krabs/testing/synth_record.hpp:132-147 | Below 65536 bytes that is the case if and only if every value has its declared length, no string hides a NUL and no trimmed empty string lacks a TDH size of 0 or a property before it |
| PackedRecords.LeftOutReadsAsZero | krabs/krabs/testing/record_builder.hpp:371-380 | A schema of any types in their own widths, packed with nothing supplied, reads back as zero or the empty string everywhere, under every hint |
| PackedRecords.PackAndParse | krabs/krabs/testing/record_builder.hpp:282-294 | The builder's and then the parser's methods, for any assignment: an error of packing is reported, otherwise every property is read as by an untouched parser, in whatever order and however often; all reads are faithful if the packed bytes say each value at its place, and one is not if they do not |
| PackedRecords.OversizedRecordLosesItsEnd | krabs/krabs/testing/synth_record.hpp:146 | From 65536 bytes on, no record reads back whose last value is not the empty string |
| Guid.HexOctetToByte | krabs/krabs/guid.hpp:169-211 | Two characters are read as one byte, or refused if one is no hex digit |
| Guid.HexStringToNumber | krabs/krabs/guid.hpp:213-232 | The shifting loop reads the big-endian number, or stops at the first bad pair |
| Guid.HexStringToBytes | krabs/krabs/guid.hpp:234-245 | The loop reads the bytes in order, or stops at the first bad pair |
| Guid.ParseGuid | krabs/krabs/guid.hpp:261-298 | Length, hyphens and the five hex groups are checked in that order, each with its own error |
| Guid.ParsedGuidSpells | krabs/krabs/guid.hpp:213-298 | An accepted text spells the GUID: three numbers most significant byte first from the positions 0, 9 and 14, and eight bytes in order from 19 and 24 |
| Guid.PrintedGuidParses | krabs/krabs/guid.hpp:321-332 | parse(print(g)) = g for every GUID |
| Guid.ParsedGuidPrints | krabs/krabs/guid.hpp:261-298 | print(parse(s)) is s in lower case, for every accepted text |
| Guid.AcceptedTexts | krabs/krabs/guid.hpp:261-298 | Accepted are exactly the 8-4-4-4-12 hex texts of section 4 of RFC 9562, in either case |
| Guid.CaseDoesNotMatter | krabs/krabs/guid.hpp:169-211 | Two accepted texts name the same GUID exactly when they agree up to case |
| Guid.UpperTextParses | krabs/krabs/testing/extended_data_builder.hpp:98-115 | The upper-case text of every GUID parses back to it |
| ExtendedData.Pack | krabs/krabs/testing/extended_data_builder.hpp:125-182 | The buffer is new, exactly large enough, and ends up holding all descriptors in front and all data behind |
| ExtendedData.PackItem | krabs/krabs/testing/extended_data_builder.hpp:154-179 | One round of the loop completes one more descriptor and its data and disturbs nothing written before |
| ExtendedData.ItemPlacement | krabs/krabs/testing/extended_data_builder.hpp:154-179 | Descriptor i names item i's type and size and points to its bytes, which lie behind all descriptors, right behind the data of item i - 1, and end the buffer when i is last |
| ExtendedData.DescriptorBytes | krabs/krabs/testing/extended_data_builder.hpp:163-175 | Byte by byte a descriptor is two reserved bytes, type, two reserved bytes, size and pointer, all little-endian |
| ExtendedData.ItemsAreDisjoint | krabs/krabs/testing/extended_data_builder.hpp:177-178 | The data of two items never overlaps |
| ExtendedData.ProcessStartKey | krabs/krabs/schema.hpp:490-502 | The reading loop returns what the first descriptor of type 11 with a pointer leads to, or 0 if there is none |
| ExtendedData.StartKeyReadsBack | krabs/krabs/schema.hpp:490-502 | Reading a packed buffer returns the first start key among the items the 16-bit count covers, or 0 |
| ExtendedData.AddedStartKeyReadsBack | krabs/krabs/testing/extended_data_builder.hpp:117-123 | With at most 65535 items, the first start key added is read back as the number it was |
| ExtendedData.ContainerIdReadsBack | krabs/krabs/testing/extended_data_builder.hpp:98-115 | A container id added is found behind its descriptor as text that parses to the same GUID |
| ProcessStore.FreeKeyExists | ProcessContext/ProcessContext.cpp:27 | Fewer than 2^64 - 1 entries leave a free nonzero key |
| ProcessStore.ProcessContextStore.AllocateKey | ProcessContext/ProcessContext.cpp:27-28 | The skip loop over wrapping 64-bit keys ends, at the first nonzero unused key in cyclic order, and the counter moves right behind it |
| ProcessStore.ProcessContextStore.Register | ProcessContext/ProcessContext.cpp:6-32 | Refused exactly without process id, creation time or job; a known lifetime takes over the fields the registration knows and no others; a new one gets a fresh key; with unique identities the outcome is the same in every order of visiting the entries |
| ProcessStore.ProcessContextStore.FindProcessKey | ProcessContext/ProcessContext.cpp:34-44 | Returns a lifetime of that process id - with that creation time, if one is given - that no other such is newer than, in whatever order entries are visited; nothing exactly when there is none |
| ProcessStore.ProcessContextStore.Add | ProcessContext/ProcessContext.cpp:46-58 | Adds under the caller's key, never overwrites, and says whether it did |
| ProcessStore.ProcessContextStore.Update | ProcessContext/ProcessContext.cpp:79-96 | Runs the callback on a copy and commits it unless it touched the process id or the key; refuses an unknown key and a null callback; so keys and contexts keep agreeing |
| ProcessStore.ProcessContextStore.Remove | ProcessContext/ProcessContext.cpp:98-101 | Removes exactly that entry and says whether there was one |
| ProcessStore.FindKeyIs | ProcessContext/ProcessContext.cpp:34-44 | With unique identities the newest match is unique, so it is the answer |
| ProcessStore.NewestExists | ProcessContext/ProcessContext.cpp:37-43 | A lookup with any match has a newest match |
| ProcessStore.Operate | ProcessContext/ProcessContext.cpp:27-29 | Over any sequence of Register, Add, Update and Remove, each key issued is the first free one behind the key issued before it |
| ProcessStore.KeysIncreaseUntilExhausted | ProcessContext/ProcessContext.cpp:27-28 | A key is smaller than the one issued before it only if every larger key was in use |
| ProcessStore.KeysIncreaseOverall | ProcessContext/ProcessContext.cpp:27-28 | Until then all keys issued strictly increase |
| ProcessHandlers.EnrichLiveProcess | KernelProcessProvider/ProviderEventsHandlers/Common/ProcessHandlerCommon.cpp:16-50 | A live process with another creation time, or none, changes nothing; the same lifetime gets its creation and start time, takes the image only if it knows none, takes the queried SID, and no other field changes |
| ProcessHandlers.FileTimeIsDate | KernelProcessProvider/ProviderEventsHandlers/Common/ProcessHandlerCommon.cpp:9-14 | Times count from 1970 in 100-nanosecond ticks, with the 64-bit tick count read as signed |
| ProcessHandlers.RegisterProcessEvent | KernelProcessProvider/ProviderEventsHandlers/Common/ProcessHandlerCommon.cpp:72-90 | A start or rundown event takes the store exactly through the registration step that Lifetimes and Monitor reason about |
| ProcessHandlers.StartedIs | KernelProcessProvider/ProviderEventsHandlers/Common/ProcessHandlerCommon.cpp:72-90 | What a start or rundown registers, field by field: the event's fields, the live process's image if the event names none, its user, and nothing else |
| ProcessHandlers.BootstrapRootProcess | KernelProcessProvider/ProviderEventsHandlers/Common/ProcessHandlerCommon.cpp:61-71 | Registers the root process and reports whether it is known now: exactly if it lives in the job |
| ProcessHandlers.RootIs | KernelProcessProvider/ProviderEventsHandlers/Common/ProcessHandlerCommon.cpp:61-71 | What the root process is registered with, field by field; without a live process there is nothing to register |
| ProcessHandlers.ResolveProcess | KernelProcessProvider/ProviderEventsHandlers/Common/ProcessHandlerCommon.cpp:91-103 | An event is resolved to the newest lifetime of its process id, or to one registered there and then |
| ProcessHandlers.CloseLifetime | KernelProcessProvider/ProviderEventsHandlers/ProcessStopHandler/ProcessStopHandler.cpp:16-24 | The stop callback's two loops stop every thread and unload every image still loaded at the exit time; exit code and time are taken over if the event has them; nothing else changes |
| ProcessHandlers.ProcessStopHandler | KernelProcessProvider/ProviderEventsHandlers/ProcessStopHandler/ProcessStopHandler.cpp:3-26 | A stop takes the store through the stop step, whose exactness Monitor.StopIsExact proves |
| ProcessHandlers.ImageLoadHandler | KernelProcessProvider/ProviderEventsHandlers/ImageLoadHandler/ImageLoadHandler.cpp:5-26 | The search loop and the guarded insert make exactly the step that ImageHistory reasons about |
| ProcessHandlers.ImageUnloadHandler | KernelProcessProvider/ProviderEventsHandlers/ImageUnloadHandler/ImageUnloadHandler.cpp:4-19 | The unload loop makes exactly the step that ImageHistory reasons about |
| ProcessHandlers.ThreadStartHandler | KernelProcessProvider/ProviderEventsHandlers/ThreadStartHandler/ThreadStartHandler.cpp:5-22 | The guarded insert of a running thread makes exactly the step that Lifetimes reasons about |
| ProcessHandlers.ThreadStopHandler | KernelProcessProvider/ProviderEventsHandlers/ThreadStopHandler/ThreadStopHandler.cpp:4-15 | The stopping loop makes exactly the step that Lifetimes reasons about |
| ProcessHandlers.ChangeIsExact | KernelProcessProvider/ProviderEventsHandlers/ImageLoadHandler/ImageLoadHandler.cpp:17-22 | What an image or thread event makes of a lifetime, entry by entry: one entry more unless it has ended or has one already, or exactly the entries of that base or thread id closed |
| ProcessHandlers.OnProcessEvent | KernelProcessProvider/KernelProcessProvider.cpp:9-27 | Ids 1 and 15 register, 2 stops, 5 loads, 6 unloads, and every other id changes nothing |
| Lifetimes.RegisterKeeps | ProcessContext/ProcessContext.cpp:6-32 | A registration keeps keys dense, identities unique and lifetimes sound, changes no other lifetime, and a new lifetime gets the next number |
| Lifetimes.StartIsExact | KernelProcessProvider/ProviderEventsHandlers/Common/ProcessHandlerCommon.cpp:72-90 | A start or rundown of a process in the job fills in the lifetime of its process id and creation time, or inserts one under the next key, and changes no other; without one of the three it changes nothing |
| Lifetimes.RootIsExact | KernelProcessProvider/ProviderEventsHandlers/Common/ProcessHandlerCommon.cpp:61-71 | The same for the root process, with the creation time of the live process |
| Lifetimes.StopKeeps | KernelProcessProvider/ProviderEventsHandlers/ProcessStopHandler/ProcessStopHandler.cpp:3-26 | A stop keeps the invariant: nothing loaded and nothing running in a stopped process |
| Lifetimes.DetailKeeps | KernelProcessProvider/ProviderEventsHandlers/ImageLoadHandler/ImageLoadHandler.cpp:17-22 | Image and thread events keep at most one loaded image per base and one running thread per id, and add nothing to a stopped process |
| Lifetimes.ResolvesTo | KernelProcessProvider/ProviderEventsHandlers/Common/ProcessHandlerCommon.cpp:91-103 | An event is resolved to k if and only if k is the newest lifetime of its process id, or there is none, the process lives in the job, and k is the next key; what is inserted then is given field by field |
| Lifetimes.DetailIsExact | KernelProcessProvider/ProviderEventsHandlers/ImageUnloadHandler/ImageUnloadHandler.cpp:4-19 | An image or thread event changes exactly that lifetime, exactly as its kind says |
| Lifetimes.StepKeeps | KernelProcessProvider/KernelProcessProvider.cpp:14-23 | Every handler keeps the invariant, and every lifetime only evolves: identity and file history stay, a stop is final, no known field becomes empty |
| Lifetimes.DenseKey | ProcessContext/ProcessContext.cpp:27-28 | Until the counter wraps, a new lifetime gets exactly the next number |
| RegistrationOrder.RegisterAllInserts | ProcessContext/ProcessContext.cpp:15-31 | Any list of registrations of a new lifetime inserts one context under one fresh key, reports exactly one insertion, and leaves in each field the last known value |
| RegistrationOrder.RegistrationConfluence | ProcessContext/ProcessContext.cpp:15-31 | All orders of these registrations end in the same store with the same answers if and only if they agree wherever two know a field, and on the start time |
| RegistrationOrder.HandledRegisters | KernelProcessProvider/ProviderEventsHandlers/Common/ProcessHandlerCommon.cpp:61-90 | Handling accepted Start, Rundown and bootstrap events is registering their contexts in turn |
| RegistrationOrder.StartTimeIsDetermined | KernelProcessProvider/ProviderEventsHandlers/Common/ProcessHandlerCommon.cpp:78-79 | What a provider registers has the start time its creation time determines |
| RegistrationOrder.ProviderConfluence | KernelProcessProvider/ProviderEventsHandlers/Common/ProcessHandlerCommon.cpp:61-90 | So the providers' registrations of a new lifetime commute if and only if they agree wherever two know a field |
| RegistrationOrder.RegisterAllMerges | ProcessContext/ProcessContext.cpp:15-25 | Registrations of a known lifetime insert nothing and leave in each field the last known value |
| RegistrationOrder.KnownLifetimeConfluence | ProcessContext/ProcessContext.cpp:15-25 | Registrations of a known lifetime commute if and only if they agree among themselves wherever two know a field; start times do not matter |
| Monitor.RecordStep | KernelFileProvider/ProviderEventsHandlers/Common/FileEventRecorder.cpp:4-50 | A file event keeps the store's invariant and changes nothing but the file history of the lifetime it is attributed to |
| Monitor.ReachableInvariant | ProcessContext/ProcessContext.cpp:6-44 | In every run of the two providers no two contexts share process id and creation time, every key is its context's key, and every lifetime is sound |
| Monitor.LookupIsDetermined | ProcessContext/ProcessContext.cpp:34-44 | In every reachable state a lookup has one answer, the exact or the newest lifetime, and fails exactly when nothing matches |
| Monitor.KeysIncrease | ProcessContext/ProcessContext.cpp:27-28 | Keys are nonzero and issued in strictly increasing order over a run |
| Monitor.StoppedStaysStopped | KernelProcessProvider/ProviderEventsHandlers/ProcessStopHandler/ProcessStopHandler.cpp:14-24 | Over any run a lifetime never disappears or forgets a known field, and a stopped one keeps exit, images and threads whatever arrives later |
| Monitor.StopIsExact | KernelProcessProvider/ProviderEventsHandlers/ProcessStopHandler/ProcessStopHandler.cpp:3-26 | A stop event changes at most the running lifetime with exactly its process id and creation time, never a reused id, and closes it entry by entry |
| Monitor.OnlyStopsEnd | KernelProcessProvider/ProviderEventsHandlers/ProcessStopHandler/ProcessStopHandler.cpp:16-17 | No event but a stop ends a lifetime |
| Monitor.ExitIsFirstStops | KernelProcessProvider/ProviderEventsHandlers/ProcessStopHandler/ProcessStopHandler.cpp:14-24 | Exit code and time of a stopped lifetime are those of the stop that named it while it ran |
| Monitor.EndedOnce | KernelProcessProvider/ProviderEventsHandlers/ProcessStopHandler/ProcessStopHandler.cpp:14-15 | At most one stop of a run is effective for a lifetime |
| Monitor.FileHistoryIsProjection | KernelFileProvider/ProviderEventsHandlers/Common/FileEventRecorder.cpp:19-49 | In every interleaving the file history of a lifetime is the in-order list of recordable events attributed to it, with paths resolved before the event's own handler |
| Monitor.AttributedIs | KernelFileProvider/ProviderEventsHandlers/Common/FileEventRecorder.cpp:4-21 | An event is recorded for k if and only if it is one of the eleven listed operations of a process in the job and k is the newest lifetime of that process |
| Monitor.FileHistoryTells | KernelFileProvider/ProviderEventsHandlers/Common/FileEventRecorder.cpp:22-49 | In every interleaving each record of a history tells of its event: time, operation, the normalised path the event names or else its pointers lead to in the history of the file events, offset and size of reads and writes |
| Monitor.RecordsAreConserved | KernelFileProvider/ProviderEventsHandlers/Common/FileEventRecorder.cpp:19-49 | The stored histories of all lifetimes together hold exactly one record per attributed event |
| Monitor.AlertIsHistory | KernelFileProvider/KernelFileProvider.cpp:68-72 | The request for re-execution stands exactly when the history of the file events makes one of them a violation; process events never matter to the maps |
| Monitor.AlertIsFirstViolation | KernelFileProvider/KernelFileProvider.cpp:68-72 | The alert is raised by the first violation of a run and by no other event |
| Monitor.ReachableIsReady | ProcessContext/ProcessContext.cpp:27-31 | In every reachable state the store meets what its methods need: unique identities and a key left |
| Monitor.Observe | KernelFileProvider/KernelFileProvider.cpp:26-79 | The two providers' methods, fed any interleaving of events, go through exactly the states of the run theorems and raise the alert exactly where they say |
| ImageHistory.EventImages | KernelProcessProvider/ProviderEventsHandlers/ImageLoadHandler/ImageLoadHandler.cpp:5-26 | What one event of a run does to the images loaded at one base of one lifetime |
| ImageHistory.LoadedImagesAreHistory | KernelProcessProvider/ProviderEventsHandlers/ImageUnloadHandler/ImageUnloadHandler.cpp:4-19 | An image is loaded if and only if it is that of the first load since the base was last unloaded or the lifetime ended |
| ImageHistory.SomethingLoaded | KernelProcessProvider/ProviderEventsHandlers/ImageLoadHandler/ImageLoadHandler.cpp:17-22 | Something is loaded at a base exactly when the history has such a load |
| ImageHistory.ImagesAreHistory | KernelProcessProvider/ProviderEventsHandlers/ImageUnloadHandler/ImageUnloadHandler.cpp:10-18 | Over every run the image list of a lifetime is exactly its load events in order, each with what the event said, loaded until its base is cleared and then unloaded at the time of the first unload or stop that cleared it |
| FileCorrelation.FileProvider.NameCreateHandler | KernelFileProvider/ProviderEventsHandlers/NameCreateHandler/NameCreateHandler.cpp:6-17 | Its whole effect on the three maps, the step behind FileHistory.KeyMapIsHistory |
| FileCorrelation.FileProvider.NameDeleteHandler | KernelFileProvider/ProviderEventsHandlers/NameDeleteHandler/NameDeleteHandler.cpp:6-14 | Its whole effect on the three maps, the step behind FileHistory.KeyMapIsHistory |
| FileCorrelation.FileProvider.CreateOpenHandler | KernelFileProvider/ProviderEventsHandlers/CreateOpenHandler/CreateOpenHandler.cpp:9-51 | Path write and pending create, the step behind FileHistory.PendingIsHistory; never itself a violation |
| FileCorrelation.FileProvider.CloseHandler | KernelFileProvider/ProviderEventsHandlers/CloseHandler/CloseHandler.cpp:7-16 | Forgets exactly the closed FileObject |
| FileCorrelation.FileProvider.OperationEndHandler | KernelFileProvider/ProviderEventsHandlers/OperationEndHandler/OperationEndHandler.cpp:7-39 | Consumes the pending create; it is a violation exactly if there is one, the status is there and below 0x80000000, and the path is no directory |
| FileCorrelation.Bits | KernelFileProvider/ProviderEventsHandlers/FileCreatePolicy.h:5-27 | The bit tests in numbers: a status succeeds below 0x80000000, odd create options ask for a directory, bit 12 deletes on close |
| FileCorrelation.FileProvider.RenamePathHandler | KernelFileProvider/ProviderEventsHandlers/RenamePathHandler/RenamePathHandler.cpp:7-28 | The verdict uses the path known before the remapping and the new one |
| FileCorrelation.FileProvider.CreateNewFileHandler | KernelFileProvider/ProviderEventsHandlers/CreateNewFileHandler/CreateNewFileHandler.cpp:7-30 | Path write and immediate verdict |
| FileCorrelation.FileProvider.Resolve | KernelFileProvider/ProviderEventsHandlers/Common/HandlerCommon.cpp:117-128 | Object first, unless its path is empty, then key; FileHistory.ResolvedPath says what that is in the history |
| FileCorrelation.FileProvider.RecordFileEvent | KernelFileProvider/ProviderEventsHandlers/Common/FileEventRecorder.cpp:4-50 | Appends exactly one record, which tells of the event, to the newest lifetime of the process, or changes nothing |
| FileCorrelation.RecordDescribes | KernelFileProvider/ProviderEventsHandlers/Common/FileEventRecorder.cpp:22-47 | What a record says: event time, the operation by its listed name, the normalised FileName of 12 and 30 or FilePath of 26 and 27, else the resolved path, offset and size for 15 and 16 alone |
| FileCorrelation.FileProvider.OnFileEvent | KernelFileProvider/KernelFileProvider.cpp:26-79 | Records with the maps as they were, then updates them, and raises the alert on a violation unless one was raised before |
| FileHistory.PendingIsHistory | KernelFileProvider/ProviderEventsHandlers/CreateOpenHandler/CreateOpenHandler.cpp:42-48 | An IRP is pending exactly when the latest accepted protected non-directory open under it is not completed, and holds that open's data |
| FileHistory.CompletionViolates | KernelFileProvider/ProviderEventsHandlers/OperationEndHandler/OperationEndHandler.cpp:7-39 | A completion is a violation if and only if its status is present and successful, such an open under the same nonzero IRP is uncompleted, and its path is no directory now |
| FileHistory.OneViolationPerCreate | KernelFileProvider/ProviderEventsHandlers/OperationEndHandler/OperationEndHandler.cpp:21-22 | A pending create leads to at most one violation |
| FileHistory.RenameViolates | KernelFileProvider/ProviderEventsHandlers/RenameHandler/RenameHandler.cpp:7-12 | A rename is a violation exactly when the path the history gives its pointers is protected |
| FileHistory.RenamePathViolates | KernelFileProvider/ProviderEventsHandlers/RenamePathHandler/RenamePathHandler.cpp:15-27 | A rename to a path is one exactly when the path of the history or the new path is protected |
| FileHistory.VerdictIsHistory | KernelFileProvider/KernelFileProvider.cpp:52-67 | The verdict on every event of every kind is the one its history determines |
| FileHistory.ObjectMapIsHistory | KernelFileProvider/ProviderEventsHandlers/RenamePathHandler/RenamePathHandler.cpp:23-25 | A FileObject maps to p if and only if the last create, create-new, rename or violating completion that wrote it since its last close wrote p |
| FileHistory.KeyMapIsHistory | KernelFileProvider/ProviderEventsHandlers/NameCreateHandler/NameCreateHandler.cpp:8-15 | A FileKey maps to p if and only if its last non-empty NameCreate since its last NameDelete named p |
| FileHistory.ZeroIsNoObject | KernelFileProvider/ProviderEventsHandlers/CreateOpenHandler/CreateOpenHandler.cpp:24-48 | 0 is a key of none of the three maps, ever |
| FileHistory.NoPointerNoPath | KernelFileProvider/ProviderEventsHandlers/Common/HandlerCommon.cpp:117-128 | An event without pointers resolves to no path in every reachable state |
| FileHistory.ResolvedPath | KernelFileProvider/ProviderEventsHandlers/Common/HandlerCommon.cpp:117-128 | The resolved path in terms of the history alone |
| FileHistory.ResolvedPoints | KernelFileProvider/ProviderEventsHandlers/Common/HandlerCommon.cpp:117-128 | It is the empty path exactly when the history knows no other for the event's pointers |
| SandboxRunner.CreateWindowsContainer | HCS/internal/containerdclient/container.go:90-113 | A failed creation leaves nothing live except what a delete call failed for or the failing call itself made |
| SandboxRunner.CreateAndStartTask | HCS/internal/containerdclient/task.go:20-51 | A task that cannot be waited for or started is deleted again, or its deletion failed; one whose creation reports an error is not looked for |
| SandboxRunner.DeleteTask | HCS/internal/containerdclient/task.go:65-78 | Success means the task is gone, failure that its deletion failed |
| SandboxRunner.DeleteContainerAndSnapshot | HCS/internal/containerdclient/task.go:80-105 | Succeeds exactly if the first call is answered, or it fails and both calls of the recovery path are answered; then container and snapshot are gone, except exactly: the snapshot stays if it was live and the container was not when the answered first call came, unless it disappears later |
| SandboxRunner.Recover | HCS/internal/containerdclient/task.go:93-104 | The recovery path removes snapshot and container each by its own call, whatever the other answers, and succeeds exactly if both are answered |
| SandboxRunner.DeleteEndpoint | HCS/internal/winnetwork/endpoint_windows.go:48-57 | Success means the endpoint is gone |
| SandboxRunner.DeleteLease | HCS/internal/containerdclient/lease.go:33-42 | Success means the lease is gone |
| SandboxRunner.SettleTwo | HCS/internal/sandbox/runner.go:297-316 | Two settled deletions settle what both were for; a joined error means that something of it could not be deleted |
| SandboxRunner.CleanupLeaves | HCS/internal/sandbox/runner.go:297-316 | What a successful Cleanup leaves is exactly the orphaned snapshots from before and its own if the container was gone when the answered delete call came, less what disappeared meanwhile |
| SandboxRunner.Runner.Prepare | HCS/internal/sandbox/runner.go:42-96 | Succeeds exactly when it is not prepared, the configuration is accepted and its three calls are answered; on failure nothing new is recorded and the lease was taken back or its deletion failed |
| SandboxRunner.Runner.Start | HCS/internal/sandbox/runner.go:98-173 | Succeeds exactly when prepared, not started and its four or five calls are answered; whatever it created is recorded or taken back at every failing call; a second start changes nothing |
| SandboxRunner.Runner.DeleteRecorded | HCS/internal/sandbox/runner.go:288-316 | Every recorded resource is attempted in its turn, whatever the others answer, and is gone if its own call was answered; nothing else is touched; the fate of the snapshot is exact |
| SandboxRunner.Runner.Cleanup | HCS/internal/sandbox/runner.go:288-327 | Clears every field; reports success exactly if each deletion, in its turn, is answered, the container's by the recovery path if need be; what is left after a success without an earlier call to blame is exact, and nothing is live if nothing disappears on its own |
| SandboxRunner.Lifecycle | HCS/internal/sandbox/runner.go:42-173 | After any sequence of Prepare, Start and Cleanup every live resource is recorded, had a failed delete call, was made by a call that reported an error, or is an orphaned snapshot; if nothing disappears on its own, a closing successful Cleanup without an earlier such call leaves nothing live |
| SandboxRunner.ForgottenSnapshot | HCS/internal/containerdclient/task.go:89-91 | At a concrete host Cleanup reports success and leaves the snapshot live |
| SandboxRunner.LeakedLease | HCS/internal/sandbox/runner.go:60-63 | At a concrete host Prepare fails and leaves a lease live without a record |
| WorkspaceDelete.DeleteFile | HCS/internal/workspacedelete/delete.go:10-68 | Succeeds if and only if the target is a regular file reached from the root through directories only and the system removes it; then exactly that file is gone; every error leaves the file system unchanged and has its exact cause |
| WorkspaceDelete.RejectSymlinkParents | HCS/internal/workspacedelete/delete.go:44-68 | The first parent from the top that cannot be inspected or is a link decides, and only those below the root and above the target are looked at |
| WorkspaceDelete.ResolveAppend | HCS/internal/workspacedelete/delete.go:56-66 | Resolving a path is resolving its parent, links and all, and going on from there |
| WorkspaceDelete.StaysInside | HCS/internal/workspacedelete/delete.go:44-68 | If no inspected parent is a link, the target is lexically below the resolved root |
| WorkspaceDelete.NotDeletable | HCS/internal/workspacedelete/delete.go:59-65 | A parent that is missing or a link rules the deletion out |
| WorkspaceDelete.DeletableIsSeen | HCS/internal/workspacedelete/delete.go:30-36 | A deletable file passes every inspection |
| PathPolicy.JoinGoesUp | HCS/internal/policy/policy.go:90-92 | A relative path is taken to leave the root exactly when its first element is "..", so a child named like "..x" stays inside |
| PathPolicy.ContainsIsPrefix | HCS/internal/policy/policy.go:79-93 | On cleaned absolute paths containment is the component-prefix order up to case |
| PathPolicy.DisjointTrees | HCS/internal/policy/policy.go:95-97 | Paths that do not overlap have no path in both |
| PathPolicy.OverlapIsShared | HCS/internal/policy/policy.go:95-97 | Paths overlap if and only if some path lies in both trees |
| PathPolicy.ValidatePaths | HCS/internal/sandbox/config.go:90-124 | Accepts if and only if the paths are valid and no drive roots, the working directory lies inside the workspace mount, and no path lies in both host or both container mounts |
| ChildEnvironment.CollectEntries | StartProcess/StartProcess.cpp:57-75 | The stepping loop drops exactly the CODEX_HOME variants and appends the new entry |
| ChildEnvironment.DecodeEncoded | StartProcess/StartProcess.cpp:89-96 | Decoding an encoded list gives it back if and only if no entry is empty or contains a NUL |
| ChildEnvironment.OthersCount | StartProcess/StartProcess.cpp:62-71 | Every entry that begins with CODEX_HOME= in any case is dropped and every other one kept as often as it occurs |
| ChildEnvironment.LessIsPrecedes | StartProcess/StartProcess.cpp:79-81 | The comparison is that by the first unit in which two entries differ up to case, both ending at a NUL |
| ChildEnvironment.LessIsTransitive | StartProcess/StartProcess.cpp:79-81 | The comparison is transitive, also on entries cut short by a NUL |
| ChildEnvironment.EquivalenceIsTransitive | StartProcess/StartProcess.cpp:79-81 | Comparing equal is transitive, so the comparison is the strict weak ordering a sort needs |
| ChildEnvironment.Sort | StartProcess/StartProcess.cpp:76-82 | Every list of entries has a sorted permutation, and the sort finds one |
| ChildEnvironment.BuildChildEnvironment | StartProcess/StartProcess.cpp:48-97 | The block has the precomputed size and ends in two NULs; decoding it gives a list in case-insensitive order with the new CODEX_HOME once, no other variant and every other entry as often as before, if and only if the new value contains no NUL |
| Counterexamples.LoneEmptyStringIsNotFound | krabs/krabs/testing/synth_record.hpp:140-144 | A lone trimmed empty string is packed without error and not found |
| Counterexamples.NulCutsString | krabs/krabs/size_provider.hpp:131-135 | The string a, NUL, b is read back as a |
| Counterexamples.OversizedBlobsAreLost | krabs/krabs/testing/synth_record.hpp:146 | Two blobs of 70000 bytes together pack without error, leave 4464 bytes of record, and do not read back |
| Counterexamples.ShortFillerLosesTheNext | krabs/krabs/testing/record_builder.hpp:371-380 | A blob of declared length 16, filled with one byte, makes the number behind it lie past the end |
| Counterexamples.WidePointerShiftsTheNext | krabs/krabs/size_provider.hpp:77-80 | Behind an unfilled pointer under a 32-bit header the number 1 is read as 0 |
| Counterexamples.HintDecides | krabs/krabs/parser.hpp:164-182 | Of two properties of one name, hint 0 reads the first and hint 1 the second |
| Counterexamples.LaterImageWins | ProcessContext/ProcessContext.cpp:17-24 | Two registrations with different images end in different stores in their two orders |
| Counterexamples.NulSplitsCodexHome | StartProcess/StartProcess.cpp:90-94 | A Codex home with a NUL decodes as two entries |
| Counterexamples.LostCodexHome | StartProcess/StartProcess.cpp:48-97 | So the block built for it does not hand it to the child, however case is folded |

## Left out

- TDH, `ConvertSidToStringSid`, socket, IP and SID parsing, and debug-only assertions and type checks: foreign or
  absent from release builds; TDH's size is a function of the property name.
- Nested struct properties: schemas are flat, as many top-level properties as properties; names are distinct where a
  lemma says so.
- ExactReading.AnyRecordReads: strings are those whose size the provider scans for (OutType STRING, length 0, no flags).
- PackedRecords.TypedRecordReadsBack: excludes flags declared in other than four bytes and pointers under a 32-bit header,
  which can read back although the length differs; `PackedRecords.PackedRecordReadsBack` covers them.
- `view_of`, counted strings and the property iterator of the parser: easy beside the lookup.
- Parser.DecodeAt: a bool read that runs past the record, and any read outside it, is the error `BeyondBuffer`, because
  the program does not define its value; so is the second byte of a wide scan over an odd tail, whose value never matters.
- ExtendedData.Pack: requires items of at most 65535 bytes, as the builder asserts, and an address space that holds the
  buffer; the empty list, for which the builder returns a null pointer, gives an empty buffer here.
- ProcessStore.ProcessContextStore.Register: requires fewer than 2^64 - 1 entries; with all keys used the source's loop
  does not end.
- Monitor.ReachableInvariant: covers runs shorter than 2^64 events, so the key counter does not wrap inside a run, and the
  providers' operations, not `Add`, `Remove` or arbitrary update callbacks.
- Locks and concurrent callbacks: every call is atomic, as the store's and the handlers' mutexes make it; registry,
  network and score fields that no handler writes, and `Snapshot`, are not part of the model.
- Job membership is one answer per event: the handler and the store ask separately, here they get the same answer.
- Console printing and wall clocks: the time of an event is an input; an event is the list of its parsed fields, which
  Parser.Parser.FindProperty justifies although recorder and handlers share one parser.
- A history theorem for threads: the provider switches thread events off; the handlers and their invariant are modelled.
- `NormalizeFilePath`, protected folders and directory tests: arbitrary functions that may answer differently at each event.
- Handlers that only print (read, write, delete-path, set-delete, set-information): they change no map and never object.
- ETW sessions, provider enabling, predicates and filters, jobs, process creation, argument quoting, host console, image
  pulling: wrappers over system calls.
- SandboxRunner.Runner.Start: the exit collector, `Wait`, `Stop`, `Signal`, `ResizeTTY`, container specification options,
  and two calls running at once are not modelled.
- WorkspaceDelete.DeleteFile: the file system does not change during the call, links are symbolic links to absolute
  paths, and `Abs` and `Clean` have been applied already.
- PathPolicy.ValidatePaths: host paths arrive as `ValidateWorkspace` resolved them; the checks on platform, runtime,
  sizes and timeouts are left out.
- ChildEnvironment.BuildChildEnvironment: of entries that compare equal `std::sort` may choose another order than the sort
  here; the contract holds of every sorted order. The failing environment query is left out.
