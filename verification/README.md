# MoarVM's serialization core and four neighbours, modelled in Dafny

The project models the parts of MoarVM on which precompiled modules rest, and proves what they
promise:

* **Serialization** (`src/6model/serialization.c`): the integer, place and string codes, nested
  references, closures, the walk over an object graph through three growing work lists, the tables
  and sections as bytes, and the lazy deserializer as a protocol of threads, stubs, worklists and a
  reentrant mutex.
* **Serialization contexts** (`src/6model/sc.c`, `src/6model/sc.h`): the compact header with its
  overflow record, root lists, cached indices, and repossession.
* **Two-Way substring search** (`3rdparty/freebsd/memmem.c`).
* **Races on shared tables**: interning of parameterized types (`src/6model/parametric.c`) and the
  lock-free list of memory to free at a safepoint (`src/core/alloc.h`).
* **Argument flattening** (`src/core/args.c`, `src/core/bytecode.c`) and **SHA-1**
  (`3rdparty/sha1/sha1.c`).

`dafny verify dfyconfig.toml` checks everything.

## How it is put together

| files | what they hold |
|---|---|
| `Bytes`, `IntCode`, `Codes`, `Packing` | bytes, the integer code, and the other codes below the level of references. What is built on them uses no more than that each code delimits itself (`Codes.Coding`); `Packing.Format` is the serializer's own set |
| `Buffers` | the growing write buffer and the read cursor, over an array |
| `WireFormat`, `DataLayout` | which bytes stand for what: codes, discriminators, order of elements, the header and the fields of table rows |
| `Tables`, `Places` | string heap, dependencies, root lists and ownership marks; places, strings and object rows written and read with them |
| `Values`, `Encoding`, `ValueProofs`, `Strings` | nested values: writing threads the writer through the value, `Encoding.Encode` says what the bytes are from the finished tables alone, and reading inverts that |
| `Ownership`, `Closures`, `Parts` | which items a write takes into the context, what the rows of the closures table say, and bodies: references and numbers, strings and bytes without a discriminator |
| `Serialize`, `Lexicals`, `SerializeRuns` | one step of the graph walk, the reader's side of a frame, and the invariant of every run |
| `Serializer`, `Deserializer`, `RoundTrips` | the writer and the reader as objects that are updated in place, proved against the functions above |
| `Writability`, `Throwing` | when a write, a step and a whole run throw, told from what there is before |
| `Sections`, `Repossessions`, `TableRows`, `EndToEnd`, `SerializeWhole` | `concatenate_outputs` over an array, and `check_and_dissect_input`; the repossessions table; table rows as bytes; from a graph to bytes and back; and the writer, the records of the contexts and the concatenation, one after the other |
| `Demand`, `DemandProofs`, `DemandRuns`, `DemandSizes`, `DemandHandover`, `DemandProgress`, `DemandSchedules` | the lazy deserializer as a step system: invariant, safety over every interleaving, what is handed over, progress of one thread and of all |
| `ScHeader`, `ScRoots`, `ScEffects`, `ScRegistry`, `RootTables` | headers, root lists and repossession as operations and as objects, and what each operation does; how the arrays behind the lists grow |
| `Words`, `MaximalSuffix`, `TwoWay` | maximal suffixes, periods, and the search |
| `Parametric`, `ParametricCalls`, `FreeList` | two step systems |
| `Flattening`, `FlatteningPlaces`, `FlatteningRecord`, `HashOrder` | the specification, where each argument ends up, the two passes over arrays, and the order of a flattened hash |
| `Sha1`, `Sha1Example`, `Sha1Context` | FIPS 180-4, its example, and the code's in-place form of it |

Modelling decisions that a reader should know:

* Exceptions are results (`Err`, `Failed`, `Bad`). After one, nothing is said about the state that was
  being changed.
* An item (object, STable, code, frame) is a number. What is written of it is a sequence of parts,
  and the reader knows of what kind each is (`Parts.Expected`). Objects that `write_ref` turns into
  the VM null (handles, decoders) are that value.
* Static code is never itself a closure. It is found by the mark that says which context it is in;
  where it has none, a closure or a frame of it cannot be serialized, and an outer frame of it is
  not of interest.
* Numbers that the C code keeps in 31 or 32 bits are unbounded here and explicit where it matters;
  counts and indices of 2^31 or more are treated as errors by the writer.
* The byte order is little-endian. A double is its 64 bits.
* Hashes yield their keys in any order, each key once; the order is a parameter.
* The protocols interleave atomic accesses; a step that is not possible changes nothing.

Results that differ from what one would expect of the code:

* `expand_storage_if_needed` doubles once, which makes room exactly if what is written fits the old
  limit (`Buffers.DoublingOnceSuffices`, `Buffers.SmallestBufferOverruns`). For any number of writes one
  after another that is so exactly if the largest of them fits the first limit (`Buffers.WritesFitIff`).
* `MVM_sc_set_stable` hands `MVM_recalloc` a number of entries where it takes bytes, so growing keeps
  the items exactly if they lie in the first eighth of the table, where an item that straddles the
  end of it survives if the part of its address beyond the end is zero
  (`RootTables.RootTable.SetStable`, `RootTables.GrowingLosesItems`, `RootTables.GrowingKeepsFirst`).
* What sorting a flattened hash gives is determined exactly if no two of its names have equal hash
  codes, whatever the sort does with equal ones (`HashOrder.DeterminedIff`). With a stable sort, which
  `qsort` does not promise, the order of iteration is hidden in exactly that case
  (`HashOrder.OrderIsHidden`). If codes are equal, only the order of the names can differ
  (`HashOrder.OnlyNamesMove`).

## Model

| member | source | states |
|---|---|---|
| IntCode.SizeIsThreshold | src/6model/serialization.c:331-358 | the size of the integer code is that of the thresholds in the code |
| IntCode.IntRoundTrip | src/6model/serialization.c:1584-1697 | for every 64-bit integer at any place among other bytes, reading gives it back and ends where it ends: the code delimits itself |
| IntCode.Shortest | src/6model/serialization.c:331-390 | no form of the code, canonical or not, is shorter than the one that is written for its value |
| IntCode.IntBytesAgree | src/6model/serialization.c:2425-2454 | `calculate_int_bytes` foretells what reading consumes, and reading succeeds exactly if that many bytes are there |
| WireFormat.IntForms | src/6model/serialization.c:364-390 | the bytes of an integer: one for small values; otherwise how many follow, with the top four bits, and these bytes, the lowest first; zero before eight bytes |
| Buffers.DoublingOnceSuffices | src/6model/serialization.c:321-327 | doubling the limit once makes room at every fill level if and only if the item fits the old limit |
| Buffers.SmallestBufferOverruns | src/6model/serialization.c:321-327 | eight small integers fill a buffer of eight bytes, after which one doubling leaves no room for a nine-byte integer |
| Buffers.WritesFitIff | src/6model/serialization.c:321-327 | in no sequence of writes of at most so many bytes does one overrun the buffer, if and only if that many bytes fit the first limit |
| Buffers.WriteBuffer.Expand | src/6model/serialization.c:321-327 | the contents stay; the new limit is the doubled one only if there was no room |
| Buffers.WriteBuffer.WriteInt | src/6model/serialization.c:331-390 | exactly the code of the value is appended in place, and what was there stays |
| Buffers.WriteBuffer.AppendAll | src/6model/serialization.c:428-443 | any number of writes that each fit the first limit are appended in place, with all doublings on the way |
| Buffers.ReadBuffer.ReadInt | src/6model/serialization.c:1584-1697 | value and cursor are those of the code; a read past the end is an error and moves nothing |
| Packing.PlaceRoundTrip | src/6model/serialization.c:452-462 | a context number and an index come back over their whole range, packed or overflowing |
| Packing.StringIndexRoundTrip | src/6model/serialization.c:399-425 | a string index comes back over its whole range of 31 bits, in two bytes or four |
| Packing.NumRoundTrip | src/6model/serialization.c:392-396 | the bits of a double come back |
| Packing.CodersDelimit | src/6model/serialization.c:331-462 | all four codes are self-delimiting in the sense that everything above relies on |
| WireFormat.StringForms | src/6model/serialization.c:410-425 | the bytes of a string index: two, or four with the top bit of the second one set |
| WireFormat.PlaceForms | src/6model/serialization.c:452-462 | a place is one integer, the context times 2^20 and the index, or three integers where they do not fit |
| WireFormat.NumForms | src/6model/serialization.c:392-396 | a double is its eight bytes, the lowest first |
| Tables.AddStringOk | src/6model/serialization.c:251-267 | the index handed back is where the string is known to stand from then on; tables only grow and stay in order |
| Tables.ScIdOk | src/6model/serialization.c:271-300 | the number handed back is the context's from then on; root lists and ownership are untouched |
| Tables.NumberStable | src/6model/serialization.c:271-300 | a context's number does not change however many dependencies are added |
| Tables.NumberLocates | src/6model/serialization.c:1544-1554 | `locate_sc` finds the context that `get_sc_id` numbered |
| Tables.DepsResolve | src/6model/serialization.c:2153-2182 | the dependency rows give the reader the writer's dependencies, in order |
| Tables.ClaimOk | src/6model/serialization.c:465-477 | taking an item in keeps every item where its mark says |
| Tables.SeedsOk | src/6model/serialization.c:1379-1428 | seed strings are known one place further on than they were handed in, after the null string |
| Tables.SeedAt | src/6model/serialization.c:1399-1401 | the i-th seed string is at place i + 1, and known by the last place at which it was handed in |
| Places.ItemRoundTrip | src/6model/serialization.c:465-477 | an item's place is read back to the item |
| Places.StrRoundTrip | src/6model/serialization.c:1709-1723 | a string is read back through the heap |
| Places.RowRoundTrip | src/6model/serialization.c:1198-1214 | an object row fits 32 bits and gives back context, index and concreteness over their full ranges, with the overflow words eight bytes before the data, whatever data follows |
| WireFormat.RowForms | src/6model/serialization.c:1196-1214 | the packed word has the index in twenty bits, the context in eleven above them and concreteness on top; what does not fit is two words before the data |
| Encoding.WriteRefKept | src/6model/serialization.c:703-816 | whatever value is written, the writer's tables stay in order and only grow |
| Encoding.RefDetermined | src/6model/serialization.c:703-816 | the bytes `write_ref` appends are those that any later state of the tables determines, whatever the state it was called in |
| WireFormat.Discriminator | src/6model/serialization.c:708-766 | the first byte of every reference is the number of its kind |
| WireFormat.RefsInOrder | src/6model/serialization.c:480-490 | elements are written in their order |
| WireFormat.IntsInOrder | src/6model/serialization.c:493-503 | so are integers |
| WireFormat.StrsInOrder | src/6model/serialization.c:506-516 | and strings |
| WireFormat.PairsInOrder | src/6model/serialization.c:523-546 | and the pairs of a hash, in the order of its keys |
| WireFormat.PartsInOrder | src/6model/serialization.c:331-477 | and the parts of a body |
| WireFormat.PartForms | src/6model/serialization.c:331-443 | the bytes of numbers, strings and byte strings without a discriminator |
| WireFormat.KeysAscend | src/6model/serialization.c:519-546 | the keys of a hash are written in ascending order, each once |
| WireFormat.ArrayBytes | src/6model/serialization.c:480-490 | an example: the eight bytes of an array of two integers and a null |
| WireFormat.HashBytes | src/6model/serialization.c:523-546 | an example: the six bytes of a hash with one key |
| ValueProofs.ReadBack | src/6model/serialization.c:1805-1974 | reading the bytes of a value gives the value and ends where they end |
| ValueProofs.RefRoundTrip | src/6model/serialization.c:703-816 | `read_ref` after `write_ref` yields the value and the writer's end for every nested value and every writer, with the tables of any later state |
| ValueProofs.RefsRoundTrip | src/6model/serialization.c:703-816 | the same for a whole body |
| ValueProofs.OrderCannotBeSeen | src/6model/serialization.c:523-546 | equal hashes, at any depth, give equal bytes and equal writers whatever order the iterator yields |
| Writability.FormatEncodes | src/6model/serialization.c:331-462 | the serializer's own codes hold every 64-bit number and every index below 2^31 |
| Writability.ClosureRoom | src/6model/serialization.c:580-701 | given room in the tables, a closure is serialized if and only if its static code has a context and its outer frame is not in another one |
| Writability.ClosureOkIff | src/6model/serialization.c:580-624 | what that asks for, told from the closure, the frames and the marks alone |
| Writability.RefDecided | src/6model/serialization.c:703-816 | given room, `write_ref` of any nested value throws if and only if a count is 2^31 or more, or code is referred to that has no context and is no such closure |
| Writability.PartsDecided | src/6model/serialization.c:331-477 | the same for a body |
| Strings.SortedKeysAgree | src/6model/serialization.c:519-546 | sorting hides the order of iteration |
| Strings.AscendingUnique | src/6model/serialization.c:519-546 | keys in ascending order are determined by the set of them |
| Ownership.PulledByRef | src/6model/serialization.c:465-816 | a write takes into the context what the value refers to and has no context, and nothing that this does not need; each taken item gets the next place of its list |
| Ownership.PulledByClosure | src/6model/serialization.c:600-701 | with a closure come its outer frame, if that is of interest, and its code object, and no more |
| Closures.EntryReads | src/6model/serialization.c:649-701 | the row of a closure leads every later reader to its static code, to its outer frame or to none if that is not of interest, to its code object, and to its name |
| Closures.OuterIsNamed | src/6model/serialization.c:606-624 | the row of a closure names its outer frame whenever the static code of that frame, which is no closure, has a context |
| Closures.OuterIsLeftOut | src/6model/serialization.c:606-640 | and leaves it out exactly if there is none, or neither the frame nor such code has a context |
| Closures.RecordedByClosure | src/6model/serialization.c:649-701 | a closure that is met gets the next row, and its code the next place in the list of codes |
| Closures.RecordedByRef | src/6model/serialization.c:703-816 | whatever value is written, row i of the closures table goes on to describe the i-th code taken in, with one row for each |
| Parts.PartsRoundTrip | src/6model/serialization.c:331-477 | a body of references, numbers, strings and bytes is read back with its end, whatever is written later |
| Parts.PulledByParts | src/6model/serialization.c:331-477 | writing a body takes in what its parts refer to and has no context, and nothing that this does not need |
| Serialize.StableStep | src/6model/serialization.c:1031-1170 | serializing an STable leaves the tables in order and growing, gives what it refers to a context and nothing that this does not need, and every closure met a row |
| Serialize.StableNewRow | src/6model/serialization.c:1031-1170 | the STable's row leads every later reader to its representation, its own data, and its REPR's data at the second offset |
| Serialize.ObjectStep | src/6model/serialization.c:1175-1226 | the same for an object, whose STable gets a context too |
| Serialize.ObjectNewRow | src/6model/serialization.c:1175-1226 | the object's row leads every later reader to its STable, its concreteness and its body |
| Serialize.ContextStep | src/6model/serialization.c:1230-1301 | the same for a frame, whose outer frame gets a context if it is of interest |
| Serialize.ContextNewRow | src/6model/serialization.c:1230-1301 | the frame's row leads every later reader to its static code, its outer frame, and the number, names and values of its lexicals |
| Lexicals.FrameRead | src/6model/serialization.c:2321-2346 | such a row leads the reader, who goes by the number and the names it finds and by the types that the static code has for them, to the lexicals of the frame |
| SerializeRuns.RunInv | src/6model/serialization.c:1339-1377 | the invariant holds in every state of every run, whatever the order of the steps |
| SerializeRuns.StepIsNearer | src/6model/serialization.c:1339-1377 | the termination measure: a step gives more items a context, or works off a list entry |
| SerializeRuns.AtTheEnd | src/6model/serialization.c:1339-1377 | when all lists are worked off, row i of each table describes entry i of its list, and row i of the closures table the i-th code taken in, so that every context number and index leads to what it was written for; the items taken in are the least set closed under references to items without a context, and the lists hold exactly the roots and these, each once |
| Throwing.NextDecided | src/6model/serialization.c:1031-1301 | given room, the next row is written if and only if the item is there and all that is to be written of it can be |
| Throwing.SettledAtFirst | src/6model/serialization.c:1339-1377 | whether an item can be serialized does not change in the course of any run |
| Throwing.ThrowsIff | src/6model/serialization.c:1339-1377 | given room for all at the beginning, a run throws at an item if and only if the item could not be serialized then |
| Throwing.NeverThrows | src/6model/serialization.c:1339-1377 | no run throws if all items that it may come to can be serialized at the beginning |
| Serializer.SerializationWriter.AddStringToHeap | src/6model/serialization.c:251-267 | does what `Tables.AddString` says |
| Serializer.SerializationWriter.GetScId | src/6model/serialization.c:271-300 | the search loop and the new row do what `Tables.ScId` says |
| Serializer.SerializationWriter.AddClosureRow | src/6model/serialization.c:649-701 | does what `Values.SerializeClosure` says, of whose row `Closures.EntryReads` tells |
| Serializer.SerializationWriter.WriteReference | src/6model/serialization.c:703-816 | with its loops over arrays and hashes, does what `Values.WriteRef` says |
| Serializer.SerializationWriter.WriteAllParts | src/6model/serialization.c:331-477 | the writes of a body, one after another, do what `Parts.WriteParts` says |
| Serializer.SerializationWriter.WriteStable | src/6model/serialization.c:1031-1170 | does what `Serialize.SerializeStable` says, with the second offset noted between the two parts of the data |
| Serializer.SerializationWriter.WriteObjectRow | src/6model/serialization.c:1175-1226 | does what `Serialize.SerializeObject` says |
| Serializer.SerializationWriter.WriteContext | src/6model/serialization.c:1230-1301 | with its loop over the lexicals, does what `Serialize.SerializeContext` says |
| Serializer.SerializationWriter.Serialize | src/6model/serialization.c:1339-1377 | ends on every finite graph; either everything `SerializeRuns.AtTheEnd` says holds, or a run has led to a step that throws |
| Deserializer.SerializationReader.ReadReference | src/6model/serialization.c:1805-1974 | with its loops over arrays and hashes, does what `Values.ReadRef` says |
| Deserializer.SerializationReader.ReadFrameLexicals | src/6model/serialization.c:2321-2346 | with its loop, does what `Lexicals.ReadFrame` says |
| RoundTrips.WriteAndRead | src/6model/serialization.c:703-816 | writer and reader objects together give back the value that was written, after more was written |
| Sections.DissectIff | src/6model/serialization.c:1986-2149 | reading a header succeeds if and only if it puts the sections in order within the data, and finds just these |
| Sections.DissectExactly | src/6model/serialization.c:2018-2149 | data are accepted if and only if the version is 23 or 24 and a header of 72 bytes puts the ten sections in order within the data |
| Sections.DissectOutput | src/6model/serialization.c:1986-2149 | the reader accepts what the writer put together and finds every section's start and row count |
| Sections.LayoutInPlace | src/6model/serialization.c:826-927 | every section is aligned, after the header, has its content, and ends before the next one starts or the data ends, so that read limits cover it |
| Sections.Concatenate | src/6model/serialization.c:826-927 | the array that is filled in place is header, sections and padding; the size check at the end never throws |
| Repossessions.ReposOk | src/6model/serialization.c:1304-1337 | every row of the repossessions table leads to the former context and the index there, also where that context becomes a dependency only now; items and their places are left alone |
| Serializer.SerializationWriter.WriteRepossessions | src/6model/serialization.c:1304-1337 | the loop does what `Repossessions.SerializeRepos` says |
| TableRows.TableRead | src/6model/serialization.c:1471-1479 | the numbers of row i of a table are read at i times the size of a row, for every table whose numbers fit 32 bits |
| TableRows.ClosureTableRead | src/6model/serialization.c:2374-2402 | the rows of the closures table are read back, whatever is in the two numbers that are not written where there is no code object |
| DataLayout.HeaderWords | src/6model/serialization.c:826-927 | version, starts and row counts stand at their offsets in the header |
| DataLayout.FieldsOfRows | src/6model/serialization.c:826-927 | so they do for the bytes of every finished run, and its rows are read from the sections that the header leads to |
| DataLayout.StableFields | src/6model/serialization.c:1041-1166 | representation, data and REPR data stand at 0, 4 and 8 of an STable's row |
| DataLayout.DepFields | src/6model/serialization.c:294-297 | handle and description stand at 0 and 4 of a dependency's row |
| DataLayout.ObjectFields | src/6model/serialization.c:1213-1214 | the packed word and the data stand at 0 and 4 of an object's row |
| DataLayout.ClosureFields | src/6model/serialization.c:671-697 | the fields of a closure's row stand at their offsets |
| DataLayout.ContextFields | src/6model/serialization.c:1254-1270 | the fields of a context's row stand at their offsets |
| DataLayout.RepoFields | src/6model/serialization.c:1331-1335 | the fields of a repossession's row stand at their offsets |
| EndToEnd.SerializedIsRead | src/6model/serialization.c:1379-1453 | for every graph and every run that worked off its lists, the reader accepts the bytes put together from the rows, the dependency rows in them resolve to the writer's dependencies, and every row of STables, objects, closures, contexts and repossessions that it reads from them leads it to what the item was |
| SerializeWhole.SerializeToBytes | src/6model/serialization.c:1379-1453 | the work lists, the repossessions and the concatenation, one after the other: the bytes are such as the reader finds all in, or a step has thrown, or the numbers do not fit |
| SerializeWhole.SerializeRegistered | src/6model/serialization.c:1304-1337 | the same with the records of the write barrier: the repossession rows that are read are those of the records |
| SerializeWhole.TakenOverIsRead | src/6model/serialization.c:2933-3002 | the row that is read from the bytes about an item taken over at step k names its kind, the slot it got then, the context it was in then and its index there |
| DemandProofs.StepInv | src/6model/serialization.c:2747-2855 | every step of every thread keeps the invariant of the lazy deserializer |
| DemandRuns.HandedOverComplete | src/6model/sc.c:199-222 | in every interleaving, what the application is handed is completely deserialized |
| DemandHandover.AskedIsHanded | src/6model/sc.c:199-222 | what a thread is handed is what it asked for, complete, and it is the same that fills the slot ever after |
| DemandSizes.SizesDemanded | src/6model/serialization.c:2186-2239 | the STables that the size of a complete STable depends on, as its row lists them, are filled |
| DemandHandover.HandedOverClosed | src/6model/sc.c:199-222 | in every interleaving, all that can be reached from what the application is handed, along the references and STables that the rows name, is completely deserialized, whatever the other threads are at |
| DemandRuns.IncompleteMeansLocked | src/6model/serialization.c:2747-2855 | a filled but incomplete slot means that work is counted and the mutex is held |
| DemandRuns.OthersAreOutside | src/6model/serialization.c:2747-2855 | only the mutex holder is ever inside a demand |
| DemandRuns.OutermostIsQuiescent | src/6model/serialization.c:2723-2798 | when the outermost demand has counted down, both worklists are empty, every filled slot is complete, and all it refers to is complete |
| DemandRuns.OutermostUnlocks | src/6model/serialization.c:2747-2798 | a thread's own call leaves the mutex only in such a state |
| DemandRuns.StableBeforeObject | src/6model/serialization.c:2723-2745 | when the work loop takes an object, the STable of the object in the same context is complete: why it takes STables first |
| DemandRuns.IdentityIsStable | src/6model/serialization.c:2270-2285 | what fills a slot never changes |
| DemandRuns.CursorIsKept | src/6model/serialization.c:2186-2239 | whatever was stubbed in between, a deserialization goes on reading where it was |
| DemandRuns.SizeCursorIsKept | src/6model/serialization.c:2214-2233 | finding out a size reads where the row says that the data of the representation begin |
| DemandProgress.StepCosts | src/6model/serialization.c:2723-2798 | every step a thread makes lowers a bound on the steps its call still needs |
| DemandProgress.OthersDoNotInterfere | src/6model/serialization.c:2747-2798 | while a thread holds the mutex, steps of the others do not raise that bound |
| DemandProgress.HolderNotBlocked | src/6model/serialization.c:2747-2798 | the holder of the mutex can always go on |
| DemandProgress.AloneStep | src/6model/serialization.c:2747-2798 | a thread whose way is not barred by another one that holds the mutex can make a step, which brings it nearer to the end of its call |
| DemandProgress.RunToEnd | src/6model/serialization.c:2747-2798 | such a thread's call comes to its end without a step of any other thread |
| DemandSchedules.StepLowersTotal | src/6model/serialization.c:2723-2798 | every step of any thread lowers a bound on the steps that all threads together still make |
| DemandSchedules.SomeoneCanGoOn | src/6model/serialization.c:2747-2798 | while a call is pending, some thread can go on |
| DemandSchedules.EveryScheduleEnds | src/6model/serialization.c:2747-2798 | no schedule without new calls has more steps than the bound, and where none can go on all calls are over, the mutex is free and nothing is left half-deserialized |
| DemandSchedules.RunAll | src/6model/serialization.c:2747-2798 | whatever the scheduler, all calls come to their end |
| ScHeader.SetAll | src/6model/sc.h:40-128 | after any sequence of the two setters, the getters give the context that was set last, and the index that was set last, or none if the context was set after it |
| ScHeader.Collectable.StoreIdx | src/6model/sc.h:60-77 | sets the index and leaves the context, switching to the overflow record from the direct form when needed |
| ScHeader.Collectable.StoreSc | src/6model/sc.h:104-128 | sets the context and unsets the index, switching to the overflow record when the number does not fit |
| ScRoots.DoInv | src/6model/sc.c:437-539 | claims, stubs, owned aggregates and barrier hits keep marks, lists and repossession records in agreement |
| ScRoots.FindIsScan | src/6model/sc.c:113-147 | in every reachable state the cached index is what the search of the list would find |
| ScRoots.EntriesStay | src/6model/sc.c:445-539 | a root slot that holds an item goes on holding it, also when another context takes the item over |
| ScRoots.HitRecords | src/6model/sc.c:445-539 | a hit on an item, or on an aggregate that an item owns, gives the item the next slot of the compiling context, marks it so, and records kind, slot, former context and index there |
| ScEffects.HitPlain | src/6model/sc.c:461-539 | a hit on an STable, or on an object that is no aggregate, of another context gives it the next slot, a mark that says so and a record, and changes nothing else |
| ScEffects.HitOwned | src/6model/sc.c:449-499 | a hit on an aggregate is one on the owner of the first pair that is noted for it, if the owner is in another context, and otherwise nothing |
| ScEffects.HitUnowned | src/6model/sc.c:449-460 | a hit on an aggregate without an owner does nothing |
| ScEffects.HitAtHome | src/6model/sc.c:437-443 | nor does one on an item without a context or of the compiling one |
| ScEffects.ClaimAppends | src/6model/sc.c:338-347 | taking an item in appends it to the list and marks it, and changes nothing else |
| ScEffects.StubFills | src/6model/sc.c:267-286 | a stub fills its place, with empty ones before it where it is beyond the end |
| ScEffects.OwnNotes | src/6model/sc.c:449-460 | an aggregate is marked with the context, listed nowhere, and noted with its owner after those that were |
| ScRoots.OneRecord | src/6model/sc.c:445-539 | an item that two contexts list has exactly one record |
| ScRoots.RowRecovers | src/6model/serialization.c:1304-1337 | every record gives a row, and the row leads to the same item from the new slot and from the original one |
| ScRoots.RowStays | src/6model/serialization.c:1304-1337 | no operation changes what an existing record gives |
| ScRoots.RunRecords | src/6model/serialization.c:1304-1337 | after any run, the row about an item taken over at step k names its kind, the slot it got then, the context it was in then and its index there |
| ScRoots.EveryRecord | src/6model/serialization.c:1304-1337 | every row of any run was added when some item was taken over, and says that |
| ScRegistry.Registry.FindIndex | src/6model/sc.c:113-147 | the cached index or the first place the loop finds, and an error exactly if there is none |
| ScRegistry.Registry.Hit | src/6model/sc.c:437-539 | with the search for the owner of an aggregate, does what the operation on contexts says |
| ScRegistry.Registry.SerializeRepossessions | src/6model/serialization.c:1304-1337 | one row for every record, and no lookup throws |
| RootTables.RecallocByCount | src/core/alloc.h:40-53 | told a count for a size, reallocation keeps all items if and only if they lie in the first eighth, or straddle its end with an address that needs no more bytes |
| RootTables.RootTable.SetObject | src/6model/sc.c:267-286 | earlier entries stay, skipped ones are empty, with and without growth |
| RootTables.RootTable.PushStable | src/6model/sc.c:338-347 | the item is appended and all earlier entries stay |
| RootTables.RootTable.SetStable | src/6model/sc.c:314-334 | without growth earlier entries stay; with growth they stay exactly if they survive in the first eighth in that sense |
| RootTables.GrowingLosesItems | src/6model/sc.c:314-334 | an example: thirty-two entries and one more, after which not all are there |
| RootTables.GrowingKeepsFirst | src/6model/sc.c:314-334 | an example of the other kind: of six entries, an item in the first one straddles the end of what is kept, and is still there |
| MaximalSuffixes.MaximalSuffix | 3rdparty/freebsd/memmem.c:80-116 | the suffix after `ip` is the greatest in the given order, `p` is its least period, and `ip + 1 + p` stays within the needle |
| MaximalSuffixes.WinStep | 3rdparty/freebsd/memmem.c:88-91 | a letter below the period's makes the whole factor one block that beats its own suffixes |
| MaximalSuffixes.LoseStep | 3rdparty/freebsd/memmem.c:92-95 | a letter above the period's makes every suffix before the new candidate smaller |
| TwoWay.EchoGoesOn | 3rdparty/freebsd/memmem.c:147-153 | an echo of the right half that reaches far enough goes on, so a mismatch rules the shift out |
| TwoWay.PeriodIsMultiple | 3rdparty/freebsd/memmem.c:120-124 | a period of the needle longer than the left half is a multiple of the right half's period: the critical factorization |
| TwoWay.PeriodicIsPeriod | 3rdparty/freebsd/memmem.c:120-124 | when the comparison at line 121 finds equality, the right half's period is one of the whole needle |
| TwoWay.LeftShiftIsSafe | 3rdparty/freebsd/memmem.c:120-124 | after the right half has matched, no shift below the chosen one can lead to a match |
| TwoWay.RightMismatch | 3rdparty/freebsd/memmem.c:147-153 | a mismatch in the right half rules out every shorter shift than the one taken |
| TwoWay.LeftMismatch | 3rdparty/freebsd/memmem.c:154-158 | a mismatch in the left half rules out every shift below the period |
| TwoWay.BadByteShift | 3rdparty/freebsd/memmem.c:132-145 | the last byte of the window rules out every shift below the table's |
| TwoWay.RememberedShift | 3rdparty/freebsd/memmem.c:136-136 | with a period remembered, a last byte that does not fit lets the whole remembered part be skipped |
| TwoWay.FillShiftTable | 3rdparty/freebsd/memmem.c:76-78 | bits for the bytes of the needle, and one past the last place of each |
| TwoWay.CutNeedle | 3rdparty/freebsd/memmem.c:80-118 | the later of the two cuts is critical and comes with its own period |
| TwoWay.Search | 3rdparty/freebsd/memmem.c:70-160 | the leftmost occurrence, and none exactly if there is none, for every haystack and every needle that is not empty |
| Parametric.StepInv | src/6model/parametric.c:39-80 | every step of every thread keeps the table free of twins and every search sound |
| Parametric.SameParametersSameType | src/6model/parametric.c:86-112 | callers with equal parameters get the same type, however their steps interleave and whenever they come |
| ParametricCalls.TypeIsForParameters | src/6model/parametric.c:39-112 | in every interleaving, a caller gets a type for the parameters of its own last call, and one that the parameterizer made for these parameters |
| ParametricCalls.AloneFinishes | src/6model/parametric.c:39-112 | undisturbed, a call ends with the type of the first entry that has its parameters, or with the one made for it, which is added |
| Parametric.SearchIsRight | src/6model/parametric.c:116-139 | a search that rereads the table while longer versions are swapped in is right about the entries it set out to search |
| Parametric.TryFind | src/6model/parametric.c:116-139 | the type of the first entry with equal parameters, and none exactly if there is none |
| FreeList.StepInv | src/core/alloc.h:80-120 | every push step and every safepoint step keeps the list a chain without circles and every request accounted for once |
| FreeList.SafepointFreesAll | src/core/alloc.h:110-120 | when a safepoint is through, everything handed in has been freed exactly once and no entry is left |
| FreeList.RequestGetsTicket | src/core/alloc.h:80-88 | a request of an idle thread gets an entry and a ticket of its own |
| FreeList.PushAlone | src/core/alloc.h:80-88 | undisturbed, the entry is put before those that are listed |
| FreeList.SlowerTriesAgain | src/core/alloc.h:84-87 | a thread that another one was faster than goes back to reading the head |
| FreeList.SafepointAlone | src/core/alloc.h:110-120 | from every reachable state in which nobody is pushing, a safepoint can come, and it ends with nothing listed and all requests freed |
| FreeList.DrainingEnds | src/core/alloc.h:110-120 | from every reachable state the draining loop comes to its end |
| FreeList.FreedWasListed | src/core/alloc.h:80-120 | only what was pushed is freed, only at a safepoint |
| Flattening.CheckCallsite | src/core/bytecode.c:876-913 | callsites pass if and only if positionals come before nameds and flattened arguments are objects; the positionals are counted |
| Flattening.FlagBits | src/core/callsite.h:5-28 | which bits of a flag mark objects, nameds and what is flattened |
| Flattening.CheckedArgs | src/core/bytecode.c:876-913 | a callsite's flags are in order if and only if the arguments they describe are: what is checked at load time is what flattening relies on |
| Flattening.PositionalsFirst | src/core/bytecode.c:876-913 | in a callsite that passed, the positionals are exactly the first so many arguments |
| Flattening.NamesDistinct | src/core/args.c:43-51 | the names of a flattened call are distinct |
| Flattening.NamesAre | src/core/args.c:218-236 | the names of a flattened call are exactly those that occur in it |
| Flattening.LastValueIsLast | src/core/args.c:218-236 | a name's value is that of its last occurrence |
| FlatteningPlaces.FlattensIsPlaced | src/core/args.c:130-236 | the flattened call, told place by place from the arguments alone |
| FlatteningPlaces.AcceptableIff | src/core/args.c:72-128 | when flattening does not throw, told from the arguments alone |
| FlatteningRecords.CountArgs | src/core/args.c:72-128 | the 32-bit counters do not wrap, and the first pass throws exactly if there is something that cannot be flattened or too much |
| FlatteningRecords.FlatteningRecord.AddNamed | src/core/args.c:218-236 | a new name is appended with its value, a known one gets the new value; the argument counter stays the number of positionals and names |
| FlatteningRecords.PerformFlattening | src/core/args.c:65-250 | it succeeds if and only if only arrays and hashes are flattened and there is not too much of it; element j of an argument is where those before it leave off and j more; names stand in the order in which they first occur, each with the value and type of its last occurrence |
| FlatteningRecords.CheckAndFlatten | src/core/args.c:65-250 | a call with any callsite is refused exactly if the callsite is malformed or flattening throws, and otherwise flattened |
| HashOrder.OrderIsHidden | src/core/args.c:52-64 | a stable sort by hash code hides the order of iteration if and only if no two names have equal codes |
| HashOrder.SortsAgree | src/core/args.c:52-64 | any two sorts, stable or not, of any two orders of a hash agree if no two codes are equal |
| HashOrder.DeterminedIff | src/core/args.c:52-64 | what sorting may give is determined by the hash if and only if no two codes are equal |
| HashOrder.SameRecord | src/core/args.c:132-204 | if no hash has two names with equal codes, the flattened call is the same for all orders of iteration and all sorts |
| HashOrder.OnlyNamesMove | src/core/args.c:132-204 | with equal codes too, the positionals, the names and the value of each name are the same: only the order of names can differ |
| Sha1.CodeFIsF | 3rdparty/sha1/sha1.c:102-106 | the four round macros compute the functions of section 4.1.1 of FIPS 180-4 |
| Sha1Example.DigestOfAbc | 3rdparty/sha1/sha1.c:109-221 | the digest of "abc" is the one that FIPS 180-4 gives |
| Sha1.SwapUndoesLoad | 3rdparty/sha1/sha1.c:92-97 | the byte swap of `blk0` turns a little-endian load into the big-endian word |
| Sha1.CircularWord | 3rdparty/sha1/sha1.c:98-99 | the sixteen words in place give the next word of the eighty-word schedule, as in section 6.1.3 |
| Sha1.RoundInPlace | 3rdparty/sha1/sha1.c:102-106 | changing two variables in place, with the roles moving on, is one round of section 6.1.2 |
| Sha1Contexts.Transform | 3rdparty/sha1/sha1.c:109-158 | the state is compressed as section 6.1.2 says; the block is used up, and the bytes around it stay |
| Sha1Contexts.CarryIsNoticed | 3rdparty/sha1/sha1.c:175-181 | for calls of less than 2^29 bytes, comparing after adding carries into the high count exactly when needed |
| Sha1Contexts.Sha1Context.Update | 3rdparty/sha1/sha1.c:175-193 | the context stands for the old message with the data appended |
| Sha1Contexts.Sha1Context.Pad | 3rdparty/sha1/sha1.c:205-208 | the loop ends, with the least number of zero bytes, as section 5.1.1 demands |
| Sha1Contexts.Sha1Context.Finish | 3rdparty/sha1/sha1.c:196-221 | the digest is that of the message, and byte i of it is byte 3 - i % 4 of word i / 4 of the state |
| Sha1Contexts.HashParts | 3rdparty/sha1/sha1.c:162-221 | however a message is split into updates of less than 2^29 bytes, the digest is that of the whole |

## Left out

- The REPRs' own `serialize` and `deserialize`: a body is a given sequence of parts.
- Serialize.StableStep: which parts `serialize_stable` writes (HOW, WHAT, WHO, flags, specs, parameterization, name) is given as a sequence of parts, before the REPR's data, because their fields would only add easy members.
- Serializer.SerializationWriter.WriteStable: the same.
- HashOrder.OrderIsHidden: supposes a stable sort, which `qsort` does not promise; `HashOrder.DeterminedIff` supposes none.
- Interned parameterizations in the data (`add_param_intern`, `read_param_intern`) and the branch of a demand that finds one.
- Making closures and frames out of what their rows say (`deserialize_closure`, `deserialize_context`): a context's row may be entered again before its frame is there.
- `MVM_serialization_force_stable`, `demand_code`, the lazy HOW and the readers of other contexts.
- EndToEnd.SerializedIsRead: the numbers in the rows fit 32 bits, because `write_int32` cuts them off otherwise; the section of interned parameterizations is given.
- `MVM_sc_disclaim`: it resets headers without clearing the overflow flag.
- Codes in `ScRoots`: the root list of codes is searched like the others and is never repossessed.
- Use tracking of named arguments, and the interning of callsites.
- The short-needle helpers of `memmem.c`, base64, big-endian builds.
- Garbage collection, allocation failure, write barriers and object flags.
- Buffers.WriteBuffer.WriteInt: asks for room after one doubling, because the code does no more and overruns otherwise; exactly when that suffices is `Buffers.DoublingOnceSuffices` and `Buffers.WritesFitIff`.
- Serializer.SerializationWriter.WriteReference: appends to a sequence without a limit; what the limit does is said in `Buffers`.
- Packing.PlaceRoundTrip: indices of 2^31 or more are treated as errors, where the code would cut them off.
- DemandRuns.HandedOverComplete: assumes, as the code's order of work does, that stubbing an STable demands only STables.
- FreeList.SafepointFreesAll: no push is in flight at a safepoint, which is what stopping the world means.
- Sha1Contexts.Sha1Context.Finish: the wiping of the context afterwards is not modelled.
- Sha1Contexts.HashParts: for messages of 2^61 bytes and more, which FIPS 180-4 does not define, the length is taken modulo 2^64 in both.
