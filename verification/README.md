# Verified model of Adiak

Adiak records name/value metadata of a job. This project models, in Dafny, its three hard parts and
proves what they promise.

* **The dynamic type system** (`src/adiak.c`): the recursive parser of printf-style type strings, the
  two-pass printer, the packed layout, the deep copy, the zero-copy accessor and the recursive free.
  A type descriptor is a datatype; the C heap is a value with block names that are never reused, so
  that a double free or a read after free violates a precondition. Descriptors and copied values own
  blocks with consecutive names, in the order in which the code allocates them.
* **The C++ builder** (`include/adiak_internal.hpp`, `include/adiak.hpp`): a second producer of the same type
  and value trees, `adiak::value`.
* **The name/value store** (`src/adiak.c`): a hash index and a list over the same nodes, the tool list
  with its callbacks, and the ownership of every block they use, as classes that are updated in place.
  `StoreRuns.Run` ties the three together: it makes any sequence of calls of `adiak_namevalue`,
  `adiak::value` and `adiak_register` on one store, and index, dispatch, ownership and read-back are proved
  of the store that it returns.
* **The MPI host election and host list** (`src/adksys_mpi.c`): two state machines over all ranks, in
  which the collectives of MPI are the steps. Ordering by key in a split is that of section 6.4.2 of
  MPI 3.1.

Where the code does not do what one would expect, the model keeps the code and the exact condition is proved:

* The short form of a range has no `>`. Any type with a range in it therefore prints to a string that the
  parser rejects, and the parser loses one node on the way (`RangesAreRejected`).
* A tuple that is a component of a tuple, but not the last one, is parsed again from the same place.
  `RoundTripExactly` says exactly which types survive printing and parsing, `EarlyTupleIsParsedAgain`
  names one that does not, and `TuplesLastCover` gives the simple sufficient condition. A type string that
  writes every `&` and every length gives back exactly its type, ranges included, under the same condition on
  its tuples (`FullRoundTrip`).
* The header says that `adiak_clean` frees all heap memory. What it leaves behind is counted by the calls
  alone (`StoreLeftOver.LeftBy`): a call that returns -1 leaves what the parser has lost, `[%d` its node for
  example, and the copy of a `struct timeval`; a control event leaves its value and its type, which nobody
  keeps; and a type with empty tuples leaves their zero-length arrays, because `free_adiak_type` frees the
  subtype array only if there are subtypes. `RunAndClean` says that after any calls and a clean exactly so
  many blocks are live beside the caller's own, and none if and only if no call has left any. A type string in
  which every bracket has its own closer leaves none unless a count is zero (`BracketedCallLeavesNothing`).
* `toplevel_type` does not look at a length after `%lu` and `%llu`, the parser does. Such a value is
  stored in one member of the union and read from another (`ScanAgrees`). On the platform of the model that is
  the same number for a length of 64 (`SixtyFourReadsRight`), and for a shorter one if and only if it fits in
  four bytes: `%lu32` with 4294967296 reads as 0 (`ReadsAsMeant`, `ThirtyTwoReadsWrong`).
* Unsigned numbers of one or two bytes in a container are read through signed types, so that the documented
  cast to `unsigned int` gives 4294967240 for the byte 200 (`TwoHundredReadsWrong`). A value reads, with the
  documented casts, as what its image holds if and only if no such number has its top bit set
  (`ReadsAsStored`); with a number that is an argument of its own the cast is right.
* Tuples are read packed, while the header's example passes an array of structs. The two layouts are the
  same if and only if no tuple needs padding (`PackedExactly`); the example `[(%d, %s)]` with
  `struct { int pos; const char *val; }` does (`HeaderExampleNeedsPadding`).
* Sibling C++ containers share one descriptor whose count is overwritten. A release by the type fits the value
  exactly if siblings have equal lengths, and a reader sees the original exactly if, besides, no string has a
  terminator inside, where `strdup` cuts it, and no date needs the top bit (`CppValue.ValueOf`, `NulCuts`).
* The host election terminates exactly if each two different host names get different colors in some
  round (`TerminatesExactly`). There are names for which that never happens, `bbcbbbbbbccccbbcbbbbbbbc`
  and `bbbcbbccbbbbbcbbcbccbbbb` for example: their salted hashes are equal in every round
  (`TwoNamesOneColor`), so that a job on two hosts of these names never leaves the loop (`SomeJobsNeverEnd`). Jobs on numbered hosts do:
  names with one prefix and equally many digits, at most six, are separated by the rounds 0 and 128
  (`NumberedHostsEnd`), and so are names of which any two differ in the last character only.

## Layout

| file | contents |
|---|---|
| `AdiakTypes.dfy`, `CHeap.dfy` | descriptors, their invariants, the heap, `free_adiak_type` |
| `TypeStrings.dfy`, `Specifiers.dfy`, `QuickScan.dfy`, `ParseLoss.dfy` | parser, the dictionary of its specifiers, the quick scan, what a failing parse loses |
| `TypePrinter.dfy`, `RoundTrip.dfy`, `FullTexts.dfy`, `LongTexts.dfy` | printer, printing and parsing, type strings with every `&` and length, reading the long form |
| `Layout.dfy`, `StructLayout.dfy`, `Views.dfy`, `Readings.dfy`, `DeepCopy.dfy`, `Images.dfy` | packed images and C structs, the accessor, the documented casts, the deep copy and its release, images from the side of the program that writes them |
| `CppBuilder.dfy`, `CppValue.dfy` | the C++ templates, and `adiak::value` up to the registration |
| `Records.dfy`, `Dispatch.dfy`, `Ledger.dfy` | what a store holds, who is called, who owns what, said of sequences of operations |
| `Store.dfy`, `NameValue.dfy` | the store in place, and `adiak_namevalue` up to the registration |
| `StoreRuns.dfy`, `StoreHistory.dfy`, `StoreReadBack.dfy`, `StoreLeftOver.dfy` | whole runs of the store: the calls, index and dispatch and ledger, what is read back, what is left behind |
| `HostHash.dfy`, `MpiElection.dfy`, `ElectionInvariant.dfy`, `ElectionRuns.dfy`, `HostSeparation.dfy`, `ElectionSync.dfy` | the election: hash, protocol, invariant, whole runs, jobs that the hash separates, synchronizing releases |
| `MpiHostList.dfy`, `HostListSync.dfy`, `HostListCache.dfy` | the host list, with local and with synchronizing releases, and its cache |

Specification functions (the text of a type, the parse of a string, the meaning of an image) are
executable functions without the loops and writes of the code; each imperative method is proved
equal to one of them, and the properties are lemmas about them.

## Model

| member | source | states |
|---|---|---|
| AdiakTypes.GetBaseType | src/adiak.c:607-647 | there is a static descriptor exactly for the scalar tags, it has the tag asked for and the size of the C type without a length, and is never a reference |
| TypeStrings.EndBraceIsFirst | src/adiak.c:535-552 | a position is the end brace exactly if it is the first in the window where the braces balance and the closer stands |
| TypeStrings.FindEndBrace | src/adiak.c:535-552 | the loop finds that position, or says that there is none |
| TypeStrings.ParseTypestrHelper | src/adiak.c:858-1041 | for every window and every argument list: same result, same number of arguments consumed and same resume position as the parse specification; on success exactly the blocks of the descriptor are allocated, on failure exactly as many blocks are lost as specified |
| TypeStrings.ParseContainer | src/adiak.c:879-938 | the same for a braced type, with the cleanup of the error path |
| TypeStrings.ParseTupleComponents | src/adiak.c:919-938 | the same for the components of a tuple, each of which resumes where the previous one says |
| TypeStrings.ParseTypestr | src/adiak.c:554-561 | parsing a whole string gives up, or returns the node of a blank string, or a well-formed type |
| TypeStrings.ParseIsSound | src/adiak.c:858-1041 | parser soundness in any window: element counts on the side of the reference flag, as many subtypes as a tuple has elements, the category of the tag, nothing copied below a reference |
| TypeStrings.ScalarStaysInside | src/adiak.c:939-1033 | a scalar that parses inside a window ends inside it, so that a child stays within its closing brace |
| Specifiers.ScalarExactly | include/adiak.h:70-97 | after a % the parser takes exactly the specifiers of a dictionary, each for the type, category and size that the header gives it, and resumes where they end; a length is taken only if it is 8, 16, 32 or 64, and every other text is rejected |
| TypePrinter.TypeStringHelper | src/adiak.c:1613-1715 | in both passes and both forms the helper returns the length of the specified text; the writing pass leaves that text, not truncated, and nothing else in the buffer |
| TypePrinter.TypeToString | src/adiak.c:1717-1735 | the size found by the first pass is the size written by the second, and the result is the text of the type |
| RoundTrip.EndBraceOfText | src/adiak.c:535-552 | brace matching: wherever the short text of a range-free container stands and whatever follows, its opening brace is matched with its own end |
| RoundTrip.RangesAreRejected | src/adiak.c:1667-1670 | a type with a range anywhere in it prints to a string that the parser rejects with any arguments, losing one node |
| RoundTrip.ParseOfText | src/adiak.c:858-1041 | what the parser makes of the text of a range-free type standing anywhere, for any arguments, said in terms of the type alone |
| RoundTrip.RoundTripExactly | src/adiak.c:1613-1735 | print/parse round trip: parsing the short text with the preorder counts gives back the type, with default widths and no references, if and only if it has no range and covers itself |
| RoundTrip.TuplesLastCover | src/adiak.c:919-938 | every type whose tuples have no tuple before the last component covers itself |
| RoundTrip.EarlyTupleIsParsedAgain | src/adiak.c:919-938 | a concrete type without ranges that does not survive, whatever arguments follow its counts |
| FullTexts.FullRoundTrip | src/adiak.c:858-1041 | a text that writes & before each node at which a reference starts and the length of each number, for any well-formed type, ranges included: parsing it with the counts gives back exactly the type, with its references, the side of its counts and the size of its numbers, if and only if the type can be written; then no argument is read but the counts and nothing is lost |
| FullTexts.SpecifierReads | src/adiak.c:939-1033 | the documented specifier with its length, wherever it stands, reads as exactly the static descriptor |
| FullTexts.TuplesLastWrite | src/adiak.c:919-938 | every type whose tuples have no tuple before the last component can be written |
| LongTexts.LongReadsBack | src/adiak.c:1613-1715 | a reader of the documented words, which knows nothing of the printer, finds the tags of the type in its long text and stops at its end, wherever the text stands before a comma or a closer |
| LongTexts.LongIsUnambiguous | src/adiak.c:1717-1735 | two types with one long text have the same tags at every level |
| QuickScan.ToplevelType | src/adiak.c:563-605 | the scan returns the tag at the first character that is not skipped |
| QuickScan.ScanAgrees | src/adiak.c:563-605 | whenever the scan finds a type and the parse succeeds, they agree on the tag if and only if the string is not %lu or %llu with a length |
| Layout.CalcSize | src/adiak.c:722-759 | calc_size returns the sum of the packed sizes of the components |
| Layout.LeavesTile | src/adiak.c:722-759 | the leaves of a type tile its packed image without gap or overlap, in order |
| Layout.OffsetIsMultiple | src/adiak.c:373-390 | element times size, as the accessor computes it, is the sum of the sizes before, as the copy computes it |
| Layout.OffsetWithin | src/adiak.c:373-390 | no component leaves the image of its container |
| Views.GetSubval | src/adiak.c:349-446 | the accessor succeeds exactly for an element in range, and then returns its type and its value in either representation; otherwise NULL |
| Views.ReferenceWalk | src/adiak.c:349-446 | zero copy: walking a reference to a packed image shows exactly what the image means, for every well-formed type |
| Views.DecodeIsLocal | src/adiak.c:722-759 | the meaning of an image depends only on the bytes inside its size: no leaf read leaves it |
| Readings.ReadsAsStored | src/adiak.c:400-413 | for every well-formed type and image: the number that a reader gets with the documented casts is the number in the image if and only if no unsigned leaf of one or two bytes has its top bit set |
| Readings.TwoHundredReadsWrong | include/adiak.h:309-310 | the byte 200 in a list of %u8 reads as 4294967240 |
| Images.DigitsReadBack | src/adiak.c:400-418 | the bytes read as a number if and only if they are its digits in base 256, lowest first |
| Images.IntegerReads | src/adiak.c:400-418 | the bytes are what an integer variable of the type holds for a value, by its digits or those of its two's complement, if and only if the readers find that value |
| Images.HoldsWhatWasWritten | src/adiak.c:349-446 | the bytes at an address are the image of a value, built from the digits of its numbers and pointers, the components one after the other, if and only if the content that the readers' properties speak of is that value |
| Images.NumberHandedOut | include/adiak.h:214-238 | the accessor hands out a number of an image in the documented member: a signed one as it was written, an unsigned one by the documented cast unless it has one or two bytes and is in the upper half of its range |
| Images.ReferenceShowsWhatWasWritten | src/adiak.c:349-446 | zero copy: a reader of a reference who casts as documented sees the value that was written if and only if it has no such number in it |
| StructLayout.PackedExactly | include/adiak.h:312-313 | the packed offsets and sizes are those of the C object, at every level, if and only if each component of each tuple is aligned where it is and each tuple's size is a multiple of its alignment |
| StructLayout.HeaderExampleNeedsPadding | include/adiak.h:312-313 | the struct of the example has its string at 8, the library reads it at 4 |
| DeepCopy.CopyValue | src/adiak.c:761-837 | the deep copy consumes exactly calc_size bytes, owns exactly the new blocks, and walks to the meaning of the image, with any legal placement of references |
| DeepCopy.CopyContainer | src/adiak.c:815-834 | the same for the loop over the elements |
| DeepCopy.SpanOfPlaced | src/adiak.c:672-715 | how many blocks a copied value has is said by its type alone |
| Images.CopyShowsWhatWasWritten | src/adiak.c:761-837 | the same of a deep copy |
| DeepCopy.StoreContainer | src/adiak.c:235-240 | a stored container, copied or referenced, walks to what the image meant |
| DeepCopy.StoreTwice | include/adiak_tool.h:158-165 | zero copy refines deep copy: the same data stored under two types that differ only in what they take by reference cannot be told apart by a reader |
| DeepCopy.FreeValueWorker | src/adiak.c:672-715 | frees every block that the copy allocated, each once, and nothing that is referenced |
| DeepCopy.FreeValue | src/adiak.c:717-720 | and the cell of the value |
| CHeap.FreeType | src/adiak.c:657-670 | frees every block of a descriptor once, except the lost ones; static descriptors are left alone |
| CHeap.LostIsEmptyTuples | src/adiak.c:666-667 | one block is lost for each empty tuple in the descriptor |
| CppBuilder.MakeValue | include/adiak_internal.hpp:210-221 | the value has an array for each container, in iteration order, with numbers converted to the signed members and strings up to their terminators; its blocks are the new ones in the order of their allocation; the shared descriptor ends with the counts of the last container built |
| CppBuilder.NulCuts | include/adiak_internal.hpp:92-95 | a string with a terminator inside is stored as what stands before it |
| CppBuilder.SetTuple | include/adiak_internal.hpp:281-302 | the elements of a tuple are set in ascending order, each with its own subtype |
| CppBuilder.PlacedIfFits | src/adiak.c:699-712 | a release by the type fits the value, block by block, if and only if the counts in the descriptor are those of the object at every place |
| CppBuilder.ReadOfBuilt | include/adiak_internal.hpp:191-222 | what was built reads as the object, with the documented casts, if and only if the counts in the descriptor are those of the object and the object can be represented |
| CppValue.NewType | include/adiak_internal.hpp:174-208 | the type of a C++ type, with a block for each node and each array, a tuple's elements from the last to the first |
| CppValue.ValueOf | include/adiak.hpp:163-196 | type and value can be handed over if and only if sibling containers have equal lengths; a reader who casts as documented sees the original elements in iteration order if and only if, besides, the object can be represented |
| CppValue.ValueAndRelease | src/adiak.c:657-720 | then the release of value and type leaves nothing but the arrays of empty tuples |
| NameValue.CopyArgument | src/adiak.c:233-240 | a string or container is copied or referenced as the type says; a reader who sees only the new blocks and what the argument leads to finds the whole of it |
| NameValue.Prepare | src/adiak.c:170-242 | scan, fetch, parse and copy together: it fails exactly if the scan or the parse does, and then leaves exactly so many blocks behind as the type string says; otherwise type and value own exactly the new blocks, and a walk finds what was fetched, cut to the member of the union that the type is read from |
| NameValue.FormIsSound | src/adiak.c:563-605 | what scan and parser make of any type string: a well-formed type of a tag that the scan found, or the few pairs of integer tags that they disagree about |
| NameValue.ReadsAsMeant | include/adiak.h:219-249 | a reader who casts as documented sees what the caller meant if and only if no %lu or %llu with a length has a number that needs more than its four bytes, and no unsigned number of one or two bytes in a container has its top bit set |
| Images.MeansWhatWasWritten | include/adiak.h:298-299 | what the caller of adiak_namevalue is said to mean by a container is the value that was written to its memory |
| NameValue.SixtyFourReadsRight | src/adiak.c:563-605 | %lu64 is stored in v_long and read from v_longlong, and that is right for every number |
| NameValue.ThirtyTwoReadsWrong | src/adiak.c:563-605 | %lu32 with 4294967296 reads as 0 |
| StoreRuns.Namevalue | src/adiak.c:170-243 | the whole call on a store: its result, and the new entries, calls of tools, ledger and heap, for a failing call, a control event and a registration |
| StoreRuns.CppNamevalue | include/adiak.hpp:163-196 | the same for adiak::value and an object whose siblings have equal lengths |
| StoreRuns.Run | src/adiak.c:134-243 | any sequence of adiak_register, adiak_namevalue and adiak::value calls on a new store: each makes its step, and the results are those of the type strings |
| StoreRuns.CallKeepsUsers | src/adiak.c:657-720 | no call frees, takes or changes a block of the caller's |
| StoreHistory.IndexOverRuns | src/adiak.c:1071-1126 | after any run names are unique in the store, lookup finds the latest value under a name, and listing visits each name of the category once, in reverse order of first registration |
| StoreHistory.NoToolRegistersTwice | src/adiak.c:507-533 | in any run each registered tool is a new one: its block is new while those of the listed tools are live |
| StoreHistory.DispatchOverRuns | src/adiak.c:134-168 | the log of the store after any run: a tool has heard exactly the events after its registration that it wants, once each and in order |
| StoreHistory.HeardOverRuns | include/adiak_tool.h:78-95 | the same without the filter of the code: a tool registered for category 1 has heard of each value given after its registration, one for another category of exactly those of that category, in order, on its own callback with the name, value and type of that call; nothing on a rank that is not reportable unless it asked for all ranks |
| StoreHistory.ListingOverRuns | src/adiak.c:288-298 | after any run a listing for category 1 gives every entry of the store, and one for another category exactly the entries with that category, in order |
| StoreHistory.NewestFirstOverRuns | src/adiak.c:148-166 | in what a call adds to the log of the store, of two tools that want its event the one that registered later is called earlier |
| StoreHistory.LedgerOverRuns | src/adiak.c:1043-1173 | any run of the store is a run of the ledger |
| StoreReadBack.ReadBackOverRuns | src/adiak.c:312-327 | after any run the entry under a name is that of the last call that registers one, and its value still reads, out of the heap as it is now, as its caller meant it if and only if the call has not distorted it, in one of the ways that ReadsAsMeant and ValueOf name |
| StoreReadBack.RunAndGet | src/adiak.c:312-327 | adiak_get_nameval on the store that has made the calls finds something exactly if one of them has registered a value under the name, and then the value of the last such call, which reads as said |
| StoreLeftOver.SomeCallsLeaveBlocks | include/adiak.h:463-468 | a set without its bracket and a control event leave a block behind |
| ParseLoss.BracketedLosesNothing | src/adiak.c:858-1041 | if every bracket of a type string has its own closer and no count that is read is zero, the parse loses nothing, whether it fails or not |
| StoreLeftOver.BracketedCallLeavesNothing | include/adiak.h:463-468 | an event with such a type string that is not control leaves nothing behind |
| StoreLeftOver.RunBalances | src/adiak.c:134-243 | at any time the blocks that nobody owns and those that the entries will lose are together as many as the calls so far leave behind |
| StoreLeftOver.HeapAfterClean | include/adiak.h:463-468 | after any run and a clean the caller's blocks are there with their content, and beside them exactly as many as the calls leave behind; the heap is the caller's own again if and only if no call leaves any |
| StoreLeftOver.RunAndClean | src/adiak.c:1135-1173 | the same of adiak_clean on the store that has made the calls |
| Records.StoreIsLatest | src/adiak.c:1071-1126 | index refinement, said of lists of registrations: names are unique and lookup finds the latest registration under a name |
| Records.StoreOrder | src/adiak.c:1083-1123 | an overwrite keeps its place: entries stand in reverse order of first registration |
| Records.ListingIsExpected | src/adiak.c:288-298 | listing visits each name of the category exactly once, with its latest value, in reverse order of first registration |
| Records.ListingAll | src/adiak.c:288-298 | listing category 1 gives the whole list |
| Records.ListingOne | src/adiak.c:288-298 | listing another category gives the entries at exactly the places where that category stands |
| Records.FirstNamesUnique | src/adiak.c:1071-1126 | the names so listed are all the names ever registered, none twice |
| Dispatch.ToolHears | src/adiak.c:134-168 | dispatch trace: a tool hears exactly the events raised after its registration that it wants, once each and in order |
| Dispatch.NeverRegistered | src/adiak.c:134-168 | nothing is sent to what is not registered |
| Dispatch.CalledInOrder | src/adiak.c:148-166 | the calls for one event are made in the order of the tool list |
| Dispatch.NewestFirst | src/adiak.c:148-166 | of two tools that want an event, the one that registered later is called earlier |
| Ledger.AddsKeeps | src/adiak.c:1091-1123 | a new record owns exactly its blocks, every other owner keeps its own |
| Ledger.ReplacesKeeps | src/adiak.c:1095-1117 | an overwrite releases exactly the old value, type, subcategory and info, and takes the new ones |
| Ledger.CleanLeavesOnlyLeaks | include/adiak.h:463-468 | ownership over whole runs: after a clean every live block is the caller's, or was abandoned by a call, or is the zero-length array of an empty tuple in a type that was handed over, and all of these are still live |
| Store.StrHashDjb2 | src/adiak.c:1043-1049 | the loop computes the hash of the index, a base-33 number modulo 2 to the power of 64 |
| Store.HashInClosedForm | src/adiak.c:1043-1049 | which is 5381 times 33 to the length plus the characters weighted by powers of 33, wrapped |
| Store.ChainHasBucket | src/adiak.c:1060-1064 | following the chain of a bucket finds every record of that bucket, each once |
| Store.ListHasAll | src/adiak.c:292-296 | following the list finds every record, each once |
| Store.StoredNamesUnique | src/adiak.c:1082-1087 | no two records have one name |
| Store.Adiak.EachRecordOnce | src/adiak.c:1060-1123 | list and index hold the same records, each once |
| Store.Adiak.FindRecordByName | src/adiak.c:1056-1069 | the chain leads to the one record with the name, or there is none |
| Store.Adiak.RecordNameval | src/adiak.c:1071-1126 | an upsert of the entry and a registration in the ledger; index, list and heap stay consistent |
| Store.Adiak.RawNamevalue | src/adiak.c:134-168 | every event that is not control is recorded, and the tools get exactly the specified calls |
| Store.Adiak.Notify | src/adiak.c:148-166 | the loop over the tools makes the specified calls |
| Store.Adiak.GetNameval | src/adiak.c:312-327 | returns what lookup by name finds |
| Store.Adiak.ListNamevals | src/adiak.c:288-298 | calls back for the entries of the category in list order |
| Store.Adiak.Register | src/adiak.c:507-533 | the tool comes first, doubly linked, and owns its block |
| Store.Adiak.Clean | src/adiak.c:1135-1173 | the tools are told, then everything the store owns is freed, each block once; tool_list is NULL afterwards |
| HostHash.ColorOfHost | src/adksys_mpi.c:20-29 | the loop computes 5381 times 33 to the length plus the salted, weighted characters, wrapped to 32 bits and made positive |
| HostHash.HashInClosedForm | src/adksys_mpi.c:20-29 | before the sign is dropped it is 5381 times 33 to the length plus the salted characters weighted by powers of 33, as a signed 32-bit number |
| HostHash.SameColorExactly | src/adksys_mpi.c:20-29 | two names have one color in a round if and only if their closed forms are congruent or opposite modulo 2 to the power of 32 |
| HostHash.XorIsBitwise | src/adksys_mpi.c:20-29 | the salt of a character is the exclusive or of the bits |
| HostHash.TwoNamesOneColor | src/adksys_mpi.c:20-29 | there are two different names with one color in every round |
| ElectionInvariant.SplitKeeps | src/adksys_mpi.c:43-51 | the split keeps the invariant: a communicator holds exactly the ranks whose names lead to it |
| ElectionInvariant.BcastKeeps | src/adksys_mpi.c:58-66 | so does the broadcast of the name of the lowest rank |
| ElectionInvariant.ReduceTellsNames | src/adksys_mpi.c:68-77 | the reduction says whether all names in the communicator are equal |
| ElectionInvariant.ReduceKeeps | src/adksys_mpi.c:68-81 | all members leave the loop, or all go round again |
| ElectionInvariant.FreeOldKeeps | src/adksys_mpi.c:53-56 | the release of the old communicator completes the account of one more round |
| ElectionInvariant.ReturnKeeps | src/adksys_mpi.c:83-93 | the code after the loop releases the last communicator and reports the lowest rank |
| ElectionRuns.ElectionSafety | src/adksys_mpi.c:43-93 | whatever collisions: a rank that has returned was last with exactly the ranks of its host name, and is told 1 if and only if it is the lowest of them |
| ElectionRuns.OneRankPerHost | src/adksys_mpi.c:31-93 | once all have returned every host name has exactly one elected rank |
| ElectionRuns.CollectivesMatch | src/adksys_mpi.c:43-81 | with local releases: members of one communicator issue the same split, broadcast or reduction next |
| ElectionRuns.SameCalls | src/adksys_mpi.c:43-81 | and have issued the same sequence of these so far |
| ElectionRuns.SomeStepIsPossible | src/adksys_mpi.c:43-93 | no deadlock: until all ranks have returned some step is possible |
| ElectionRuns.FirstUniformRound | src/adksys_mpi.c:75-77 | a rank leaves in the first round whose communicator holds only its own name |
| ElectionRuns.RoundsBounded | src/adksys_mpi.c:43-81 | if the colors of rounds 0 to K separate all names, no rank makes more than K + 1 rounds |
| ElectionRuns.ElectionTerminates | src/adksys_mpi.c:43-81 | and then every run is shorter than an explicit bound |
| ElectionRuns.TerminatesExactly | src/adksys_mpi.c:43-81 | runs are bounded if and only if some number of rounds separates all names |
| ElectionRuns.SomeJobsNeverEnd | src/adksys_mpi.c:20-29 | with the hash in use there is a job of two hosts in which no rank ever returns |
| HostSeparation.DifferentColors | src/adksys_mpi.c:20-29 | names of one length that the unsalted sums tell apart have different colors in round 0 or in round 128 |
| HostSeparation.ToldApartEnds | src/adksys_mpi.c:43-81 | with the hash in use a job whose names are told apart is separated by round 128, and each of its runs has at most 646 steps a rank |
| HostSeparation.NumberedHostsEnd | src/adksys_mpi.c:43-81 | the same of a job on numbered hosts, one prefix and equally many digits, at most six |
| HostSeparation.LastCharacterTellsApart | src/adksys_mpi.c:20-29 | names that differ only in their last character are told apart |
| ElectionRuns.NoEarlyRelease | src/adksys_mpi.c:53-56 | no communicator is released twice, before its last use, by a rank outside it, and never the base communicator |
| ElectionRuns.AllReleasedOnce | src/adksys_mpi.c:86-89 | once a rank has returned it has released every communicator that a split put it in exactly once |
| ElectionSync.SyncRunIsRun | src/adksys_mpi.c:53-89 | with releases that are collectives too: whatever state is reached, a run with local releases reaches it in no fewer steps, so that safety and bounds carry over |
| ElectionSync.SyncCallsMatch | src/adksys_mpi.c:43-89 | all members of the communicator of a rank's next call, be it split, broadcast, reduction or release, are at that call |
| ElectionSync.SameSyncCalls | src/adksys_mpi.c:43-89 | ranks in one communicator have made the same calls, releases included, in the same order |
| ElectionSync.SyncCallIsPossible | src/adksys_mpi.c:43-89 | no deadlock with synchronizing releases: the next call of any rank can take effect at once |
| ElectionSync.SyncTerminates | src/adksys_mpi.c:43-89 | and the bound on runs holds as well |
| MpiHostList.BufferString | src/adksys_mpi.c:106-111 | the name buffer starts with the short host name and a terminator, whatever remains after the dot |
| MpiHostList.EntryIs | src/adksys_mpi.c:122-128 | an entry of the gathered list, read as a C string, is the host name of its rank |
| MpiHostList.LongestIsMax | src/adksys_mpi.c:119-121 | the reduced length is that of some elected name, and none is longer |
| MpiHostList.ElectedCover | src/adksys_mpi.c:119-128 | the elected ranks ascend, have different names and between them all names |
| MpiHostList.ListIsRight | src/adksys_mpi.c:119-128 | the list has one entry for each host name, none twice, ordered by lowest rank |
| MpiHostList.ListsAgree | src/adksys_mpi.c:133-138 | every rank that is done has the same count, entry length and list, and has released its group once |
| MpiHostList.SomeStepIsPossible | src/adksys_mpi.c:119-138 | no deadlock, and the root of the gather is always the one rank that has made room |
| MpiHostList.RunEnds | src/adksys_mpi.c:96-141 | every run is short |
| HostListSync.SyncRunIsRun | src/adksys_mpi.c:119-138 | with a release that is a collective too: whatever state is reached, a run with local releases reaches it in no fewer steps |
| HostListSync.SyncCallsMatch | src/adksys_mpi.c:119-138 | the members of a group are at the same call, and ranks whose next calls are on the communicator of all ranks are at the same one |
| HostListSync.SameCalls | src/adksys_mpi.c:119-138 | the members of a group have made the same calls in the same order, releases included, and all ranks the same ones on the communicator of all ranks |
| HostListSync.SyncStepIsPossible | src/adksys_mpi.c:119-138 | no deadlock with synchronizing releases |
| HostListSync.SyncRunEnds | src/adksys_mpi.c:96-141 | and every run is short |
| MpiHostList.HostListAgreement | src/adksys_mpi.c:96-141 | election and list together, whatever the hash: all ranks get one and the same correct host list |
| HostListCache.Cache.HostList | src/adksys_mpi.c:143-180 | the first success is kept and returned ever after, an error is final |
| HostListCache.PointersFindNames | src/adksys_mpi.c:164-166 | the pointers into the list find the host names |

## Left out

- System queries and their wrappers, the MPI version strings, the Python bindings, launch day, cluster name, command line and the times: they would add only easy members.
- Negative or missing dimension arguments, va_list type confusion and sizes that overflow an int: the argument list is a sequence of naturals that reads 0 past its end.
- TypeStrings.ParseTypestrHelper: the va_list and the resume position are passed in and out, and the inline loops of the C function are methods of their own.
- Descriptors are values: the C++ builder's overwriting of a count in a shared descriptor is modelled by passing the descriptor in and out, and the parser's node is filled before it is used.
- DeepCopy.CopyValue: the contents of a copied array are carried by the value beside the name of its block; reading past such an array is an error of the model.
- Sizes are those of LP64; names and host names are ASCII; floats are opaque bytes with an abstract widening.
- HostHash.ColorOfHost: negation is that of the integers, so the one hash value that a 32-bit int cannot negate keeps a color that MPI would refuse.
- Failing MPI calls: collectives succeed, so get_unique_host never returns -1 in the model.
- Sharing of the configuration between versions of the library through dlsym: there is one configuration and one hash array.
- Store.Adiak.Notify: callbacks do not call back into the store, and the content of the info of a control event is not modelled.
- adiak_fini and adiak_flush: they raise one control event each, like the one that Store.Adiak.Clean raises.
- Store.Adiak.Clean: nothing can be registered or raised afterwards, because tool_list is NULL; calling it again is excluded as well.
- CppValue.ValueOf: the blocks of a tuple's subtypes are allocated from the last to the first, as in the code, but which of them belongs to which subtype is only a matter of names, and the names run the other way; a range is a sequence of two whose category stays unset.
- StoreRuns.Namevalue: null pointers as arguments are excluded.
- StoreRuns.CppNamevalue: an object whose siblings differ in length is excluded, because its release by the type goes past an array.
- StoreRuns.Run: adiak_raw_namevalue with a type and value of the caller's own making is proved as a single call, whose contract composes in the same way. The caller does not change or free its data during a run.
- Unions: a reader of a number finds it in any member of the union that shares its bytes; what bytes a shorter member leaves unset is never read.
- Readings.ReadsAsStored: a pointer is read where the type says; structs with padding are the subject of StructLayout.PackedExactly alone.
