# aCoral kernel and component models

aCoral is a small multi-core real-time kernel with a library of components. This project models the
parts of it whose correctness only a global argument explains, and proves those arguments in Dafny:

- **Message encoding** (`Varints`, `Messages`, `RoundTrip`, `EncodingLaws`, `DecodingLaws`,
  `DecodingMeaning`, `OutputStream`, `Encoder`, `InputStream`, `Decoder`, `Descriptors`, `FieldIterator`,
  `FieldSearch`): the nanopb encoder and decoder over schemas of static fields. `Messages` defines the wire format as
  pure functions in the terms of the Protocol Buffers Encoding guide; the stream classes and the loops refine it. The
  laws say independently what is sent and what is accepted, and `DecodingMeaning` what any byte string decodes to,
  field by field from the records of the stream.
- **The `vol` allocator** (`HeapBlocks`, `VolHeap`): next fit with headers in place. `HeapBlocks` is the
  list of blocks the headers stand for.
- **Synchronisation** (`CeilingProtocol`, `CeilingSystem`, `Semaphore`, `WaitQueue`): the distributed
  priority-ceiling protocol and counting semaphores, as step machines with classes that carry out each
  step in place.
- **Migration** (`Migration`, `MigrationSteps`, `MigrationProgress`, `MigrationLive`): self-migration of threads
  between cores, and the other commands, through the one-slot mailboxes, one shared-memory action at a time: what
  every step does and keeps, exactly when cores hang, and how jumps and commands can be used so that none does.
- **Task graphs** (`DagBuild`, `DagRun`, `DagPeriods`): the translation of a graph to threads, one period of it,
  and the restarts between periods.
- **Scheduling structures** (`CircularList`, `DeltaQueue`, `TickQueue`, `Bitmap`, `ReadyQueue`,
  `SlotPool`, `RingBuffer`): each a fast form of something simple, which it is proved to refine.
- **Admission control** (`ResponseTime`, `ScheduleMeaning`, `ScheduleAnalysis`): the response-time equations, their
  terms as sums over tasks, sections, slots and jobs, their monotonicity, and the fixed-point iterations.

Verify everything with `dafny verify dfyconfig.toml`.

## What the proofs found

Where the code does less than its comments say, the model follows the code, and a lemma gives the input
and the exact condition.

- The compile-time test of the four- and eight-word descriptors looks at the low byte of the size offset: an
  offset of 256 or more with a low byte below 128 passes and is read back wrong. An array size of 0 passes the
  test of the one-word format and is read back as 1. Nothing else is lost (`Descriptors.LostIff`).
- The semaphore compares its count through a signed byte. The comparison is right exactly under
  `Semaphore.ComparedIff`, and always in fair use of at most 129 resources by fewer than 127 threads
  (`Semaphore.FairUseCompared`); a semaphore created with 130 to 256 resources puts its first caller to sleep
  (`Semaphore.FirstCallerGrantedIff`, `Semaphore.FullSemaphoreBlocks`).
- The count is also a 16-bit word: a semaphore of more than 32769 resources starts with a wrong one, and a release at
  its lower end makes it positive (`Semaphore.CreateInv`, `Semaphore.StepKeepsIff`).
- A semaphore release that finds the head of the queue already woken, but not yet run, wakes nobody; a
  later waiter then sleeps beside an available resource (`Semaphore.LostWakeup`).
- A waiter of the ceiling protocol leaves its critical section before it goes to sleep; a release in
  between takes it off the queue without waking it, and it sleeps for good
  (`CeilingProtocol.ReleaseWakesIffAsleep`, `CeilingProtocol.LostReachable`, `CeilingProtocol.LostForever`).
- Lending a priority can make the holder less urgent (`CeilingProtocol.LendingLowersIff`,
  `CeilingProtocol.LoweredOnlySo`), and a nested request on the same system blocks its own holder
  (`CeilingProtocol.NestedRequestBlocks`).
- The commands between cores can deadlock in three ways. Two threads that jump to each other's cores can leave
  both handlers waiting for a move lock that only the other core's next switch would release
  (`MigrationProgress.CrossJumpsDeadlock`). Two cores that each send a second time before they have read their own
  mailbox can wait, with interrupts off, for each other's mailbox (`MigrationProgress.MailboxDeadlock`). And one
  jump is enough when an interrupt on its core sends two more commands to the target
  (`MigrationProgress.EntangledDeadlock`). Cores hang exactly when such waits close on themselves
  (`MigrationProgress.HangIff`), and there is no fourth way (`MigrationLive.ThreeKinds`). None hangs when jumps and
  commands only go up a ranking of the cores and no command is sent from the middle of a jump, or when one is
  sent at a time (`MigrationLive.AscendingNeverHangs`, `MigrationLive.OneAtATimeNeverHangs`).
- The count of global requests in the blocking term is a byte: with 256 or more, and something to block on,
  the term is too small (`ResponseTime.LatencyBExact`).
- A release finds the pool by the slot's own word, which in a free slot holds a link. The second release of a
  free slot is lost when the link names another pool, and closes the free list to a ring when it names this one
  (`SlotPool.SecondReleaseIff`, `SlotPool.LastSlotSpoils`).
- An allocation of -7 to -4 bytes returns a pointer into a block that stays free (`VolHeap.Allocator.VolMalloc`).
- The tick closes the latches of a task graph one thread at a time. A thread restarted before its predecessor
  can run on the latch of the period before (`DagPeriods.BreaksPrecedence`), unless no other core runs meanwhile
  (`DagPeriods.UndisturbedPrecedes`); the exact condition is `DagPeriods.PrecedenceAcrossPeriodsIff`. Threads are
  created, and so queued, in the reverse order of the user's table (`DagBuild.BuildNodes`).
- A task-graph node with more than 256 predecessors has pend slots that are never written
  (`DagBuild.Collect`); a cyclic graph never completes (`DagRun.EveryPeriodCompletesIff`).
- Reading zero bytes from the ring buffer takes one (`RingBuffer.Ring.GetMore`).
- The bitmap search reads one word behind an empty bitmap (`Bitmap.FindFirstBit`); the idle thread keeps
  that from happening (`ReadyQueue.Core.SelectThread`).

## Model

| member | source | states |
|---|---|---|
| Varints.VarintRoundTrip | components/acosim/src/pb_encode.c:606-622 | decoding the canonical form of any 64-bit value gives the value back and leaves whatever follows untouched |
| Varints.VarintMinimal | components/acosim/src/pb_decode.c:242-262 | on any input the reader takes at most ten bytes, and nothing it accepts for a value is shorter than what the encoder emits for it |
| Varints.Read64Bound | components/acosim/src/pb_decode.c:242-262 | no accepted varint exceeds 64 bits |
| Varints.Read32Agrees | components/acosim/src/pb_decode.c:170-232 | on every input, canonical or not, the 32-bit reader accepts only what the 64-bit reader accepts and returns its low word, and it accepts every value that is a 32-bit one, sign-extended or zero-padded |
| Varints.Read32Varint | components/acosim/src/pb_decode.c:170-232 | the 32-bit reader recovers every unsigned 32-bit value |
| Varints.Read32SignExtended | components/acosim/src/pb_decode.c:196-224 | the 32-bit reader recovers every negative 32-bit value from its ten-byte sign-extended form |
| Varints.ZigZagRoundTrip | components/acosim/src/pb_encode.c:624-634 | zigzag is undone for every integer, and maps the signed 64-bit values exactly onto the unsigned ones |
| Varints.VarintIs | components/acosim/src/pb_encode.c:606-622 | the canonical form is base 128, least significant group first, with no empty group at its end |
| Varints.Read64Is | components/acosim/src/pb_decode.c:242-262 | the 64-bit reader takes exactly the varints of at most ten bytes whose tenth byte is 0 or 1, padded or not; their value is that of their groups, and what follows is left |
| Varints.Read32Is | components/acosim/src/pb_decode.c:170-232 | the 32-bit reader takes exactly the varints whose fifth byte brings at most four bits or all seven of a sign extension, and whose later bytes, up to ten, are empty or all ones over a word with its top bit set; the value is the low word |
| Varints.OpenRefused | components/acosim/src/pb_decode.c:170-262 | bytes none of which ends a varint are refused by both readers |
| RoundTrip.MsgRoundTrip | components/acosim/src/pb_decode.c:989-1151 | for every schema with static fields and every message that fits it, decoding the encoded bytes over default storage succeeds and gives back every present value, with defaults for everything absent: nested messages, packed and unpacked arrays, omitted zero values |
| RoundTrip.NormFixesCleanMsg | components/acosim/src/pb_decode.c:868-948 | the decoded message equals the original if and only if no absent field holds a value |
| RoundTrip.EncodeSucceedsIffFits | components/acosim/src/pb_encode.c:417-533 | encoding fails exactly when some present count, string or byte array exceeds its space |
| RoundTrip.OlderReader | components/acosim/src/pb_decode.c:1028-1078 | a reader that knows only the first fields of the schema gets exactly those fields of a message written with the whole schema |
| RoundTrip.FieldSkipped | components/acosim/src/pb_decode.c:307-320 | the encoding of a field with an unknown tag is skipped exactly, leaving what was decoded before as it was |
| RoundTrip.FieldsRoundTrip | components/acosim/src/pb_encode.c:511-533 | decoding the encoding of the fields from any position on completes exactly those fields |
| RoundTrip.FieldRoundTrip | components/acosim/src/pb_decode.c:466-519 | the records of one field, wherever they stand in the stream, set exactly that field |
| RoundTrip.ValueRoundTrip | components/acosim/src/pb_decode.c:395-464 | each type of value is recovered from its encoding with the rest of the stream left over |
| RoundTrip.PackedRoundTrip | components/acosim/src/pb_decode.c:478-503 | a packed array is recovered element by element |
| RoundTrip.DefaultIsNorm | components/acosim/src/pb_encode.c:243-359 | a value that the encoder leaves out is one that the decoder puts back |
| EncodingLaws.SlotLeftOut | components/acosim/src/pb_encode.c:417-471 | a field adds nothing to a message if and only if it is a singular default, an absent optional or an empty array |
| EncodingLaws.ZeroLeftOut | components/acosim/src/pb_encode.c:280-294 | a singular number adds nothing if and only if it is zero |
| EncodingLaws.EmptyLeftOut | components/acosim/src/pb_encode.c:295-318 | singular bytes and strings add nothing if and only if they are empty |
| EncodingLaws.MessageLeftOut | components/acosim/src/pb_encode.c:319-347 | a singular submessage adds nothing if and only if each of its fields adds nothing, and then its own encoding is empty |
| EncodingLaws.SentWhen | components/acosim/src/pb_encode.c:417-471 | a required field is always sent, zero or not; an optional one exactly when its flag is set; an array exactly when it has elements |
| EncodingLaws.FreshSendsNothing | components/acosim/src/pb_encode.c:511-533 | a fresh message encodes to nothing when no field of it, however deep, is required or an array of fixed length, in particular one of singular numbers |
| EncodingLaws.KeyIs | components/acosim/src/pb_encode.c:674-713 | the key is eight times the tag plus 0 for varints, 1 for eight bytes, 2 for delimited contents, 5 for four bytes |
| EncodingLaws.IntegerIs | components/acosim/src/pb_encode.c:775-828 | booleans and integers are canonical varints, a negative one in the ten bytes of its 64-bit two's complement whatever its width, a zigzag one of its zigzag value |
| EncodingLaws.FixedIs | components/acosim/src/pb_encode.c:636-672 | byte i of a fixed-size number is the number divided by 256 to the i, modulo 256 |
| EncodingLaws.BytesAre | components/acosim/src/pb_encode.c:855-927 | strings and byte arrays are their length and their bytes, and are refused exactly when they exceed their space |
| EncodingLaws.SubmessageIs | components/acosim/src/pb_encode.c:723-771 | a submessage is the length and the encoding of its fields |
| EncodingLaws.SingleIs | components/acosim/src/pb_encode.c:361-404 | a single value that is not left out is its key and its value |
| EncodingLaws.ArrayIs | components/acosim/src/pb_encode.c:127-239 | an array of numbers is one delimited record of all elements when arrays are packed, any other array a record for each element in order; more elements than there is room for are refused |
| EncodingLaws.MessageIs | components/acosim/src/pb_encode.c:511-533 | a message is the encodings of its fields in the order of the schema |
| DecodingLaws.IntegerAccepted | components/acosim/src/pb_decode.c:1424-1494 | an integer field takes a varint of 64 bits if and only if what it means is a value of the field's type: unsigned below 2^(8n), zigzag and two's complement within half of it, the latter from the low 32 bits when the field is narrower than 8 bytes |
| DecodingLaws.IntegerTooLarge | components/acosim/src/pb_decode.c:1444-1445 | the canonical varint of every 64-bit number is taken exactly when it means a value of the type, and refused otherwise |
| DecodingLaws.BoolAccepted | components/acosim/src/pb_decode.c:1345-1353 | a boolean takes what the 32-bit reader takes, and is false for zero only |
| DecodingLaws.FixedAccepted | components/acosim/src/pb_decode.c:1369-1416 | four or eight bytes, least significant first, whenever that many are left |
| DecodingLaws.BytesAccepted | components/acosim/src/pb_decode.c:1496-1534 | a byte array is taken exactly when its length leaves room for the count and the input has all of it |
| DecodingLaws.FixedBytesAccepted | components/acosim/src/pb_decode.c:1638-1659 | a byte array of fixed size is taken in full, or with length zero as all zeros |
| DecodingLaws.StringAccepted | components/acosim/src/pb_decode.c:1536-1584 | a string is taken exactly when there is room for it and its terminator, and ends at its first zero |
| DecodingLaws.SubmessageAccepted | components/acosim/src/pb_decode.c:1586-1636 | a submessage is decoded from exactly its own bytes over what the field holds |
| DecodingLaws.OtherWireTypes | components/acosim/src/pb_decode.c:395-464 | a record whose wire type is not that of the field's type is refused |
| DecodingLaws.LastOneWins | components/acosim/src/pb_decode.c:466-476 | a single value takes the new one whatever it held, and sets its presence flag |
| DecodingLaws.ElementAppended | components/acosim/src/pb_decode.c:508-518 | an element on its own is appended exactly when there is room |
| DecodingLaws.PackedAppended | components/acosim/src/pb_decode.c:478-506 | packed elements are appended in order if all are whole and there is room for all, and refused if there is not |
| DecodingLaws.PackedRecord | components/acosim/src/pb_decode.c:478-506 | a packed record is a length and that many bytes of elements |
| DecodingLaws.MessageSound | components/acosim/src/pb_decode.c:989-1151 | for every well-formed schema and every byte string, over sound contents: each value of an accepted message is in the range of its type, each length and count within its space, and each array of fixed length full or untouched |
| DecodingLaws.AcceptedIsSound | components/acosim/src/pb_decode.c:1153-1190 | the same over default storage |
| DecodingMeaning.LoopIs | components/acosim/src/pb_decode.c:1028-1151 | from any point of the stream: the decoder gives every field the meaning of its own records, and fails if and only if some record is not whole, some field has no meaning, or one of the first 64 required fields is missing |
| DecodingMeaning.DecodeIs | components/acosim/src/pb_decode.c:989-1151 | so it does for every schema, every contents and every byte string |
| DecodingMeaning.FieldsAreIndependent | components/acosim/src/pb_decode.c:1028-1151 | an accepted stream is whole and holds a record of each of the first 64 required fields, and what a field becomes depends on the records of its own tag alone |
| DecodingMeaning.EarlierCount | components/acosim/src/pb_decode.c:1102-1106 | the index that the limit of 64 is applied to is the number of required fields before |
| DecodingMeaning.SkippedByType | components/acosim/src/pb_decode.c:307-320 | a record of an unknown tag is skipped by its wire type: eight bytes, four bytes, or a length and that many; any other wire type but that of a varint is refused |
| DecodingMeaning.VarintSkipped | components/acosim/src/pb_decode.c:265-274 | and a varint, of any length, to the byte that ends it |
| OutputStream.OStream.Write | components/acosim/src/pb_encode.c:83-104 | bytes are counted, and stored unless the stream only sizes, exactly when they fit; the other encoders promise the same of their encodings |
| OutputStream.OStream.EncodeVarint32 | components/acosim/src/pb_encode.c:572-604 | the two-half encoder emits the canonical base-128 form of the 64-bit value |
| OutputStream.OStream.EncodeVarint | components/acosim/src/pb_encode.c:606-622 | one byte for small values, the two-half encoder otherwise: always the canonical form |
| OutputStream.OStream.EncodeSvarint | components/acosim/src/pb_encode.c:624-634 | complement and shift give the zigzag form of every signed 64-bit value |
| OutputStream.OStream.EncodeFixed32 | components/acosim/src/pb_encode.c:636-651 | four bytes, least significant first |
| OutputStream.OStream.EncodeFixed64 | components/acosim/src/pb_encode.c:653-672 | eight bytes, least significant first |
| OutputStream.OStream.EncodeTag | components/acosim/src/pb_encode.c:674-678 | the key of a record |
| OutputStream.OStream.EncodeString | components/acosim/src/pb_encode.c:715-721 | length prefix and bytes |
| Encoder.EncodeArray | components/acosim/src/pb_encode.c:127-239 | packed and unpacked arrays, with the packed length computed before the elements are written |
| Encoder.EncodeBasicField | components/acosim/src/pb_encode.c:361-404 | key and value of one field |
| Encoder.EncodeFieldTo | components/acosim/src/pb_encode.c:417-471 | absent and defaulted fields write nothing; the others write their records |
| Encoder.EncodeMessage | components/acosim/src/pb_encode.c:511-533 | the whole message is written, counted, or refused, exactly as its encoding says |
| Encoder.EncodeSubmessage | components/acosim/src/pb_encode.c:723-771 | the sizing pass and the writing pass agree: the prefix is always the length of what follows, and the changed-size error cannot happen |
| Encoder.GetEncodedSize | components/acosim/src/pb_encode.c:556-565 | the size is the number of bytes a later pass writes, and exists exactly when the message fits |
| InputStream.IStream.Read | components/acosim/src/pb_decode.c:81-120 | a read takes exactly the bytes asked for, or fails |
| InputStream.IStream.DecodeVarint | components/acosim/src/pb_decode.c:242-262 | the byte loop refines the pure reader |
| InputStream.IStream.DecodeVarint32Eof | components/acosim/src/pb_decode.c:170-232 | the byte loop with its overflow test refines the pure 32-bit reader, and end of stream is reported only before the first byte |
| InputStream.IStream.DecodeFixed32 | components/acosim/src/pb_decode.c:1369-1389 | four bytes, least significant first |
| InputStream.IStream.SkipFieldBytes | components/acosim/src/pb_decode.c:307-320 | each wire type is skipped by its own length |
| InputStream.IStream.MakeStringSubstream | components/acosim/src/pb_decode.c:361-373 | the substream is exactly the next length-delimited record |
| InputStream.IStream.CloseStringSubstream | components/acosim/src/pb_decode.c:376-390 | the outer stream goes on right after the record, whatever was left unread in it |
| Decoder.DecodeBasicField | components/acosim/src/pb_decode.c:395-464 | the dispatch on type and wire type refines the pure decoder |
| Decoder.DecodeSubmessage | components/acosim/src/pb_decode.c:1586-1636 | a submessage is decoded from its own substream over what the field already holds |
| Decoder.DecodePackedArray | components/acosim/src/pb_decode.c:478-503 | elements are appended until the record ends or the array is full |
| Decoder.DecodeStaticField | components/acosim/src/pb_decode.c:466-519 | singular, optional, packed and unpacked fields |
| Decoder.DecodeInner | components/acosim/src/pb_decode.c:989-1151 | the record loop with its required-field and fixed-count checks returns exactly the message, or fails exactly when the pure decoder does |
| Decoder.Decode | components/acosim/src/pb_decode.c:1153-1190 | decoding over default storage |
| Descriptors.UnpackPack | components/acosim/include/pb.h:756-805 | loading undoes packing if and only if a one-word descriptor has array size 1 and a four- or eight-word one has a size offset below 128; the compile-time conditions do not ensure the second |
| Descriptors.LostIff | components/acosim/include/pb.h:780-805 | of what passes the compile-time conditions, exactly the wide descriptors with a size offset of 256 or more and the one-word ones with array size 0 are read back wrong |
| Descriptors.SizeOffsetLost | components/acosim/include/pb.h:792-805 | a size offset that passes the condition and is read back wrong |
| Descriptors.FirstWord | components/acosim/include/pb.h:756-789 | the low tag bits and the type stand in the same place in every format, so the search can test them before it knows the format |
| Descriptors.LayoutOne | components/acosim/include/pb.h:756-757 | where each field of the one-word format stands |
| Descriptors.LayoutTwo | components/acosim/include/pb.h:760-762 | where each field of the two-word format stands |
| Descriptors.LayoutFour | components/acosim/include/pb.h:764-767 | where each field of the four-word format stands |
| Descriptors.LayoutEight | components/acosim/include/pb.h:769-772 | where each field of the eight-word format stands |
| FieldIterator.DescriptorAt | components/acosim/src/pb_common.c:122-154 | the descriptor of a field stands at the sum of the widths before it |
| FieldIterator.FieldIter.LoadDescriptorValues | components/acosim/src/pb_common.c:8-120 | the loaded values are those of the field the indices stand for |
| FieldIterator.FieldIter.AdvanceIterator | components/acosim/src/pb_common.c:122-154 | all three running indices equal the width sum and the counts over the preceding fields |
| FieldIterator.FieldIter.Next | components/acosim/src/pb_common.c:188-193 | one field on, until the iterator wraps around |
| FieldIterator.FieldIter.CheckCandidate | components/acosim/src/pb_common.c:212-234 | the fast test on the low tag bits never rejects the wanted field |
| FieldIterator.FieldIter.Find | components/acosim/src/pb_common.c:195-244 | the cyclic search ends, succeeds exactly when the current field or some field that is no extension has the tag, and otherwise keeps the position |
| FieldSearch.SearchMeans | components/acosim/src/pb_decode.c:1041 | what the schema says of a tag, and what the packed fields say of its word, is the same |
| FieldSearch.TypeByteIs | components/acosim/include/pb.h:229-281 | the type byte of a field: its kind in the low four bits, its rule in the next two |
| FieldSearch.OtherTypes | components/acosim/include/pb.h:259-281 | which type bytes are submessages, and which extensions |
| FieldSearch.FindTag | components/acosim/src/pb_decode.c:1041 | the iterator, wherever it stands, finds exactly the field that the search of the schema in the decoder finds |
| HeapBlocks.MallocKeeps | kernel/src/mem.c:626-668 | handing out the front of a free block keeps the tiling, adds exactly that block to the live ones and moves no other |
| HeapBlocks.FreeKeeps | kernel/src/mem.c:717-763 | releasing keeps the tiling and the coalescing, and removes exactly that block from the live ones |
| HeapBlocks.FreeUndoesMalloc | kernel/src/mem.c:695-764 | releasing what was just handed out restores the list of blocks |
| HeapBlocks.AllReleased | kernel/src/mem.c:695-764 | with nothing live there is one free block |
| HeapBlocks.Disjoint | kernel/src/mem.c:610-676 | live payloads do not overlap and stay inside the region |
| HeapBlocks.RunKeepsSound | kernel/src/mem.c:610-764 | over every run of calls the blocks tile the region, no two neighbours are both free, the roving pointer stands on a block boundary, and when everything is released one free block is left |
| HeapBlocks.NextFitIs | kernel/src/mem.c:619-672 | if some block from the roving pointer on fits, the lowest such is taken; if none does, the lowest fitting one below |
| HeapBlocks.SearchFailsIff | kernel/src/mem.c:619-675 | the search fails if and only if every block is used or too small |
| HeapBlocks.MallocRoves | kernel/src/mem.c:641-646 | an allocation leaves the roving pointer behind the block it hands out, at the free rest if there is one |
| HeapBlocks.FreeRoves | kernel/src/mem.c:717-763 | a release leaves it at the free block that contains the released one |
| HeapBlocks.NothingRoves | kernel/src/mem.c:610-676 | a request for no bytes changes nothing but the pointer, which goes to the next free block |
| VolHeap.HeaderFields | kernel/src/mem.c:537-575 | size, use and check survive the packing into one header word |
| VolHeap.HeaderIs | kernel/src/mem.c:537-575 | the size in bytes stands above the lowest byte, which is 0xCD for a used block and 0xCC for a free one |
| VolHeap.Allocator.Init | kernel/src/mem.c:585-603 | one free block over the whole region |
| VolHeap.Allocator.TakeBlock | kernel/src/mem.c:626-668 | writing the headers in place splits the block |
| VolHeap.Allocator.VolRMalloc | kernel/src/mem.c:610-676 | the two-part walk over the headers is next fit |
| VolHeap.Allocator.VolMalloc | kernel/src/mem.c:683-688 | for every 32-bit size: nothing is returned if and only if no free block holds the rounded request with its header. Above -4 the payload is a block nobody else holds; from -7 to -4 the pointer is into a block that stays free; below nothing is returned |
| VolHeap.Allocator.WantedIs | kernel/src/mem.c:610-616 | the unsigned bytes that a signed size comes out as: zero exactly from -7 to -4, and 2^31 or more exactly below and at the upper end |
| VolHeap.Allocator.SearchComplete | kernel/src/mem.c:619-675 | next fit from any starting point misses no block |
| VolHeap.Allocator.MergeBehind | kernel/src/mem.c:717-733 | the block and a free block behind it become one |
| VolHeap.Allocator.FindPrevious | kernel/src/mem.c:736-750 | the walk from the bottom finds the block in front |
| VolHeap.Allocator.VolFree | kernel/src/mem.c:695-764 | in-place coalescing on both sides is the release of exactly the live block; a pointer from outside the region, to a block that is free already, or to anywhere behind a word that does not look like a used header changes nothing |
| CeilingProtocol.RunKeeps | kernel/src/ipc.c:1091-1237 | over every run of requests, releases, sleeps, priority changes and fitting ceiling changes: the system priority is the top of the stack, the least ceiling held, and exactly the stacked resources are held and taken |
| CeilingProtocol.FreshRunKeeps | kernel/src/ipc.c:993-1007 | the same of every state reachable from start-up |
| CeilingProtocol.AttemptMeets | kernel/src/ipc.c:1106-1171 | a blocked caller always finds a real holder to lend to; an admitted one finds the resource free, every held ceiling less urgent than itself, and a semaphore that does not block |
| CeilingProtocol.AdmittedIff | kernel/src/ipc.c:1106-1171 | a caller is admitted if and only if it is more urgent than every ceiling held; then it holds the resource, whose ceiling is the system priority, and nobody else changes; otherwise it queues and no resource changes |
| CeilingProtocol.HolderInherits | kernel/src/ipc.c:1108-1113 | when a caller blocks, the holder of the least ceiling gets exactly the caller's priority in a local system; every other thread keeps its own, and in a global system all do |
| CeilingProtocol.StepRaisesIff | kernel/src/ipc.c:1108-1118 | a step makes a thread more urgent if and only if it is a change from outside to a more urgent priority, or a more urgent caller that finds the local system closed by a resource the thread holds |
| CeilingProtocol.ReleaseGivesUp | kernel/src/ipc.c:1181-1237 | a release does something if and only if the caller holds the resource; then it gives up that one and no other, changes no priority, and takes the first waiter off the queue |
| CeilingProtocol.ReleaseTakesFirst | kernel/src/ipc.c:1203-1208 | over every run from start-up, the waiter that a release takes off has the least key of all that wait, and among equal keys asked first |
| CeilingProtocol.ReleaseHandsOver | kernel/src/ipc.c:1106-1237 | the release of the last resource held lets the first waiter, if it sleeps by then, try again and get what it asked for |
| CeilingProtocol.TopIsLeast | kernel/src/ipc.c:1091-1173 | the system priority is the smallest ceiling of all held resources |
| CeilingProtocol.SetKeepsIff | kernel/src/ipc.c:1016-1043 | a new ceiling of a resource of unchanged type keeps the protocol sound if and only if it still fits between the neighbours on the stack |
| CeilingProtocol.NestedRequestBlocks | kernel/src/ipc.c:1108-1120 | a thread that asks again while it holds a resource of the same system blocks |
| CeilingProtocol.LendingLowersIff | kernel/src/ipc.c:1113 | lending makes the holder less urgent if and only if the caller is less urgent than the holder |
| CeilingProtocol.LendingCanLower | kernel/src/ipc.c:1113 | a holder of priority 7 is set to 10 by a caller of priority 10 |
| CeilingProtocol.StepLowersIff | kernel/src/ipc.c:1108-1118 | a step makes a thread less urgent if and only if it is a change from outside to a less urgent priority, or a less urgent caller that finds the local system closed by a resource the thread holds |
| CeilingProtocol.LoweredOnlySo | kernel/src/ipc.c:1091-1237 | over a whole run, nothing else makes a thread less urgent |
| CeilingProtocol.ReleaseWakesIffAsleep | kernel/src/ipc.c:1203-1208 | a release takes the first waiter off the queue but wakes it only if it has already gone to sleep |
| CeilingProtocol.ReleaseInBetween | kernel/src/ipc.c:1114-1118 | whenever a caller finds the system closed, nobody waiting and another thread holding, a release by the holder before the caller sleeps loses the caller |
| CeilingProtocol.LostReachable | kernel/src/ipc.c:1114-1118 | such a run from start-up, with two threads and one resource |
| CeilingProtocol.LostForever | kernel/src/ipc.c:1114-1118 | a waiter taken off the queue before it slept is never woken |
| CeilingProtocol.RunLive | kernel/src/ipc.c:1091-1237 | when every release finds its first waiter asleep and nobody nests requests, no waiter is forgotten: while somebody waits, a woken thread or the holder on top of the stack can move |
| CeilingProtocol.FreshRunLive | kernel/src/ipc.c:1091-1237 | the same from start-up; in particular nobody is ever lost |
| CeilingSystem.DpcpSystem.constructor | kernel/src/ipc.c:993-1007 | start-up establishes the invariant |
| CeilingSystem.DpcpSystem.Evaluate | kernel/src/ipc.c:1106-1171 | one pass of the request loop in place, for callers and for woken waiters |
| CeilingSystem.DpcpSystem.Pend | kernel/src/ipc.c:1091-1173 | a request, with the wrong-core error of local resources |
| CeilingSystem.DpcpSystem.Release | kernel/src/ipc.c:1181-1237 | a release in place: not the holder, wrong core, or exactly one resource given up and one waiter taken off |
| CeilingSystem.DpcpSystem.Set | kernel/src/ipc.c:1016-1043 | the ceiling change in place |
| WaitQueue.InsertSorted | kernel/src/queue.c:93-111 | priority insertion keeps the queue ordered, newcomers behind their equals |
| WaitQueue.RemoveUndoesInsert | kernel/src/queue.c:93-125 | removing what was just inserted gives the queue back |
| WaitQueue.InsertInTurn | kernel/src/queue.c:93-163 | a newcomer keeps the order of service: by key and then arrival with priorities, by arrival without |
| WaitQueue.RemoveInTurn | kernel/src/queue.c:118-179 | leaving keeps it |
| WaitQueue.Inserted | kernel/src/queue.c:93-111 | the walk finds the place |
| Semaphore.Accounting | kernel/src/ipc.c:484-773 | in every interleaving of a semaphore with any number of resources in which every step keeps the accounts, which is decided step by step in the next row: count = 1 - initial + granted + sleepers - releases, grants never exceed initial + releases, and the sleepers the count does not announce are exactly the lost releases |
| Semaphore.StepKeepsIff | kernel/src/ipc.c:484-773 | a step keeps the accounts if and only if, being an acquire, its comparison is right, being a try, it does not take what is not there, or being a release, the count is not at the lower end of its 16 bits; waiters that go on always do |
| Semaphore.CreateInv | kernel/src/ipc.c:417-437 | a new semaphore keeps correct accounts if and only if it has at most 32769 resources |
| Semaphore.ReleaseServesFirst | kernel/src/ipc.c:101-110 | over every run from a new semaphore, right comparisons or not, the thread that a release wakes is, with priorities, the one of least key among all that are queued and among equal keys the one that asked first; with first in first out, the one that asked first of all |
| Semaphore.ComparedIff | kernel/src/ipc.c:616 | the comparison through a signed byte is right if and only if the low byte is 1 to 127 for a positive count and is not for any other |
| Semaphore.FairUseCompared | kernel/src/ipc.c:484-773 | with fewer than 127 threads the count stays below 128; with at most 129 resources besides, and no release of what was not granted, every comparison is right |
| Semaphore.PendKeepsIff | kernel/src/ipc.c:591-633 | an acquire keeps the accounts if and only if its comparison is right |
| Semaphore.GrantedIff | kernel/src/ipc.c:484-633 | both ways of acquiring are granted exactly when a resource is available if the comparison is right, and exactly when none is if it is wrong |
| Semaphore.FirstCallerGrantedIff | kernel/src/ipc.c:400-437 | the first caller of a new semaphore is granted a resource if and only if the low byte of their number is 1 to 129 |
| Semaphore.FullSemaphoreBlocks | kernel/src/ipc.c:616 | created with 130 resources, all available, the first caller sleeps and the accounts are off |
| Semaphore.ReleaseLostIff | kernel/src/ipc.c:731-765 | a release is lost if and only if the count announces a waiter and the head of the queue has already been woken |
| Semaphore.LostWakeup | kernel/src/ipc.c:731-765 | whatever the queue order and the number of threads (two or more), a run from a new semaphore ends with one resource available and a waiter asleep |
| Semaphore.ByteOverflows | kernel/src/ipc.c:616 | a caller at a count of 128 is let through |
| Semaphore.ByteAgrees | kernel/src/ipc.c:616 | within a signed byte the comparison is right |
| Semaphore.Ipc.Wait | kernel/src/ipc.c:591-633 | acquire or queue and sleep, in place and for every state of the queue; the accounts are kept exactly when the comparison is right |
| Semaphore.Ipc.TryWait | kernel/src/ipc.c:484-522 | acquire or fail, in place; the accounts are kept exactly when a positive count is compared rightly |
| Semaphore.Ipc.Resume | kernel/src/ipc.c:633-644 | a woken waiter leaves the queue |
| Semaphore.Ipc.Signal | kernel/src/ipc.c:715-773 | release in place; the missing-waiter error is given exactly when the count speaks of a waiter and the queue is empty, which cannot happen while the accounts are kept |
| ResponseTime.WorkUpToMono | components/tmp/lib/src/admis_ctl.c:242-276 | time-triggered work up to a point never decreases with the point, although each slot list is cut off at the hyper-period |
| ResponseTime.WorkBeforeSlot | components/tmp/lib/src/admis_ctl.c:263-276 | the subtraction in the window never underflows |
| ResponseTime.WorstWindowMono | components/tmp/lib/src/admis_ctl.c:263-276 | the worst window is monotone in its length |
| ResponseTime.HgRhsMono | components/tmp/lib/src/admis_ctl.c:286-333 | the equation of one global request is monotone |
| ResponseTime.RhsMono | components/tmp/lib/src/admis_ctl.c:494-531 | every term of the response-time equation, and the whole of it, is monotone |
| ResponseTime.GlobalDelayMono | components/tmp/lib/src/admis_ctl.c:341-486 | so is the global waiting time, with its values carried from core to core |
| ResponseTime.ResponseIsLeast | components/tmp/lib/src/admis_ctl.c:494-531 | the verdict is the least solution plus the blocking term when both meet the deadline |
| ResponseTime.ResponseCoversExecution | components/tmp/lib/src/admis_ctl.c:494-531 | an accepted verdict is at least the execution time |
| ScheduleMeaning.CeilCounts | components/tmp/lib/src/admis_ctl.c:227 | rounding up counts the releases in the window, one by one |
| ScheduleMeaning.CeilBounds | components/tmp/lib/src/admis_ctl.c:227 | the last release counted is inside the window and the next one is not |
| ScheduleMeaning.LatencyNgIs | components/tmp/lib/src/admis_ctl.c:202-232 | the preemption term is the sum, over the tasks of the core that are more urgent, of the work outside global sections of every job released in the window stretched by the response less that work |
| ScheduleMeaning.WorkUpToIs | components/tmp/lib/src/admis_ctl.c:242-276 | work up to a point is that of all slots of all hyper-periods that start before it |
| ScheduleMeaning.WindowIs | components/tmp/lib/src/admis_ctl.c:263-276 | the work in a window is that of the slots that start in it |
| ScheduleMeaning.LatencyTIs | components/tmp/lib/src/admis_ctl.c:263-276 | the slot term is the largest such work over the windows that open with a slot |
| ScheduleMeaning.CoreWorkIs | components/tmp/lib/src/admis_ctl.c:358-431 | the demand on a core's global resources is the sum over the other tasks, their sections and the jobs released in the stretched window |
| ScheduleMeaning.HgRhsIs | components/tmp/lib/src/admis_ctl.c:302-325 | one request waits for what it starts with, the sections of the more urgent tasks on all global resources of the core job by job, and the slots |
| ScheduleMeaning.LongestGlobalIs | components/tmp/lib/src/admis_ctl.c:446-470 | the section that can hold a request up is the longest of all less urgent tasks' on resources of the core with a ceiling above the task |
| ScheduleMeaning.WalkReaches | components/tmp/lib/src/admis_ctl.c:382-486 | the accumulators of the walk, carried from core to core, told from the list of resources visited: the last use of each resource, the longest section so far, the bound of each request, and the first that misses the deadline |
| ScheduleMeaning.LatencyGIs | components/tmp/lib/src/admis_ctl.c:341-486 | the waiting time is the sum over the cores of the local demand, or of the smaller of pooled and request-by-request delay, and deadline + 100 as soon as one request misses the deadline |
| ScheduleMeaning.GlobalRequestsIs | components/tmp/lib/src/admis_ctl.c:164-172 | the requests for global resources are counted by section |
| ScheduleMeaning.LatencyBIs | components/tmp/lib/src/admis_ctl.c:155-193 | the blocking term is the longest section of a less urgent task of the core on a local resource with a ceiling above the task, once for every global request, counted in a byte, and once more |
| ScheduleMeaning.RhsIs | components/tmp/lib/src/admis_ctl.c:494-531 | the right-hand side is the task's own execution, every job that preempts it, the slots of its core and the wait for global resources |
| ScheduleMeaning.RequestRejected | components/tmp/lib/src/admis_ctl.c:286-333 | a request without a solution within the deadline counts as deadline + 100 |
| ScheduleMeaning.TaskRejected | components/tmp/lib/src/admis_ctl.c:494-531 | so does a task, and one whose blocking alone exceeds the deadline |
| ScheduleAnalysis.LatencyNgTime | components/tmp/lib/src/admis_ctl.c:202-232 | preemption outside global critical sections, walked until the first task that is not more urgent |
| ScheduleAnalysis.EpsilonTime | components/tmp/lib/src/admis_ctl.c:242-256 | slots that start before a point |
| ScheduleAnalysis.LatencyTTime | components/tmp/lib/src/admis_ctl.c:263-276 | the worst window over all slot starts |
| ScheduleAnalysis.HgStep | components/tmp/lib/src/admis_ctl.c:302-325 | one evaluation of the request equation |
| ScheduleAnalysis.HgTime | components/tmp/lib/src/admis_ctl.c:286-333 | the iteration ends and returns the least solution if it meets the deadline, and deadline + 100 otherwise |
| ScheduleAnalysis.PoolDemand | components/tmp/lib/src/admis_ctl.c:396-430 | pooled demand of a remote core |
| ScheduleAnalysis.DirectDelay | components/tmp/lib/src/admis_ctl.c:431-476 | request-by-request delay of a remote core, given up at the first request that misses the deadline |
| ScheduleAnalysis.LatencyGTime | components/tmp/lib/src/admis_ctl.c:341-486 | the walk over the cores with its carried accumulators computes the global waiting time |
| ScheduleAnalysis.LatencyBTime | components/tmp/lib/src/admis_ctl.c:155-193 | blocking: the walk from the least urgent end, with the request count kept in a byte |
| ResponseTime.LatencyBExact | components/tmp/lib/src/admis_ctl.c:155-193 | the byte never makes the blocking term too large, and leaves it exact if and only if there are fewer than 256 global requests or nothing to block on |
| ScheduleAnalysis.ResponseTimeOf | components/tmp/lib/src/admis_ctl.c:494-531 | the iteration ends, its early exits discard no solution, and it returns exactly the verdict |
| ScheduleAnalysis.AdmittedIff | components/tmp/lib/src/admis_ctl.c:494-554 | a task meets its deadline if and only if some window that, with the blocking, ends by the deadline holds all the work released in it |
| ScheduleAnalysis.Controller.Analyse | components/tmp/lib/src/admis_ctl.c:538-554 | each task is judged against the verdicts already stored, a failure leaves the earlier ones in place, and the tables stay consistent |
| Migration.OneCoreOneQueue | kernel/src/thread.c:272-306 | in every interleaving of any number of cores and jumps a thread runs on at most one core and is linked in at most one ready queue, its own core's |
| Migration.SettledRunsSafe | kernel/src/thread.c:272-349 | the same of every state reachable from one without jumps, together with the hand-over below |
| Migration.ReadiedOnlyAfterInstall | kernel/src/thread.c:341-349 | when the target readies the thread, no core runs it, none is still jumping with it and no queue holds it: the source has installed another thread |
| Migration.StepKeeps | kernel/src/sched.c:179-232 | every step of jump, switch and handler keeps the lock, flag and mailbox invariant |
| Migration.CommandReadOnce | kernel/src/ipi.c:101-132 | a command in a mailbox is neither overwritten nor lost, and its own core takes it once |
| MigrationSteps.OwnStepsIff | kernel/src/sched.c:179-232 | in every state of the invariant the queue of a core holds exactly its ready threads, and when the core switches to a thread, suspends it or readies it, told by the thread's flags |
| MigrationSteps.CoreStepsIff | kernel/src/thread.c:272-306 | when it starts a jump, takes a command or begins to send one: a jump needs only that the running thread is ready and not the idle thread |
| MigrationSteps.ThreadAfter | kernel/src/thread.c:272-349 | which steps change the core, the ready flag, the moving flag and the lock of a thread, and to what |
| MigrationSteps.CoreAfter | kernel/src/sched.c:179-232 | only the core's own switch changes who runs, and after every step the queue follows the flags |
| MigrationSteps.BoxAfter | kernel/src/ipi.c:101-132 | which steps claim, fill and empty a mailbox, and with what |
| MigrationSteps.StageAfter | kernel/src/thread.c:272-349 | how far jump, sending and handler have come after each step; nothing of another core changes |
| Migration.OwnLockIsFree | kernel/src/thread.c:282 | a thread that may jump never waits for its own lock |
| Migration.StrayReadyStrands | kernel/src/thread.c:112-133 | if anybody else readies a thread in flight, it ends linked in one core's queue while belonging to another core |
| MigrationProgress.CoreStuckIff | kernel/src/ipi.c:101-115 | in every state of the invariant a core has no step if and only if its handler waits for a move lock that is not free or, with interrupts off, it stands before an occupied mailbox with its jump or another command |
| MigrationProgress.ClosedHangs | kernel/src/ipi.c:101-132 | cores each of which waits for one of them never again do more than prepare a jump, in any run |
| MigrationProgress.HangIff | kernel/src/thread.c:272-349 | a set of cores hangs in every run if and only if it is part of a set in which each core waits for another one: every core outside such a set can be brought to move by some run |
| MigrationProgress.UnblockedMoves | kernel/src/sched.c:220-227 | a core that waits for nobody can move |
| MigrationProgress.CrossJumpsDeadlock | kernel/src/thread.c:272-306 | from any state in which two cores can launch a jump to each other, a run leads to a state where each core's handler waits for the lock the other's jump holds |
| MigrationProgress.CrossedClosed | kernel/src/thread.c:341-349 | these two cores wait for each other |
| MigrationProgress.DeadlockLasts | kernel/src/thread.c:341-349 | from then on neither core ever takes a step |
| MigrationProgress.MailboxDeadlock | kernel/src/ipi.c:101-115 | if each of the two cores has a second thread to go on with, a run leads to a state where each core, with interrupts off, waits for the other's full mailbox |
| MigrationProgress.FullBoxesClosed | kernel/src/ipi.c:101-115 | these two cores wait for each other, so they hang |
| MigrationProgress.SourceMovesIff | kernel/src/sched.c:220-227 | while a target waits for the lock, the source can go on if and only if its own handler is not waiting in turn and no interrupt of it stands before an occupied mailbox |
| MigrationProgress.EntangledDeadlock | kernel/src/ipi.c:101-132 | from any state in which a core can launch a jump to an interruptible one, a run with that one jump and two commands sent by an interrupt on its core leads to a state where the target waits for the jump's lock and the interrupt for the target's mailbox |
| MigrationProgress.EntangledClosed | kernel/src/ipi.c:101-132 | these two cores wait for each other |
| MigrationLive.ThreeKinds | kernel/src/ipi.c:101-132 | wherever cores wait for one another, some of them wait for one another's locks only, or for one another's mailboxes only, or an interrupt in the middle of a jump stands at a mailbox while a handler waits for that jump: there is no fourth kind of deadlock |
| MigrationLive.TwoKinds | kernel/src/ipi.c:101-132 | while no command is being sent from the middle of a jump, only the first two kinds exist |
| MigrationLive.AscendingNeverHangs | kernel/src/thread.c:272-306 | if jumps and commands are sent only up some ranking of the cores, and no command from the middle of a jump, every core can go on after every run from a state without traffic |
| MigrationLive.JumpCompletes | kernel/src/thread.c:272-349 | a jump that is alone can complete, wherever it stands: the thread arrives ready, linked and unlocked |
| MigrationLive.OneAtATimeNeverHangs | kernel/src/thread.c:272-349 | if a jump or a command is started only when nothing is under way, then after every run from a state without traffic every core can go on and every thread on its way can arrive |
| DagBuild.BuildNodes | components/tmp/lib/src/dag.c:48-76 | one node per user node, in reverse order |
| DagBuild.FindNode | components/tmp/lib/src/dag.c:91-121 | the node of a function, and no other |
| DagBuild.BuildEdges | components/tmp/lib/src/dag.c:85-142 | the edges into each node come from exactly its declared predecessors |
| DagBuild.Collect | components/tmp/lib/src/dag.c:249-291 | all slots are filled if and only if there are at most 256 predecessors, and then with the predecessors' semaphores |
| DagBuild.Decode | components/tmp/lib/src/dag.c:150-303 | each thread pends on exactly the nodes of its declared predecessors |
| DagRun.Precedence | components/tmp/lib/src/dag.c:186-203 | in no interleaving does a function run before all its ancestors have posted |
| DagRun.NobodySleepsOnOpenLatch | kernel/src/ipc.c:530-583 | nobody sleeps on an open latch, and every sleeper is in the queue of the latch it sleeps on |
| DagRun.EveryPeriodCompletesIff | components/tmp/lib/src/dag.c:186-203 | every run that cannot go on has finished all nodes if and only if the graph is acyclic |
| DagRun.RunsEnd | components/tmp/lib/src/dag.c:186-203 | no run is longer than the work at its start |
| DagRun.KnotStuck | components/tmp/lib/src/dag.c:186-203 | nodes that wait for each other never run |
| DagPeriods.PrecedenceAcrossPeriodsIff | kernel/src/period_thrd.c:159-199 | from the first start, precedence holds in every period and every interleaving of restarts and running threads if and only if no predecessor of a thread stands behind it in the period queue, or the graph is cyclic and its first period never ends |
| DagPeriods.BreaksPrecedence | kernel/src/period_thrd.c:181-189 | in any other order a run exists in which a thread runs its function on a latch left open by the period before |
| DagPeriods.UndisturbedPrecedes | kernel/src/period_thrd.c:159-199 | if no thread moves between a tick and the last restart, precedence holds in any order |
| DagPeriods.AncestorsAcrossPeriods | components/tmp/lib/src/dag.c:186-203 | in a good order all ancestors of a running thread have posted in its own period |
| DagPeriods.PeriodsGoOn | kernel/src/period_thrd.c:159-199 | in a good order of an acyclic graph something can happen in every reachable state: a step, a restart or the next tick |
| DagPeriods.DoSimulates | components/tmp/lib/src/dag.c:186-203 | a step of a restarted thread is the same step of one period in which the others have not started |
| DagPeriods.RestartSimulates | components/tmp/lib/src/dag.c:212-217 | in that view a restart changes nothing |
| DagPeriods.RestartLosesNobody | kernel/src/period_thrd.c:159-199 | in every interleaving and any order of the restarts, a thread not restarted yet is done, its latch open and its queue empty, so re-initialising the latch wakes and loses nobody and the next restart is never held up |
| DagRun.Period.PendNext | kernel/src/ipc.c:530-571 | pend without taking, in place |
| DagRun.Period.WakeUp | kernel/src/ipc.c:571-583 | a woken thread leaves the queue |
| DagRun.Period.PostOwn | kernel/src/ipc.c:652-707 | the latch opens and every queued thread is readied |
| Bitmap.Ffs | kernel/src/bitops.c:23-33 | the halving search finds the lowest set bit of every word that has one |
| Bitmap.FindFirstBit | kernel/src/bitops.c:42-54 | the first set bit of the bitmap; an empty one is read one word too far and gives a position outside |
| Bitmap.SetBitSets | kernel/src/bitops.c:61-69 | setting a bit changes that bit only |
| Bitmap.ClearBitClears | kernel/src/bitops.c:75-83 | clearing a bit changes that bit only |
| Bitmap.GetBit | kernel/src/bitops.c:90-97 | not zero exactly when the bit is set |
| ReadyQueue.AddKeeps | kernel/src/thread.c:449-457 | linking a suspended thread keeps queues, flags and count in agreement |
| ReadyQueue.DelKeeps | kernel/src/thread.c:465-474 | so does unlinking |
| ReadyQueue.FirstIsMostUrgent | kernel/src/sched.c:238-256 | a bitmap that agrees with the queues leads to the first thread of the numerically smallest priority |
| ReadyQueue.Core.QueueAdd | kernel/src/sched.c:136-155 | a thread goes to the end of its queue and its identifier gets the tag of the core; bitmap, count, flags and queues keep agreeing |
| ReadyQueue.Core.QueueDel | kernel/src/sched.c:162-173 | a thread leaves its queue and the bit goes with the last one |
| ReadyQueue.Core.RdyThread | kernel/src/thread.c:112-133 | only a suspended thread is readied, here or by a command to its own core |
| ReadyQueue.Core.SuspendThread | kernel/src/thread.c:155-176 | only a ready thread is suspended, here or by a command to its own core |
| ReadyQueue.Core.ChangePrio | kernel/src/thread.c:208-236 | a ready thread moves to the end of its new queue, another only changes its priority; for a thread of another core a command is sent and nothing here changes |
| ReadyQueue.Core.SelectThread | kernel/src/sched.c:238-256 | the first-queued thread of the smallest priority number among all linked threads |
| ReadyQueue.Core.SetRunning | kernel/src/sched.c:106-111 | exactly the new thread is flagged as running |
| ReadyQueue.FlagsAre | kernel/src/sched.c:136-173 | readying and suspending set the flags that say so and touch neither the priority nor the low 24 bits of the identifier |
| CircularList.ListAdd | kernel/src/list.c:22-41 | the links written in place put the node right behind its place in the ring |
| CircularList.ListAddTail | kernel/src/list.c:48-66 | the links written in place put the node at the end of the ring |
| CircularList.ListDel | kernel/src/list.c:73-92 | the node leaves the ring and is linked to itself |
| DeltaQueue.InsertPlaces | kernel/src/queue.c:34-58 | in terms of absolute deadlines insertion moves no other deadline and puts the new one after all that are not later |
| DeltaQueue.PlaceIs | kernel/src/queue.c:34-58 | the place is right in front of the first deadline that is later |
| DeltaQueue.CountDownIs | kernel/src/timer.c:139-158 | one tick takes one off the first entry, and so off all deadlines, until that is due |
| DeltaQueue.RemainingIsDeadline | kernel/src/queue.c:34-58 | the sum of the deltas is the deadline |
| DeltaQueue.ExactDelay | kernel/src/timer.c:126-158 | in every run a thread delayed d ticks is readied by exactly the d-th tick |
| DeltaQueue.NeverWoken | kernel/src/timer.c:139-158 | a thread that is not queued is never woken |
| DeltaQueue.FiresExactly | kernel/src/period_thrd.c:159-199 | in every run of ticks and insertions a thread is taken at its first due tick and then at exactly every period |
| DeltaQueue.ExactPeriod | kernel/src/period_thrd.c:68-73 | a thread of period P is taken at exactly every P-th tick after it joins |
| DeltaQueue.PeriodTickAll | kernel/src/period_thrd.c:159-199 | one tick restarts every countdown that comes up and takes one off every other, although the loop reinserts into the queue it walks |
| TickQueue.Queue.TickQueueAdd | kernel/src/queue.c:34-58 | the pointer-level insertion is the insertion of deltas |
| TickQueue.Queue.TickQueueDel | kernel/src/queue.c:65-74 | the other deltas stay as they are |
| TickQueue.Queue.TimeDelayDeal | kernel/src/timer.c:139-158 | the tick of the delay queue readies exactly what has come up |
| TickQueue.Queue.PeriodTimeDeal | kernel/src/period_thrd.c:159-199 | the tick of the period queue ends, and takes and puts back exactly what has come up |
| SlotPool.ByIdIff | kernel/src/res_pool.c:249-258 | an identifier leads back to its slot, whatever core it was tagged with, if and only if the slot number is below 1024 |
| SlotPool.IdentifierIs | kernel/include/res_pool.h:26-38 | pool and type in the low fourteen bits, the slot number in the next ten |
| SlotPool.PoolsAre | kernel/src/res_pool.c:209-216 | forty pools, named by the low ten bits |
| SlotPool.CoreTagIs | kernel/src/sched.c:145-153 | tagging for core 0 or 1 sets bit 24 to that number, for any other core it does nothing; no other bit changes |
| SlotPool.WalkVisitsFree | kernel/src/res_pool.c:140-146 | following the links for as many steps as there are free slots visits each of them once |
| SlotPool.RunConserves | kernel/src/res_pool.c:116-201 | free and held slots together are conserved over every run of the steps that the pool takes |
| SlotPool.NeverTwice | kernel/src/res_pool.c:116-201 | from a new pool, no slot is ever held twice, or both free and held, and none is missing |
| SlotPool.Pool.Init | kernel/src/res_pool.c:265-283 | all slots free, in order |
| SlotPool.Pool.GetRes | kernel/src/res_pool.c:116-156 | the first free slot is handed out with its identifier: one step of the books of free and held slots |
| SlotPool.Pool.ReleaseRes | kernel/src/res_pool.c:163-201 | the pool is the one that the slot's own word names. A slot in use goes to the front of the free ones, and a link read from outside the pool is never followed; a free slot changes nothing if its link names another pool, and otherwise leaves a list that cannot be followed |
| SlotPool.HeldReached | kernel/src/res_pool.c:165-166 | a slot in use is found by its own word |
| SlotPool.SecondReleaseIff | kernel/src/res_pool.c:163-216 | the release of a free slot spoils the list of its pool if and only if the number of the slot it links to is, modulo 1024, the number of the pool; otherwise it changes nothing |
| SlotPool.NewPoolSpoiltIff | kernel/src/res_pool.c:265-283 | which slots of a new pool these are |
| SlotPool.LastSlotSpoils | kernel/src/res_pool.c:265-283 | in pool 0 of eight slots only the last one, whose link is 0 |
| SlotPool.DoubleGive | kernel/src/res_pool.c:190-191 | putting a free slot in front once more closes the links to a ring |
| SlotPool.Pool.SetCore | kernel/src/sched.c:145-153 | retagging the core keeps the identifier good |
| RingBuffer.MaskIsRemainder | kernel/src/ringbuffer.c:33-36 | masking with a power of two less one is the remainder |
| RingBuffer.PowerOfTwoIff | kernel/src/ringbuffer.c:30-31 | the size test passes exactly the powers of two, for sizes above zero |
| RingBuffer.Distance | kernel/include/ringbuffer.h:93-110 | the masked 32-bit difference of the indices is the number of bytes between them |
| RingBuffer.Ring.IsFull | kernel/include/ringbuffer.h:93-110 | full exactly when one byte less than the size is held |
| RingBuffer.Ring.IsEmpty | kernel/include/ringbuffer.h:118-125 | empty exactly when nothing is held |
| RingBuffer.Ring.Put | kernel/src/ringbuffer.c:60-84 | the byte is appended and the oldest dropped exactly when the buffer was full, which is reported |
| RingBuffer.Ring.Get | kernel/src/ringbuffer.c:87-102 | the oldest byte is removed, or the buffer is empty |
| RingBuffer.Ring.PutMore | kernel/src/ringbuffer.c:104-120 | the last bytes of old contents and new data remain, and an error is reported if and only if something was dropped |
| RingBuffer.Ring.GetMore | kernel/src/ringbuffer.c:122-147 | the first bytes are removed in order; a size of zero still removes one, and the count includes a failed last attempt |

## Assumptions

- Schemas: tags ascend from 1, object sizes are those of C objects; encoded messages and submessages are
  shorter than 2^32 bytes, the `size_t` of the target.
- The heap: the word at the top of the region reads as used, because the release of the last block reads
  it; block sizes fit their 24-bit header field.
- Ceiling protocol: at every request the caller's priority number is at least the ceiling of the resource
  and below 61.
- Admission tables: periods are positive, critical sections are part of the execution time, no recorded
  response is shorter than its execution time, and the slot durations add up to their recorded sum.
- Delays and periods are at least one tick, and their conversion to ticks does not overflow.
- Migration: only the handler of the target readies a thread in flight, and the idle thread of a core is
  always ready and never jumps.
- Migration: commands to other cores are sent with interrupts off, and an interrupt may stay pending while its
  core runs with interrupts enabled; `MailboxDeadlock` uses that the receipt comes later than the second jump.
- Periods: no thread overruns its period, and the threads of one graph come due at the same tick, in the same
  order every time.
- Signed overflow wraps around.
- Each queue operation is atomic under its queue lock.

## Left out

- RoundTrip.MsgRoundTrip: messages whose encoding reaches 2^32 bytes, which no buffer of the target holds.
- Semaphore.Accounting: runs with a step that breaks the accounts, an acquire or try whose comparison through the
  signed byte comes out wrong, or a release at the end of the count's range; which those are is
  `Semaphore.StepKeepsIff`.
- OutputStream.OStream.Write: the wrap-around of `bytes_written` on a stream that only sizes.
- Decoder.DecodeInner: extension fields; and the field of a tag is a function of the schema here. That the
  iterator finds the same field is `FieldSearch.FindTag`.
- FieldIterator.FieldIter.LoadDescriptorValues: the pointers to a field's data, presence flag and count.
- VolHeap.Allocator.VolFree: a pointer into the middle of a block behind user data that looks like a used header.
  Its error returns leave the mutex held.
- CeilingSystem.DpcpSystem.Pend: the caller's migration to the core of a global resource, and the saved
  priority switch.
- CeilingSystem.DpcpSystem.Release: the jump back, and the restoring of the holder's priority (the saved byte
  loses its flag, so it never happens).
- CeilingSystem.DpcpSystem.Set: changing the type of a resource.
- TickQueue.Queue.PeriodTimeDeal: which of the threads it takes was suspended, and so is readied.
- nanopb callbacks, extensions, oneof fields, pointer fields, default-value streams, conversion between
  float and double, UTF-8 validation, null-terminated and delimited top-level messages.
- The decoder's destination structure is a value that is returned, so its memory layout, its aliasing and
  what a failed decoding leaves behind are not captured; error texts are not modelled, only success.
- The bit words of required fields are a set of field numbers, with the source's limit of 64.
- The buddy half of `mem.c`: which half of a split block is free does not follow from its tags. It is taken
  as the source of one region.
- DPCP: the error returns of request and release leave the critical section entered.
- MPCP: its release readies a waiter without unlinking it.
- Semaphores: the calls from interrupts and on null or mistyped objects, which return errors at once; mutexes
  and mailboxes.
- DAG: a null predecessor, and a thread that is still waiting when its next period begins.
- Migration: moving or killing a thread other than oneself, thread exit and reload; what the ready, suspend and
  priority commands do at their target is left to its own steps. The step machine is on values because every
  function is cut at each shared access.
- Ready queues hold thread numbers in sequences; the intrusive links behind them are modelled in
  `CircularList`.
- Pools: a release that is led to another pool by a link returns there with that pool's lock held.
- Pool lists (creating, releasing and collecting pools): slots are modelled inside one pool. Shifts and masks
  of identifier fields are written as quotients and remainders.
- Killing threads that wait in delta queues, and delays of zero ticks: both change other deadlines.
- The timed policy and its tables, the choice of priorities and the rollback in admission control.
- Admission control: 32-bit wrap-around and rounding of the floating-point ceilings; integers are unbounded
  and ceilings exact.
- The per-node spin locks of the lists, assembly, interrupt controller, caches and memory management.
- Networking, shell, printing, string helpers, monitor, applications, drivers and measurement code.
