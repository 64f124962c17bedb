# FLV muxer: a verified model

The repository is a DirectShow filter that interleaves audio and video streams and writes them to an
FLV file, together with the base classes it is built on. This project models its six parts with the
most state and arithmetic, and proves what they promise. `dafny verify dfyconfig.toml` checks all of it.

**128-bit scaled arithmetic** (`Words`, `ScaledArithmetic`). `llMulDiv` and `Int64x32Div32` compute
(a*b+d)/c from 32-bit limbs. Both methods are proved equal to one line of arithmetic, for all inputs,
and that line is proved to be the quotient rounded toward zero exactly when it fits.

**AMF0** (`BigEndian`, `Amf0`, `Amf0Format`, `AmfStream`). The value tree, the writers and readers over a
byte cursor, and the size. The methods on the cursor are tied to `Encode` and `DecodeValue`, and the laws are
proved about those. `Amf0Format.Stands` says by places and plain arithmetic, apart from writer and reader,
which bytes a value is.

**FLV writer** (`FlvFile`, `FlvReader`, `FlvMetadata`, `FlvTags`, `FlvWriter`). The file as a back-linked list
of tags, with a forward and a backward reader; what a player makes of header, tag bodies, AVC record and
metadata, defined from the file format alone; the metadata; what the packets become; the writer with its
seekable stream, and a whole run from `Start` to `Stop`, in which a player reads each packet back.

**Interleaver** (`MuxPacket`, `StreamQueues`, `MergeOrder`, `Interleaver`, `EndToEnd`). The bounded queues
with their events as a state machine over producers and the muxing thread, the classes tied to it, and
the composition with the writer.

**Advise schedule** (`AdviseList`, `AdviseEnds`, `AdviseSchedule`). The linked list between two sentinels
with its node cache, tied to a list of packets, and the firing loop.

**Allocator, output pin and output queue** (`SamplePool`, `MemLayout`, `MemAllocator`, `PinBlocking`,
`OutputPin`, `QueueSteps`, `QueueInvariants`, `QueueGuarantees`, `QueueDelivery`, `QueueRest`, `QueueFlush`,
`QueueSending`, `QueueWaits`, `QueueCalls`, `OutputQueue`). Each is a state machine whose steps are the critical sections
of the source, and the accesses the source makes without its lock, as steps of their own. Semaphores are
counters and events are flags. Every run is a legal sequence of steps, in any order the threads can
produce. The classes hold the source's fields; each method is one critical section and is proved to take
the step that the state machine takes.

## Where the code does not do what it says

Each of these is kept as coded. A lemma gives, for all inputs, the condition under which the code does meet
the property; where it is not plain from the condition, another gives a concrete input for which it does not.

- `AS_ECMA_Array::Write` ends with marker 9 and `Read` only consumes the value 3
  (src/as_objects.cpp:250-251, src/as_objects.cpp:268). Reading inverts writing exactly for the values that
  hold no ECMA array (`Amf0.ReadInvertsWriteIff`); one inside an object loses the members behind it
  (`Amf0.NestedEcmaLosesMembers`).
- `AS_Strict_Array::Size` and `Write` disagree about the names of members. `Write` drops the names in
  place, so the second time they agree (`Amf0.WriteEmitsSize`, `Amf0.WrittenHasExactSize`).
- `CMuxInterleaver::Read` reports the end of the stream as soon as the stream with the least start time is
  at its end, and an EOS packet has start time 0 (libmonodshow/src/basemux.cpp:169,
  libmonodshow/src/basemux.cpp:388-392). `StreamQueues.EndIff` says exactly when, and
  `MergeOrder.EndBeforeAllPackets` gives a run.
- The merge is in order exactly if all active streams are interleaved or none is (`MergeOrder.MergesInOrderIff`,
  `MergeOrder.NotInterleavedBreaksOrder`); with none, `Read` reports the end at once.
- Tag timestamps are 32 bits: they are the true offsets exactly while the duration is below 2^32 ms
  (`EndToEnd.TimestampsExactIff`).
- A composition offset has a field of 24 bits with a sign: one that an int holds is read as it was asked for
  exactly if it is below 2^23 ms (`FlvTags.CompositionExactIff`).
- The conversion of a packet from a byte stream to units with lengths (src/flv_writer.cpp:617-627) replaces the
  start code in front only. A player finds the units of the byte stream exactly if there is no other start code
  in the packet (`FlvTags.UnitsReadBackIff`).
- The AVC record takes the size of those lengths from a byte of the first parameter set
  (src/flv_writer.cpp:414), while the packets have four bytes: the two agree exactly if the low two bits of that
  byte are set (`FlvTags.LengthSizeIff`). The lengths of the parameter sets are put together from signed
  characters, which is right exactly if no byte of a length has its high bit set (`FlvTags.HoldsParameterSetsIff`).
- The comment on the allocator's lazy signalling says that the recorded waiters and the semaphore count add
  up to the waiting threads (libmonodshow/include/amfilter.h:1416). `GetBuffer` also counts callers that
  are told not to wait, so this holds exactly as long as no such call has found the list empty
  (`SamplePool.StatedCountIff`).
- `CMemAllocator::SetProperties` adds two LONGs without a check. What is laid out holds the request exactly
  when the sum fits (`MemLayout.LaidOutSizeIff`, `MemLayout.TooSmallBuffer`). An alignment that is not a
  power of two is logged, not refused; the accepted ones that keep their promise in memory are exactly the
  powers of two (`MemLayout.AcceptedAlignmentHoldsIff`).
- `COutputQueue::IsIdle` says that when it returns TRUE nothing can be on the queue. That is right exactly
  without exact batching (`QueueGuarantees.IsIdleRightIff`).
- A flush is to discard what was queued before it. `COutputQueue::BeginFlush` and `EndFlush` are cut short
  when nothing has come since the last flush, but a `NewSegment` does not count as something that came; and
  `EndFlush` waits for the same event as `Reset`, so the worker can end its wait before it has freed anything.
  In any run, with calls of `Reset` at any time, nothing that had arrived when BeginFlush took the lock is
  passed on after EndFlush has returned, exactly if: the flush is cut short and nothing is pending, or it is
  not, and the worker has no RESET packet in hand or the list is empty (`QueueFlush.FlushGuaranteeIff`, for
  any of the kinds of entries that the pin gets; `QueueFlush.ResetInFlight` is an instance).
- The worker asserts that it never sends while m_bFlushed is set. That holds as long as Reset and flushes keep
  apart (`QueueSending.SendingIsNotFlushed`), and after any flush exactly if there is nothing to send when
  EndFlush sets m_bFlushed (`QueueSending.SendingIsNotFlushedIff`); `QueueSending.SentWhileFlushed` gives a run
  in which it fails.
- `Reset` and `EndFlush` wait for one auto-reset event. A wait is sure to end exactly if it is the only one and
  the event is set or going to be set; of two overlapping waits one may last for ever
  (`QueueWaits.WaitEndsIff`; `QueueWaits.TwoResets` is an instance).
- `CAMSchedule::Advise` need not end. Event times are 64-bit words, and the last sentinel has MAX_TIME; a time
  that lands on it sends the search of `ShuntHead` past the end of the list
  (libmonodshow/src/schedule.cpp:247-251). The loop ends, with every time on the way a 64-bit word below
  MAX_TIME, exactly if no periodic packet that is due has a period of zero or less and none reaches MAX_TIME
  by its firings (`AdviseEnds.AdviseEndsIff`). In that statement sums do not wrap, neither above nor below the
  64-bit words; while they stay in range the loop with 64-bit sums is the same (`AdviseEnds.EndsInWords`), and
  `AdviseEnds.TimesWrap` gives a packet whose times wrap for ever.

## Model

| member | source | states |
|---|---|---|
| ScaledArithmetic.LlMulDiv | libmonodshow/src/arithutil.cpp:77-241 | for all four 64-bit inputs the limb algorithm returns `Scaled`: the truncated quotient of a*b+d by c, or the signed extreme when c is 0 or the magnitude reaches \|c\|*2^64 |
| ScaledArithmetic.Int64x32Div32 | libmonodshow/src/arithutil.cpp:243-360 | the fast 96-bit form returns the same `Scaled` as llMulDiv on the same inputs, saturation and wrap-around included |
| ScaledArithmetic.LongMultiply | libmonodshow/src/arithutil.cpp:88-108 | the limb products and carries give the exact 128-bit product; no intermediate sum overflows its word |
| ScaledArithmetic.AddSigned | libmonodshow/src/arithutil.cpp:110-160 | the extended addition with its carries and negation gives the magnitude and the sign of the signed sum |
| ScaledArithmetic.DivideByDword | libmonodshow/src/arithutil.cpp:183-217 | the two-step division by a 32-bit divisor gives the quotient of the 128-bit dividend |
| ScaledArithmetic.ShiftSubtract | libmonodshow/src/arithutil.cpp:220-240 | after its 64 rounds the shift-and-subtract loop holds the quotient of the 128-bit dividend |
| ScaledArithmetic.Divide | libmonodshow/src/arithutil.cpp:174-240 | all three routes give the same quotient of the 128-bit dividend |
| ScaledArithmetic.Divide96 | libmonodshow/src/arithutil.cpp:336-358 | each 64/32 step has a quotient of 32 bits and together they are the quotient of the 96-bit dividend |
| ScaledArithmetic.ScaledIsQuotientIffItFits | libmonodshow/src/arithutil.cpp:77-241 | the result is the truncated quotient if and only if there is one that fits in a signed 64-bit word |
| ScaledArithmetic.SaturationIff | libmonodshow/src/arithutil.cpp:168-172 | the overflow check succeeds exactly if c is 0 or the quotient needs more than 64 bits, and the extreme has the sign of the quotient, or for c == 0 of the numerator or the product |
| ScaledArithmetic.TruncatedQuotientUnique | libmonodshow/src/arithutil.cpp:240 | the specification of truncated division has one solution |
| Amf0.WriteEmitsSize | src/as_objects.cpp:273-285 | Write emits Size bytes if and only if no strict array holds a named member |
| Amf0.WrittenHasExactSize | src/as_objects.cpp:391-420 | after a Write, which drops those names, Size is the number of bytes written |
| Amf0.MemberIsNotEndMarker | src/as_objects.cpp:311-330 | no encoded object member, whatever follows it, begins with the end marker 00 00 09 |
| Amf0.ReadInvertsWrite | src/as_objects.cpp:100-473 | Read on the bytes of a value without ECMA arrays, followed by any bytes, rebuilds the value and stops right behind it |
| Amf0.ReadRootEcma | src/as_objects.cpp:232-271 | a root ECMA array of such members gives its members back and stops in front of its own end marker, 3 bytes short |
| Amf0.ReadInvertsWriteIff | src/as_objects.cpp:232-271 | Read inverts Write if and only if the value holds no ECMA array |
| Amf0.EcmaStopsShort | src/as_objects.cpp:250-268 | a value that holds one and reads back as itself leaves at least one end marker unread |
| Amf0.NestedEcmaLosesMembers | src/as_objects.cpp:250-268 | an object with an ECMA array and a member behind it that comes back without that member |
| Amf0.ReadVarsInvertsWrite | src/as_objects.cpp:654-696 | the same for a list of members, named or not |
| Amf0Format.StandsIff | src/as_objects.cpp:100-473 | the bytes at a place are those that Write emits for a value if and only if the value stands there: its type marker, each number as the weighted sum of its bytes, lengths, counts, texts, members and end markers at their offsets |
| Amf0Format.WriteStands | src/as_objects.cpp:100-473 | so every value written between any other bytes stands where it was put |
| Amf0Format.ReadIff | src/as_objects.cpp:70-473 | Read accepts bytes as a value without arrays if and only if that value, in range, stands there, and it stops right behind it |
| Amf0Format.FailsAtOnceIff | src/as_objects.cpp:70-96 | Read fails without moving exactly at a type byte that has no object |
| Amf0Format.KeepsReadableMembers | src/as_objects.cpp:368-388 | a strict array that announces more members than can be read keeps those in front of the first type byte without an object |
| Amf0Format.NamedUnknownIsSkipped | src/as_objects.cpp:232-246 | in an ECMA array a member with such a type byte costs its name and one round of the loop |
| Amf0Format.ObjectFailsAtUnknown | src/as_objects.cpp:311-330 | such a member makes the whole object fail, with the cursor at that type byte |
| Amf0Format.NegativeCount | src/as_objects.cpp:368-388 | a count of 2^31 and more reads no member |
| Amf0Format.EcmaEndsAtThree | src/as_objects.cpp:250-251 | behind the members of an ECMA array the bytes 00 00 03 are consumed and no others |
| AmfStream.WriteValue | src/as_objects.cpp:100-473 | writing through the cursor changes no byte in front of the cursor or behind what is written; the value stands there, marker, numbers, lengths and texts at their offsets, the cursor is right behind it, and the tree has lost the names that Write drops |
| AmfStream.ReadValue | src/as_objects.cpp:70-96 | reading through the cursor gives what `DecodeValue` gives, moves the cursor as it does and does not touch the buffer |
| AmfStream.ReadMembers | src/as_objects.cpp:311-330 | the loop of object members stops at the first end marker, with the members in front of it |
| AmfStream.ReadCounted | src/as_objects.cpp:368-388 | the counted loop reads as many members as the field says |
| AmfStream.WriteVars | src/as_objects.cpp:391-404 | the members are written one behind the other |
| AmfStream.Bytestream.USet32 | src/as_objects.h:145 | four bytes at the cursor become the big-endian word, no other byte changes |
| AmfStream.Bytestream.UGet64 | src/as_objects.h:45-86 | the big-endian value of the next eight bytes |
| AmfStream.Bytestream.SetString | src/as_objects.h:167-178 | 16-bit length and text |
| AmfStream.Bytestream.GetString | src/as_objects.h:118-128 | the text that the length announces |
| AmfStream.Bytestream.GetLongString | src/as_objects.h:130-139 | the same with a 32-bit length |
| BigEndian.Read32 | src/as_objects.h:44-145 | the bytes of a word read back as the word in front of any other bytes |
| BigEndian.Read64 | src/as_objects.h:45-146 | the same for 64 bits |
| BigEndian.Number32Iff | src/as_objects.h:145 | a field holds a number, each byte weighing 256 times the next, exactly when its bytes are those written for it |
| BigEndian.Number64Iff | src/as_objects.h:146 | the same for 64 bits |
| FlvFile.BodyParses | src/flv_writer.cpp:481-682 | a forward reader finds exactly the tags, and before each 0 for the first and 11 + DataSize of the one before for the others |
| FlvFile.WalkBackLandsOnHeader | src/flv_writer.cpp:550-560 | walking back from the end by the PreviousTagSize fields visits every tag, at the offset where its bytes are, and lands on the end of the header |
| FlvFile.FirstTagInPlace | src/flv_writer.cpp:381-396 | replacing the first tag by one of the same length changes no other byte |
| FlvFile.TagStandsIff | src/flv_writer.cpp:510-563 | the bytes of a tag are at a place if and only if its type, DataSize, timestamp with the extension byte, stream id 0 and data stand at their offsets |
| FlvFile.OffsetsFollow | src/flv_writer.cpp:553-563 | each tag begins behind the one before it and four bytes more |
| FlvMetadata.MetaSizeFixed | src/flv_writer.cpp:684-789 | the length of the metadata depends only on which codecs are present |
| FlvMetadata.MetaReadsBack | src/flv_writer.cpp:684-789 | a reader gets back the name and all members, the duration and the file size among them |
| FlvMetadata.MetaReads | src/flv_writer.cpp:690-738 | a player that looks members up by name in the bytes finds for every name the flag, the number or the text of the writer, and finds none of the names of a stream that is not there |
| FlvTags.PacketTagShows | src/flv_writer.cpp:481-682 | what a player reads in the tag of a packet is the packet: type 9 exactly for video and 8 for audio, its time, key frame exactly for a sync point, codec, composition offset, rate and channels, and the data with a start code read as a length |
| FlvTags.StepShows | src/flv_writer.cpp:526-543 | the tag of a packet is last, and no tag is written exactly for a packet before the first one |
| FlvTags.RunReadsBack | src/flv_writer.cpp:481-682 | over every run: the codec configuration, then exactly one tag for each packet not before the first one, in order, each of which reads back as its packet; the counters of video bytes and frames, and the duration |
| FlvTags.CompositionExactIff | src/flv_writer.cpp:585-600 | a composition offset that fits an int is read as asked for exactly if it is below 2^23 ms |
| FlvTags.UnitsReadBackIff | src/flv_writer.cpp:617-627 | a player finds the units of the byte stream exactly if the packet has no second start code |
| FlvTags.HoldsParameterSetsIff | src/flv_writer.cpp:400-403 | which extradata MakeAVCc reads right, and the two lengths it finds |
| FlvTags.VideoConfigReads | src/flv_writer.cpp:431-479 | the configuration tag is there exactly for H.264 with extradata; a player reads a key frame of type 0 with a record that holds version 1, profile, level and the two parameter sets |
| FlvTags.AudioConfigReads | src/flv_writer.cpp:431-479 | the same for AAC: 44 kHz, 16 bits, stereo, type 0, and the extradata |
| FlvTags.LengthSizeIff | src/flv_writer.cpp:410-416 | the record announces lengths of four bytes exactly if the low two bits of the seventh byte are set |
| FlvWriter.HeaderReads | src/flv_writer.cpp:356-367 | a player finds signature, version 1, the flags of exactly the streams there are, and the body at 9 |
| FlvWriter.FlvWriter.Start | src/flv_writer.cpp:351-379 | the stream begins with the header and the metadata tag; without a stream -1 |
| FlvWriter.FlvWriter.WriteExtradata | src/flv_writer.cpp:431-479 | the codec configuration becomes one tag with its true DataSize, or nothing is written |
| FlvWriter.FlvWriter.WritePacket | src/flv_writer.cpp:481-682 | the last tag reads back as the packet, unless it begins before the first one or is neither video nor audio, and then no tag is added; the state follows and the stream holds the body of the tags so far |
| FlvWriter.FlvWriter.AppendTag | src/flv_writer.cpp:546-682 | the bytes written are the size of the last tag and the new tag, whose DataSize counts them |
| FlvWriter.FlvWriter.WriteMetaData | src/flv_writer.cpp:684-789 | header and metadata go where the stream stands, nothing behind them changes |
| FlvWriter.FlvWriter.Stop | src/flv_writer.cpp:381-396 | the metadata in place holds the true file length, and the file ends with the size of its last tag |
| FlvWriter.RewrittenMeta | src/flv_writer.cpp:381-396 | overwriting the metadata tag at offset 9 changes only that tag; the file stays well formed and as long |
| FlvWriter.MakeAvcc | src/flv_writer.cpp:398-429 | the AVC configuration record of the two parameter sets and its length, and -1 when there is no data or it does not fit |
| FlvWriter.ToNalu | src/flv_writer.cpp:616-628 | a leading start code is replaced by the length of the rest, nothing else changes |
| FlvWriter.FinishedFileParses | src/flv_writer.cpp:351-396 | a header and the body of any tags can be read forward and backward |
| FlvWriter.WriteFile | src/flv_writer.cpp:351-682 | for every run of packets the finished file reads both ways with its tags in place, and a player reads back: the streams in the header, the metadata with the file length and the duration of the run, the codec configuration, and each packet that is kept, in order, and nothing else |
| FlvWriter.FlvIo.Write | src/flv_writer.cpp:149-156 | overwrites from the position on and grows the stream at its end |
| Interleaver.InterStream.Write | libmonodshow/src/basemux.cpp:151-158 | appends; the write event is reset at the limit |
| Interleaver.InterStream.Read | libmonodshow/src/basemux.cpp:160-176 | takes the front, except that an EOS packet stays and gives -3 |
| Interleaver.Interleaver.Write | libmonodshow/src/basemux.cpp:289-309 | appends to the stream of the packet and sets the read event; -1 for a stream that is not there |
| Interleaver.Interleaver.ReadPass | libmonodshow/src/basemux.cpp:338-394 | one pass under the lock hands out a packet exactly if there is a next one, and that one; goes round again exactly if an interleaved stream has no packet; and leaves streams and event as the state machine has them |
| Interleaver.Interleaver.Scan | libmonodshow/src/basemux.cpp:346-385 | the scanning loop finds the stable minimum, whether to deliver and whether all is at its end |
| Interleaver.Interleaver.FlushStream | libmonodshow/src/basemux.cpp:258-276 | empties one stream; the read event is reset if nothing is queued any more |
| StreamQueues.LowestIsStableMinimum | libmonodshow/src/basemux.cpp:346-374 | the stream chosen has the least start time of all that have a packet, ties to the lowest index |
| StreamQueues.LowestUnique | libmonodshow/src/basemux.cpp:346-374 | and no other choice has this property |
| StreamQueues.TakeIff | libmonodshow/src/basemux.cpp:346-393 | a pass takes the packet of a stream if and only if some active interleaved stream is not at its end, each has a packet, and this packet is the first in time of all in front, ties to the lowest index, and no EOS packet |
| StreamQueues.AgainIff | libmonodshow/src/basemux.cpp:376-392 | and goes round again if and only if an active interleaved stream has none |
| StreamQueues.OnePass | libmonodshow/src/basemux.cpp:376-393 | a pass loses nothing, and resets the read event exactly if an interleaved stream has no packet |
| StreamQueues.PassesDrain | libmonodshow/src/basemux.cpp:311-398 | as many passes as there are packets hand out all that can be: one each until there is no next packet |
| StreamQueues.NextWakesReader | libmonodshow/src/basemux.cpp:289-309 | in every reachable state with a next packet the reader does not wait |
| StreamQueues.EndIff | libmonodshow/src/basemux.cpp:387-393 | Read says end of stream exactly if all interleaved streams are at their end, or every one has a packet and an EOS packet with time 0 wins |
| MergeOrder.EndBeforeAllPackets | libmonodshow/src/basemux.cpp:387-393 | a run after which Read reports the end while a stream still holds a packet |
| StreamQueues.FlowControl | libmonodshow/src/basemux.cpp:136-309 | in every reachable state no queue exceeds its limit, the write event is set exactly below it, a reset read event means an interleaved stream is empty, and reader and producers are never all blocked |
| StreamQueues.StableMerge | libmonodshow/src/basemux.cpp:346-393 | over every run without flush the packets handed out are in order, and of each stream they are a prefix of what was written |
| MergeOrder.MergesInOrderIff | libmonodshow/src/basemux.cpp:346-393 | for every set of streams: all runs without flush are in order if and only if all active streams are interleaved or none is |
| MergeOrder.NotInterleavedBreaksOrder | libmonodshow/src/basemux.cpp:376-385 | an interleaved stream beside one that is not: some run is out of order |
| EndToEnd.OrderedRun | src/flv_writer.cpp:518-543 | every packet of an ordered run becomes one tag with its offset, and the duration is the last and largest offset |
| EndToEnd.EndToEndInOrder | libmonodshow/src/basemux.cpp:311-398 | for every run of producers and muxing thread without flush, ends of streams included, each stream in order: nothing handed to the writer is dropped, each packet reads back from its tag, the times do not decrease, the duration is their maximum |
| EndToEnd.TimestampsExactIff | src/flv_writer.cpp:534-541 | the timestamp fields are the true offsets exactly if the duration is below 2^32 ms |
| EndToEnd.TimestampsInOrder | src/flv_writer.cpp:534-541 | and then they do not decrease in the file |
| EndToEnd.DroppedIff | src/flv_writer.cpp:533-534 | the writer drops a packet exactly if it lies whole milliseconds before the first one |
| AdviseList.InsertSorts | libmonodshow/src/schedule.cpp:190-215 | insertion keeps the list sorted and adds exactly the packet |
| AdviseList.FireAllLeaves | libmonodshow/src/schedule.cpp:143-186 | what Advise leaves: the one-shots due are gone, each periodic packet that was due is at its first tick after t, the others are as they were |
| AdviseList.FireAllInOrder | libmonodshow/src/schedule.cpp:152-177 | the firings are in non-decreasing time, and none is later than t |
| AdviseList.AdviseFiresExactly | libmonodshow/src/schedule.cpp:152-177 | each packet fires at its ticks up to t and at no other time; nothing that is not on the list fires |
| AdviseList.TicksAre | libmonodshow/src/schedule.cpp:161-166 | the ticks number (t - time)/period + 1 and lie a period apart |
| AdviseList.AdvancedIsFirstAfter | libmonodshow/src/schedule.cpp:161-166 | the tick a periodic packet is left at is the first after t |
| AdviseList.FiredDue | libmonodshow/src/schedule.cpp:152-177 | each firing takes one off the number still due: the measure of the loop |
| AdviseList.FiringsGoHome | libmonodshow/src/schedule.cpp:161-171 | every firing goes to the handle of the packet with its cookie, as a semaphore exactly if that packet is periodic |
| AdviseEnds.AdviseEndsIff | libmonodshow/src/schedule.cpp:152-177 | the loop ends with every time on the way in range if and only if no periodic packet that is due has a period of zero or less and none is pushed to MAX_TIME by its firings |
| AdviseEnds.EndsInWords | libmonodshow/src/schedule.cpp:165 | under that condition the loop with 64-bit sums ends too |
| AdviseEnds.TimesWrap | libmonodshow/src/schedule.cpp:165 | a packet with a positive period that is due after every turn, because its times wrap |
| AdviseSchedule.AmSchedule.AddAdvise | libmonodshow/src/schedule.cpp:77-112 | a node from the cache, or a new one, is inserted in order under a cookie never given out before; the waiting thread is told if it is now the first |
| AdviseSchedule.AmSchedule.AddPacket | libmonodshow/src/schedule.cpp:190-215 | the linked list becomes `Insert` of the old one, sorted between its sentinels |
| AdviseSchedule.AmSchedule.Unadvise | libmonodshow/src/schedule.cpp:114-141 | succeeds exactly if the cookie is live and removes only that packet |
| AdviseSchedule.AmSchedule.Advise | libmonodshow/src/schedule.cpp:143-186 | terminates; fires and leaves what `FireAll` does and returns the least time left |
| AdviseSchedule.AmSchedule.ShuntHead | libmonodshow/src/schedule.cpp:232-262 | the head moves to where `InsertLate` puts it |
| AdviseSchedule.AmSchedule.Delete | libmonodshow/src/schedule.cpp:217-229 | the node goes to the cache if that holds fewer than five |
| AdviseSchedule.AdvisePacket.InsertAfter | libmonodshow/include/schedule.h:56-60 | links a node in behind this one |
| AdviseSchedule.AdvisePacket.RemoveNext | libmonodshow/include/schedule.h:65-71 | takes the next node out and gives it back |
| SamplePool.StepKeeps | libmonodshow/src/amfilter.cpp:4731-4966 | every critical section keeps `Sound`: each sample in one place, the phases of commit and decommit, the lazy signalling and the self-reference |
| SamplePool.Reachable | libmonodshow/src/amfilter.cpp:4731-4966 | so it holds in every reachable state |
| SamplePool.NoWaiterStranded | libmonodshow/include/amfilter.h:1412-1425 | with a free sample, or after decommit, the semaphore has a count for every thread that waits |
| SamplePool.StatedCountIff | libmonodshow/include/amfilter.h:1412-1416 | recorded waiters and semaphore count add up to the waiting threads exactly if no call of the run gave up |
| SamplePool.CommitCancelsDecommit | libmonodshow/src/amfilter.cpp:4890-4904 | a commit during a pending decommit undoes it but for the wake-ups, with one self-reference as before |
| SamplePool.EveryWaiterCounts | libmonodshow/src/amfilter.cpp:4742-4768 | counting by the calls: every call that found no sample and has not gone on is owed a wake-up, and has it when a sample is free or the pool is decommitted |
| MemLayout.LaidOutSizeIff | libmonodshow/src/amfilter.cpp:5096-5104 | whatever is accepted and laid out: Alloc's rounding adds nothing, size and prefix make a multiple of the alignment, and the size is at least the request exactly if the sum of buffer and prefix fits in a LONG |
| MemLayout.FittingRequest | libmonodshow/src/amfilter.cpp:5096-5166 | when it fits, less than one alignment unit is added |
| MemLayout.TooSmallBuffer | libmonodshow/src/amfilter.cpp:5098-5103 | a request that is accepted and laid out with less than it asks for |
| MemLayout.AlignedSizeIs | libmonodshow/src/amfilter.cpp:5143-5166 | the distance between samples is the least multiple of the alignment that holds buffer and prefix; there is none exactly if the prefix is negative or no LONG holds it |
| MemLayout.LaidOutIff | libmonodshow/src/amfilter.cpp:5096-5166 | a request gets as far as the block exactly if, when buffer and prefix fit in a LONG, the least multiple of the alignment that holds them does too, and when they wrap, both the prefix and what is missing to 2^32 are below the alignment |
| MemLayout.AffordableIff | libmonodshow/src/amfilter.cpp:5096-5173 | a request that fits can be allocated, after it is settled, exactly if so many times that least multiple fit in a LONG |
| MemLayout.LeastMultipleIff | libmonodshow/src/amfilter.cpp:5157-5168 | which number that is: no multiple lies between |
| MemLayout.RegionsTile | libmonodshow/src/amfilter.cpp:5172-5212 | the regions of the samples with their prefixes tile the block: each byte is in exactly one, none reaches outside |
| MemLayout.PowerAcceptedIff | libmonodshow/src/amfilter.cpp:5072-5078 | of the powers of two, the alignment test accepts exactly those that divide the granularity |
| MemLayout.AcceptedAlignmentHoldsIff | libmonodshow/src/amfilter.cpp:5066-5078 | an accepted alignment divides every region start, wherever the block lies, exactly if it is a power of two |
| MemAllocator.Allocator.SamplesTile | libmonodshow/src/amfilter.cpp:5172-5216 | whenever samples are in use: side by side from the start of the block, each behind its prefix at a multiple of the alignment, none overlapping the next, and as long as asked for exactly if the sum fits |
| MemAllocator.SampleList.Add | libmonodshow/include/amfilter.h:1366-1372 | the linked list has the sample in front |
| MemAllocator.SampleList.RemoveHead | libmonodshow/include/amfilter.h:1373-1381 | takes the first sample, or NULL |
| MemAllocator.SampleList.Remove | libmonodshow/src/amfilter.cpp:4994-5010 | unlinks the sample wherever it is, and only it |
| MemAllocator.Allocator.TryGetBuffer | libmonodshow/src/amfilter.cpp:4742-4768 | one turn of GetBuffer takes the step of the pool; a sample handed out has the agreed size in a region of its own |
| MemAllocator.Allocator.ReleaseBuffer | libmonodshow/src/amfilter.cpp:4802-4820 | takes the step of the pool; Release is called exactly if this was the last sample of a pending decommit |
| MemAllocator.Allocator.Commit | libmonodshow/src/amfilter.cpp:4882-4916 | succeeds exactly if committed, about to be decommitted, or Alloc has what it takes; takes the step of the pool |
| MemAllocator.Allocator.Decommit | libmonodshow/src/amfilter.cpp:4921-4966 | takes the step of the pool: decommitted, or about to be exactly if something is out; Release is called exactly if nothing was out |
| MemAllocator.Allocator.SetProperties | libmonodshow/src/amfilter.cpp:5050-5112 | which error comes when, and the settled properties; a refused call changes nothing |
| MemAllocator.Allocator.Alloc | libmonodshow/src/amfilter.cpp:5122-5219 | succeeds exactly if the sizes are set and, when something has changed, count times the least multiple of the alignment that holds size and prefix fit in a LONG, there is a block and memory for all samples; they lie that multiple apart with the agreed size and are all on the free list; what is left after each failure |
| PinBlocking.StepKeeps | libmonodshow/src/amfilter.cpp:4071-4254 | every step keeps what AssertValid asserts, and more: a pending block has users, the unblock event is set exactly while not blocked, requests are answered in turn |
| PinBlocking.NotifiedOnce | libmonodshow/src/amfilter.cpp:4084-4165 | over every run each accepted request has been notified exactly once, unless it is the one pending, and that not at all |
| PinBlocking.PendingEnds | libmonodshow/src/amfilter.cpp:4137-4247 | a pending request is completed if the last user stops before any unblock, cancelled if an unblock comes first, and stays pending if neither comes |
| PinBlocking.BlockIsExclusive | libmonodshow/src/amfilter.cpp:4078-4084 | a further request is turned away exactly while one is pending or in force |
| PinBlocking.WaiterGetsPinIff | libmonodshow/src/amfilter.cpp:4180-4221 | the event lets a waiting thread through exactly when it would get the pin |
| PinBlocking.NeverBlockedInUse | libmonodshow/src/amfilter.cpp:4483-4517 | in every reachable state: users mean not blocked, pending means users and one held handle, and the source's assertions hold |
| PinBlocking.BlockFollowsCalls | libmonodshow/src/amfilter.cpp:4071-4254 | over every run the order of the calls alone tells who blocks the pin, who uses it and who waits; each request that was taken is known and answered by its own handle, its owner is its own thread |
| OutputPin.DynamicOutputPin.AsynchronousBlockOutputPin | libmonodshow/src/amfilter.cpp:4071-4112 | the result for each case, and the step of the protocol; an accepted request is the last one, under its own handle, and its thread the caller |
| OutputPin.DynamicOutputPin.UnblockOutputPin | libmonodshow/src/amfilter.cpp:4137-4165 | the step of the protocol, with the notification of a cancelled request |
| OutputPin.DynamicOutputPin.TryToUse | libmonodshow/src/amfilter.cpp:4167-4228 | one turn of the loop: the pin, or the wait |
| OutputPin.DynamicOutputPin.StopUsingOutputPin | libmonodshow/src/amfilter.cpp:4230-4247 | the step of the protocol; the last user completes a pending block |
| OutputPin.DynamicOutputPin.Block | libmonodshow/src/amfilter.cpp:3982-4045 | the result of every call, unblocking twice included, the step of the protocol, and whether a synchronous call is to wait |
| QueueInvariants.StepKeeps | libmonodshow/src/outputq.cpp:203-371 | every step of users and worker keeps the arrival order, the ownership of samples, the framing of NEW_SEGMENT and the wake-up invariant |
| QueueInvariants.GatherOrder | libmonodshow/src/outputq.cpp:216-290 | what the worker gathers keeps the order of the queue |
| QueueInvariants.GatherOwns | libmonodshow/src/outputq.cpp:216-290 | and neither loses nor doubles a sample |
| QueueGuarantees.DeliveredInArrivalOrder | libmonodshow/src/outputq.cpp:203-371 | over every run what reaches the pin was queued as such, and samples, ends of stream and new segments come in the order of the queueing |
| QueueGuarantees.TeardownReleasesEach | libmonodshow/src/outputq.cpp:149-175 | when the worker has ended, every sample ever given has been released exactly once, as many as the calls brought, and the list is empty as the destructor asserts |
| QueueGuarantees.TeardownEnds | libmonodshow/src/outputq.cpp:157-163 | a queue that is being destroyed takes at most seven more steps and stops only when the worker has ended |
| QueueGuarantees.NoMissedWakeup | libmonodshow/src/outputq.cpp:216-303 | waiting count and semaphore make 1 exactly while the worker is at its wait; recorded as waiting it has nothing to do: no termination, no control packet, no data, or with exact batching less than a batch |
| QueueGuarantees.ShortBatchNeedsPacket | libmonodshow/src/outputq.cpp:236-290 | with exact batching less than a batch is sent only because of a control packet |
| QueueGuarantees.IsIdleRightIff | libmonodshow/src/outputq.cpp:775-795 | IsIdle is right in all runs exactly without exact batching |
| QueueFlush.StepKeepsPurging | libmonodshow/src/outputq.cpp:463-548 | in any run, once a flush that will do its work has begun: old entries are gone, or EndFlush cannot get past its wait before the worker has freed them |
| QueueFlush.FlushGuarantee | libmonodshow/src/outputq.cpp:463-548 | whatever is called meanwhile, nothing that had arrived at BeginFlush is passed on after EndFlush has returned |
| QueueFlush.FlushGuaranteeIff | libmonodshow/src/outputq.cpp:481-534 | from every reachable state, over all runs: this holds if and only if the flush is cut short with nothing pending, or not cut short with no RESET packet in the worker's hand or none of these entries in the list |
| QueueFlush.ResetInFlight | libmonodshow/src/outputq.cpp:361-364 | a queue with a RESET packet in the worker's hand and a sample behind it, for which it does not hold |
| QueueRest.Settles | libmonodshow/src/outputq.cpp:203-303 | left alone, the worker comes to its wait |
| QueueRest.Drains | libmonodshow/src/outputq.cpp:374-389 | after SendAnyway the worker passes on everything that was pending for the pin |
| QueueSending.SendingIsNotFlushed | libmonodshow/src/outputq.cpp:316-325 | if Reset keeps apart from flushes the worker's two assertions hold in every reachable state, and every flush discards all data that had arrived |
| QueueSending.SendingIsNotFlushedIff | libmonodshow/src/outputq.cpp:541-542 | in all runs: from the moment EndFlush sets m_bFlushed the assertions hold, until it is set again, if and only if no sample is pending and no answer of the pin awaited |
| QueueSending.SentWhileFlushed | libmonodshow/src/outputq.cpp:316-325 | a run that comes to set m_bFlushed with a sample left, and from there an assertion fails |
| QueueSending.AssertsHoldAtFirst | libmonodshow/src/outputq.cpp:43-75 | and they hold from the start until then |
| QueueWaits.WaitEndsIff | libmonodshow/src/outputq.cpp:534-536 | in every reachable state: the threads that wait in Reset and EndFlush are sure to get through, in every order of turns, if and only if there is none, or one and a signal is set or coming |
| QueueWaits.TwoResets | libmonodshow/src/outputq.cpp:701-711 | two calls of Reset on a new queue: one of them may wait for ever |
| QueueWaits.ClosedRunsEnd | libmonodshow/src/outputq.cpp:203-371 | without a new call everything comes to rest, within a bound |
| QueueDelivery.NothingLost | libmonodshow/src/outputq.cpp:216-369 | without flush and with a pin that accepts: what has been passed on, followed by what is pending, is all that was queued for the pin in that order; an idle queue has passed on all of it |
| QueueDelivery.RefusalSticks | libmonodshow/src/outputq.cpp:313-359 | once m_hr is not S_OK, no RESET packet is pending and the worker is past its checks, no sample and no end of stream is passed on until a Reset or the end of a flush |
| QueueCalls.EveryCallCounts | libmonodshow/src/outputq.cpp:374-460 | counting by the calls: as long as the pin accepts and nobody flushes, what has been and will be passed on are exactly the samples, ends of stream and new segments that were called for, in that order; every call of NewSegment is let through |
| QueueCalls.AdmittedIff | libmonodshow/src/outputq.cpp:406 | NewSegment goes on to queue if and only if m_hr is S_OK |
| QueueCalls.RefusedCalls | libmonodshow/src/outputq.cpp:406-457 | after a refusal, until a Reset or the end of a flush: no call of NewSegment is let through, no data is queued, and as many samples as are brought are released |
| QueueCalls.AnswerBecomesResult | libmonodshow/src/outputq.cpp:313-325 | an answer other than S_OK becomes m_hr with the worker's next step and stays it; behind that batch no data is passed on |
| QueueCalls.ResetEndsRefusal | libmonodshow/src/outputq.cpp:361-362 | after a call of Reset outside a flush m_hr is S_OK as soon as no RESET packet is pending, and so when the worker is at its wait |
| QueueCalls.ResetsReturn | libmonodshow/src/outputq.cpp:701-711 | in every run: calls of Reset less those that returned are in it |
| QueueCalls.RefusesWhileFlushing | libmonodshow/src/outputq.cpp:463-550 | with a pin that accepts and without Reset, the users are refused exactly from BeginFlush until EndFlush has returned |
| QueueCalls.FlushIsShortIff | libmonodshow/src/outputq.cpp:516-526 | over every run: EndFlush returns at once exactly if the option is set and no data has been accepted since the last flush, or since the start |
| QueueCalls.FullBatches | libmonodshow/src/outputq.cpp:216-303 | in every reachable state the worker leaves its turn with a full batch, or all there was, or because of a control packet; it goes to wait only with an empty list |
| OutputQueue.OutputQueue.ReceiveMultiple | libmonodshow/src/outputq.cpp:675-698 | the result, and the step of the queue: all samples queued or all released |
| OutputQueue.OutputQueue.CheckNewSegment | libmonodshow/src/outputq.cpp:406 | one more caller is to queue exactly if m_hr is S_OK |
| OutputQueue.OutputQueue.FreeSamples | libmonodshow/src/outputq.cpp:716-754 | each sample of list and batch is released once, and both are empty |
| OutputQueue.OutputQueue.GatherBatch | libmonodshow/src/outputq.cpp:216-290 | the loop over list and batch array gives what `Gather` gives |
| OutputQueue.OutputQueue.ThreadSection | libmonodshow/src/outputq.cpp:216-297 | the locked part of a turn of the worker is the step of the queue |
| OutputQueue.OutputQueue.BeginFlush | libmonodshow/src/outputq.cpp:463-498 | the step of the queue; the pin is told exactly if the flush is not cut short |
| OutputQueue.OutputQueue.EndFlush | libmonodshow/src/outputq.cpp:516-526 | the step of the queue; whether to wait |
| OutputQueue.OutputQueue.QueueNewSegment | libmonodshow/src/outputq.cpp:424-428 | packet and parameters are queued next to each other for a caller that was let through, and the worker is told |
| OutputQueue.OutputQueue.EOS | libmonodshow/src/outputq.cpp:451-457 | the step of the queue: refused while m_hr is not S_OK |
| OutputQueue.OutputQueue.UpdateHr | libmonodshow/src/outputq.cpp:321-325 | a flushing m_hr is not overwritten by the pin's answer |
| OutputQueue.OutputQueue.IsIdle | libmonodshow/src/outputq.cpp:775-795 | a no is right; after a yes there may be samples of an exactly batching queue in the list, fewer than a batch |

## Left out

- COM plumbing, class factories, pin connection, media types and `ConfigStream`, property page, window, logging: thin wrappers over Windows, or input and output.
- The `USE_LARGEINT` and assembler variants of the division: the portable form is modelled.
- Operating system objects: critical sections, semaphores, events, `VirtualAlloc` and `IStream` are counters, flags, a base address and a byte sequence with a position; writes are complete.
- Time-outs and `GetTickCount` in the interleaver: a pass that finds nothing stands for all of them.
- The meaning of floating-point numbers: doubles are opaque 64-bit words, and the numbers that go into the metadata come from two functions that are a parameter (`Numbers`).
- `AS_DataObject` and `AS_AMF3Number`: neither has a reader that matches its writer.
- Malformed AMF: the readers do not check bounds, so a read past the end of the buffer is the answer `Overrun` of `DecodeValue`, and the reading methods ask that there is none.
- Code page conversion in `CString`: text is bytes. Packet data rewritten in place by the start-code replacement is not seen by a later user of the packet.
- FlvWriter.FlvWriter.WritePacket: does not model video packets shorter than four bytes, data that does not fit 24 bits, or an audio codec other than MP3 and AAC; there the source reads beyond the packet, cuts DataSize, or counts a header it does not write (the lemma `HeaderSizes` says exactly when).
- FlvWriter.FlvWriter.WriteExtradata: does not model video extradata that MakeAVCc refuses, for then the source writes -1 bytes, or that does not hold two complete parameter sets, for then it reads beyond them.
- FlvWriter.MakeAvcc: does not model extradata that does not hold two complete parameter sets, for the same reason.
- AdviseSchedule.AmSchedule.Advise: asks that the loop ends with every time in range; `AdviseEnds.AdviseEndsIff` shows that both of its conditions are necessary for that. What happens when a time wraps or reaches MAX_TIME is not part of it.
- AdviseSchedule.AmSchedule.AddAdvise: does not model a failing allocation, nor the wrap-around of the cookie counter.
- EndToEnd.EndToEndInOrder: leaves out streams with extended timestamps, which the interleaver does not order by, and flushes.
- MemAllocator.Allocator.TryGetBuffer: one turn of GetBuffer's loop; the wait between two turns is a step of the pool, because other threads act in it.
- MemAllocator: the reference counts of single samples, `SetNotify` and `GetFreeCount`; the base class version of SetProperties.
- OutputPin: the wait of a synchronous caller for its event; the end of the pin while a block is pending; the dynamic reconnection built on the protocol.
- QueueSending.SendingIsNotFlushed: asks that Reset is not called during a flush and that none begins while the worker has a RESET packet in hand; `SendingIsNotFlushedIff` is for all runs.
- OutputQueue: direct mode (no thread), the pop event, failing allocations. The worker's accesses outside the lock are steps of `QueueSteps`, not methods.
- `CCmdQueue`, `CEnumPins`, the bitmap checks, `WriteInt` and `ReadInt`: easier versions of properties that are here.
