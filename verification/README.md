# CtrlrFx: a verified model

CtrlrFx is a C++ framework for real-time controllers. This project models four parts of it in
Dafny and proves what they promise:

1. **Remote calls.** Values are written at aligned offsets of a buffer (`Layout`, `Buffers`,
   `BufCodec`), framed into "CX" packets and found again (`PacketHeader`), served in a loop that
   dispatches through an object registry (`DistObj`, `ServerRuns`, `DistObjServer`). On top stand the digital
   I/O ports with their hand-written stubs and skeletons (`DigIO`, `DigIOObjects`) and the
   interface compiler `cfxidl`: its generators produce a syntax tree (`IdlCompiler`), the tree
   has a meaning over the codec, the server and the channel (`GeneratedCode`), and a call through
   the generated code is proved to mean a call on the object (`RemoteProcedure`).
2. **Locks and queues.** `ReaderWriterLock`, `RecursiveLock`, `MessageQueue` and `SequenceLock`
   are classes whose methods are the atomic sections of the C++ code, and transition systems of
   any number of threads built from the same section functions. `Counting` counts threads.
3. **The acquisition pipeline.** `AcqPipeline` runs the three threads of the acquisition demo
   over three queues in every interleaving, `RingPipeline` over the ring buffers of those queues;
   `AcqBufQueues` builds them.
4. **Wrapping, alignment and byte order.** `CircularQueue`, `BinStream`, `StreamObjects` and
   `HostBytes`.

How to read it: a C++ class that updates its fields is a Dafny class whose methods equate the new
state with a function of the old one (`View() == old(View()).Put(v)`). The lemmas are about those
functions. A run of a concurrent part is a sequence of actions, each enabled where it is taken.
For the condition-variable locks an action is the code between two waits, because the mutex is
held there; a signal wakes any sleeper, and sleepers may wake by themselves. For the message
queue a call takes three steps: the token, the critical section, the post. A channel is a
first-in first-out sequence of bytes, and a read returns what it asks for while bytes remain.
What uninitialised memory holds is always a parameter of the statement.

Where the code differs from its comments or tests, the model follows the code:

- `MsgQueue::full` and `MsgQueue::empty` answer each other's question (`MsgQueue.Full`, `MsgQueue.Empty`).
- A `CircQueue` holds one item less than its capacity (`CapacityIsOneLess`).
- `Buffer::align` is bounded by the end of the memory, not by the limit, so a failed put or get
  may leave the position behind the limit (`PutSucceedsIff`, `OverflowPrefix`).
- The header scan does not insist on "CX": once it has kept a 'C' it takes the next 'X' whatever
  is in between, and a single trailing 'C' may be completed by an 'X' that an earlier read, or
  nobody at all, left behind it. `AcceptedIff` says for every stream when a header is accepted and
  `FalseHeaderIff` when one is accepted that is not there (`JunkPassesForHeader` and
  `OldXPassesForHeader` are instances); on streams with a header, `ScanStops` says when the scan
  stops at it.
- `DistObjSrvr::run` says that the response of a failed command is thrown away, but sends what the
  handler encoded: it is thrown away exactly when nothing was (`FailedResponseIsEmptyIff`, with
  `FailedResponseIsSent` as an instance). For unknown objects, unknown commands and every other
  error of the ports and of generated skeletons nothing is (`UnknownObjectAnswered`,
  `FailureSendsCodeAlone`).
- Inserting an empty block is reported as good on a full stream (`AllGoodIff`). Extracting a block
  when not both bytes of its length are left is reported as good exactly when the byte that is
  left, if any, and the rest of the uninitialised length are zero (`LostBlockNoticedIff`, with two
  instances in `LostBlockPasses`); `AllExtractedIff` says what this means for a list.
- `BinStreamBase::byte_order` answers the opposite of what was set (`ByteOrderAnswersOpposite`).
- The registry tests an entry before it tests the index, so on a full table it reads what lies
  behind it. No answer depends on what that is (`RegisterObj`, `GetObj`).
- `SeqLock` returns its counter as an `int` and compares it with the counter again. For a counter
  no wider than an `int` nothing is lost. A wider one makes reads be retried that nothing disturbed
  (`UndisturbedAcceptedIff`) and reads with mixed words be accepted before it has gone round
  (`WideCounterFoolsReader`, with a 64-bit instance in `WideCounterInstance`).
- `SeqLock` has no constructor that sets its counter. Started odd, reads begun between two writes
  are always retried (`AlwaysRetriedIff`) and a read begun during one can be accepted with mixed
  words (`OddStartFoolsReader`).
- A stub does not notice arguments that do not fit its buffer: the method is called with the ones
  that do and with whatever the handler's variables hold for the others. Nor does the stub of a
  void function notice results that do not fit the server's buffer (`RemoteMeansArrived`).
- `register_obj` answers 63 for the 64th object, where it answers the number of objects otherwise.

## Model

| member | source | states |
|---|---|---|
| Buffers.Buffer.constructor | CtrlrFx/Buffer.h:266-272 | A new buffer is empty at position 0 with its limit at the capacity. |
| Buffers.Buffer.Align | CtrlrFx/Buffer.h:428-439 | Moves to the next multiple of n unless that is not inside the memory; the limit is not looked at. |
| Buffers.Buffer.CopyIn | CtrlrFx/Buffer.h:333-338 | The copy loop overwrites exactly the target stretch. |
| Buffers.Buffer.PutBlock | CtrlrFx/Buffer.h:443-452 | All of the array is stored and the position advanced, or nothing happens and 0 is returned. |
| Buffers.Buffer.GetBlock | CtrlrFx/Buffer.h:464-473 | All n items are taken or none. |
| Buffers.Buffer.Clear | CtrlrFx/Buffer.h:387-393 | Position and mark at 0, limit at the capacity, contents untouched. |
| Buffers.Buffer.ClearTo | CtrlrFx/Buffer.h:395-404 | As clear, the limit at the given size or the capacity, whichever is less. |
| Buffers.Buffer.Flip | CtrlrFx/Buffer.h:406-412 | The limit takes the place of the position, which returns to 0. |
| Buffers.Buffer.DeepCopy | CtrlrFx/Buffer.h:318-331 | Takes over position, mark, limit and the items below the limit, or fails untouched when they do not fit. |
| Layout.PlaceHolds | CtrlrFx/BufCodec.h:144-155 | Values stored at aligned offsets are all readable at those offsets and nothing outside the stretch changes. |
| Layout.PlaceZeroedHolds | src/io/BinStream/BinStreamBuf.cpp:84-118 | The same for a writer that fills the padding with zeros. |
| Layout.ZeroPaddingIsFree | src/io/BinStream/BinStreamBuf.cpp:84-93 | On memory that is zero already the two ways of writing give the same bytes. |
| BufCodec.PutSucceedsIff | CtrlrFx/BufCodec.h:144-155 | A put succeeds if and only if the aligned value ends within the limit; it then starts at a multiple of its size; a skipped alignment always makes it fail; a failed put writes nothing. |
| BufCodec.PutAllIff | CtrlrFx/BufCodec.h:144-155 | Encoding a list succeeds if and only if its aligned layout fits, and the memory is then that layout. |
| BufCodec.GetAllReady | CtrlrFx/BufCodec.h:236-247 | A decoder in front of the layout of a list reads exactly that list and ends behind it, still good. |
| BufCodec.RoundTrip | CtrlrFx/BufCodec.h:144-155 | Whatever list was encoded with all puts good is decoded from any buffer of any capacity that carries the same value bytes below its limit, whatever the padding holds; decoding ends at the limit and stays good. |
| BufCodec.FlipOrCopyRoundTrip | CtrlrFx/Buffer.h:318-412 | The same for the encoder's own flipped buffer and for a copy of it in any other buffer that has room. |
| BufCodec.AcceptedIsLongestPrefix | CtrlrFx/BufCodec.h:144-155 | The number of values accepted is the length of the longest prefix whose layout ends within the limit. |
| BufCodec.BadStaysBad | CtrlrFx/BufCodec.h:236-247 | After the first failure a decoder reads nothing more and does not move. |
| BufCodec.GetFails | CtrlrFx/Buffer.h:428-473 | A get fails whenever the aligned value does not end within the limit, whether or not the decoder could align; so does a get where a put of the same size failed, although the failed put may have moved the position. |
| BufCodec.OverflowPrefix | CtrlrFx/BufCodec.h:144-247 | When more is encoded than fits, nothing is written after the first failure, and decoding the same types after a flip gives exactly the accepted prefix and then fails. |
| BufCodec.BinNativeEncoder.Put | CtrlrFx/BufCodec.h:144-155 | The method does to its buffer and state what the codec function says. |
| BufCodec.BinNativeEncoder.Clear | CtrlrFx/BufCodec.h:112-115 | Empties the buffer for writing and restores the good state. |
| BufCodec.BinNativeDecoder.Get | CtrlrFx/BufCodec.h:236-247 | The method does to its buffer and state what the codec function says, and leaves the target alone on failure. |
| BufCodec.BinNativeDecoder.Rewind | CtrlrFx/BufCodec.h:200-202 | Position and mark return to 0 and the state to good. |
| HostBytes.SwapBytes | CtrlrFx/swap.h:13-26 | The in-place loop reverses the bytes of an object of any size. |
| HostBytes.ReverseTwice | CtrlrFx/swap.h:13-26 | Swapping twice changes nothing. |
| HostBytes.U16RoundTrip | src/io/BinStream/BinStream.cpp:36-45 | A 16-bit number survives its memory image in either byte order. |
| HostBytes.U32RoundTrip | CtrlrFx/BinDistObj.h:35-50 | A 32-bit number survives its memory image in either byte order. |
| HostBytes.I32RoundTrip | CtrlrFx/BinDistObj.h:56-60 | A signed 32-bit number survives its memory image in either byte order. |
| HostBytes.DigitsOfU16 | CtrlrFx/BinStream.h:215-225 | The bytes of a 16-bit number are its digits to the base 256, the least first or last by the byte order. |
| HostBytes.DigitsOfU32 | CtrlrFx/BinDistObj.h:35-50 | So are those of a 32-bit number. |
| HostBytes.DigitsOfI32 | CtrlrFx/BinDistObj.h:56-60 | A signed number has the bytes of its rest modulo 2^32. |
| HostBytes.ReversedIsOther | CtrlrFx/swap.h:13-47 | Reversing the bytes of a number gives the number in the other byte order. |
| BinStream.BinStreamBuf.Setbuf | CtrlrFx/MemBinStream.h:52-57 | Both areas span the memory and start at its beginning. |
| BinStream.BinStreamBuf.Sputc | CtrlrFx/BinStreamBuf.h:237-240 | Stores one byte or answers -1 when the put area is full. |
| BinStream.BinStreamBuf.Sbumpc | CtrlrFx/BinStreamBuf.h:165-168 | Takes one byte or answers -1 when the get area is used up. |
| BinStream.BinStreamBuf.Palign | src/io/BinStream/BinStreamBuf.cpp:84-93 | Writes zeros up to the next multiple or the end of the area. |
| BinStream.BinStreamBuf.Galign | src/io/BinStream/BinStreamBuf.cpp:43-52 | Skips up to the next multiple or the end of the area. |
| BinStream.BinStreamBuf.Xsputn | src/io/BinStream/BinStreamBuf.cpp:97-118 | The loop ends, and has stored exactly as many of the bytes as there is room for. |
| BinStream.BinStreamBuf.Xsgetn | src/io/BinStream/BinStreamBuf.cpp:56-78 | The loop ends, and has taken exactly the requested bytes or all there are. |
| BinStream.InsertFits | CtrlrFx/BinStream.h:215-225 | An item that fits is stored as its layout and the stream is good; one that does not fit sets the fail bit alone, except that an empty block leaves the stream good. |
| BinStream.InsertAllFits | CtrlrFx/BinStream.h:215-284 | A list whose layout fits is stored as that layout with every insertion good. |
| BinStream.AllGoodIff | src/io/BinStream/BinStream.cpp:118-132 | For every list of items, the state, which every insertion sets anew, was good after each of them if and only if everything up to the last item that is not an empty block was stored: an empty block is reported as stored even on a full stream. |
| BinStream.AllGoodMeansStored | src/io/BinStream/BinStream.cpp:118-132 | So for lists without empty blocks it tells whether everything was stored. |
| BinStream.WordStored | CtrlrFx/BinStream.h:215-225 | A word that fits lies at the next multiple of its size if the stream aligns and right here if not, zeros in front of it, with its bytes the other way round if the stream swaps and as they are if not; nothing else is written. |
| BinStream.WordTaken | CtrlrFx/BinStream.h:86-97 | A word is taken from there, whatever the bytes are, the other way round if the stream swaps and as they are if not. |
| BinStream.OppositeSwapReverses | CtrlrFx/BinStream.h:86-225 | A reader with the opposite swap setting gets the word with its bytes reversed. |
| BinStream.StoredInOrder | src/io/BinStream/BinStreamBase.cpp:52-60 | A stream that was set to a byte order stores 16 and 32-bit numbers in that order, on any host. |
| BinStream.OthersStored | CtrlrFx/BinStream.h:229-277 | A boolean is one byte of 1 or 0, a byte and a floating-point value are what they are, right here and unswapped. |
| BinStream.BlockStored | src/io/BinStream/BinStream.cpp:112-116 | A block is its length modulo 65536 as a word in the order of the stream, and right behind it its bytes. |
| BinStream.BytesTaken | CtrlrFx/BinStream.h:99-109 | Any byte but 0 is true; at the end of the stream a boolean is false and a byte 255, and both state bits are set. |
| BinStream.ExtractHeld | CtrlrFx/BinStream.h:86-145 | A reader with the writer's settings takes back each item from its layout, whatever its target held before. |
| BinStream.ExtractAllHeld | CtrlrFx/BinStream.h:86-145 | And so a whole list. |
| BinStream.LongBlockIsCut | src/io/BinStream/BinStream.cpp:36-116 | A block of 65536 bytes or more comes back cut to its length modulo 65536, and the stream is good. |
| BinStream.LostBlockNoticedIff | src/io/BinStream/BinStream.cpp:36-45 | When not both bytes of the length of a block are left on the stream, the stream is used up, the block is empty, and the state is good if and only if the byte that is left, if any, and the rest of the uninitialised length are zero, with any alignment, swapping and byte order. |
| BinStream.LostBlockPasses | src/io/BinStream/BinStream.cpp:36-45 | Instances: nothing left and an uninitialised length of 0; one zero byte left and an uninitialised length of 7. |
| BinStream.ExtractedIsFound | CtrlrFx/BinStream.h:86-150 | Conversely, whatever is extracted in the good state lay on the stream as the layout of an item, a lost block length excepted; an extraction that fails sets both state bits and has used the stream up. |
| BinStream.AllExtractedIff | src/io/BinStream/BinStream.cpp:36-76 | For every stream and every list of types, the state was good after each extraction if and only if the stream held the layout of items for all of them, or for the first ones while only blocks followed, all lost with lengths that amount to zero. |
| BinStream.AllExtractedMeansThere | src/io/BinStream/BinStream.cpp:36-76 | So for lists without blocks it tells whether everything was there. |
| BinStream.ByteOrderAnswersOpposite | src/io/BinStream/BinStreamBase.cpp:52-60 | The byte order a stream says it has is never the one that was set, on any host. |
| BinStream.StreamRoundTrip | CtrlrFx/BinStream.h:86-284 | For all items (blocks shorter than 65536) that fit, and any align and swap setting shared by both sides, extraction returns what was inserted, over any targets and any uninitialised lengths. |
| BinStream.SameChunks | CtrlrFx/BinStream.h:215-262 | With align on and swap off, integers lie in the stream as they lie in the codec's buffer. |
| BinStream.StreamMatchesEncoder | CtrlrFx/BinStream.h:215-262 | The stream and the encoder over a zeroed buffer produce the same bytes, and the decoder reads what the stream wrote. |
| StreamObjects.SwapIf | CtrlrFx/swap.h:43-47 | Swaps a copy when the stream swaps. |
| StreamObjects.OutBinStream.Write | src/io/BinStream/BinStream.cpp:126-132 | Stores the bytes and sets the state anew. |
| StreamObjects.OutBinStream.Put | src/io/BinStream/BinStream.cpp:118-124 | Stores one byte and sets the state anew. |
| StreamObjects.OutBinStream.InsertWord | CtrlrFx/BinStream.h:215-225 | Aligns, swaps and writes. |
| StreamObjects.OutBinStream.Insert | src/io/BinStream/BinStream.cpp:112-116 | Every inserter does what the stream function says, the block inserter with its 16-bit length. |
| StreamObjects.InBinStream.Get | src/io/BinStream/BinStream.cpp:47-56 | Takes one byte or fails at the end. |
| StreamObjects.InBinStream.Read | src/io/BinStream/BinStream.cpp:70-76 | Takes the bytes and fails when there are too few. |
| StreamObjects.InBinStream.ExtractWord | CtrlrFx/BinStream.h:86-97 | Aligns, reads over the target and swaps it back, also when the read was short and left part of the target as it was. |
| StreamObjects.InBinStream.ExtractBool | CtrlrFx/BinStream.h:99-103 | True for any byte but 0, false at the end of the stream. |
| StreamObjects.InBinStream.ExtractByte | CtrlrFx/BinStream.h:105-109 | Takes one byte; at the end of the stream it gives 255. |
| StreamObjects.InBinStream.ExtractRaw | CtrlrFx/BinStream.h:137-150 | Reads the bytes of a floating-point value over the target, neither aligned nor swapped. |
| StreamObjects.InBinStream.ExtractBlock | src/io/BinStream/BinStream.cpp:36-45 | Reads a length and that many bytes over the beginning of the target, which must have room for them, and sets its size; a length that could not be read is what its uninitialised bytes were. |
| CircularQueue.SizeBounds | CtrlrFx/CircQueue.h:118-129 | Size plus remaining plus one is the capacity; full is one below the capacity; empty is size zero. |
| CircularQueue.SingleOps | CtrlrFx/CircQueue.h:265-328 | A put appends unless full, a get takes the oldest item unless empty. |
| CircularQueue.PutManyAppends | CtrlrFx/CircQueue.h:265-273 | Single puts in turn append the first items that fit. |
| CircularQueue.GetManyTakes | CtrlrFx/CircQueue.h:320-328 | Single gets in turn take the oldest items in order. |
| CircularQueue.CapacityIsOneLess | CtrlrFx/CircQueue.h:118-129 | An empty queue takes exactly one item less than its capacity. |
| CircularQueue.CircQueue.Size | CtrlrFx/CircQueue.h:242-249 | The size is the number of queued items at every wrap position. |
| CircularQueue.CircQueue.Remaining | CtrlrFx/CircQueue.h:126-129 | Remaining plus the items plus one is the capacity. |
| CircularQueue.CircQueue.Put | CtrlrFx/CircQueue.h:265-273 | One put in place. |
| CircularQueue.CircQueue.Get | CtrlrFx/CircQueue.h:320-328 | One get in place. |
| CircularQueue.CircQueue.CopyElem | CtrlrFx/CircQueue.h:254-259 | The copy loop overwrites exactly the target stretch. |
| CircularQueue.CircQueue.PutArray | CtrlrFx/CircQueue.h:279-299 | The bulk put has the result and the final queue of that many single puts stopping at full. |
| CircularQueue.CircQueue.PutBytes | CtrlrFx/CircQueue.h:370-395 | So has the specialisation for bytes with its third branch. |
| CircularQueue.CircQueue.GetArray | CtrlrFx/CircQueue.h:339-362 | The bulk get has the result and the final queue of that many single gets stopping at empty. |
| ReaderWriterLock.RdWrLock.RdLockSection | src/os/generic/RdWrLock.cpp:45-53 | rd_lock up to its wait or return. |
| ReaderWriterLock.RdWrLock.WrLockSection | src/os/generic/RdWrLock.cpp:73-91 | wr_lock from its first loop up to a wait or return. |
| ReaderWriterLock.RdWrLock.WrLockRest | src/os/generic/RdWrLock.cpp:79-91 | wr_lock from its second loop up to a wait or return. |
| ReaderWriterLock.RdWrLock.RdUnlockSection | src/os/generic/RdWrLock.cpp:57-69 | rd_unlock, with the broadcast when the last reader leaves. |
| ReaderWriterLock.RdWrLock.WrUnlockSection | src/os/generic/RdWrLock.cpp:96-105 | wr_unlock, false without a write lock. |
| ReaderWriterLock.RdWrLock.WrDemoteSection | src/os/generic/RdWrLock.cpp:110-121 | wr_demote, false without a write lock. |
| ReaderWriterLock.InvStep | src/os/generic/RdWrLock.cpp:45-121 | Every step of any call keeps exclusion and loses no wake-up, whichever sleeper a signal picks. |
| ReaderWriterLock.SafeOnAllRuns | src/os/generic/RdWrLock.cpp:45-121 | In every reachable state the write holders number wrlk, the read holders nrd, never both; wrwt is set exactly when one call is in the second writer stage; a sleeping reader or first-stage writer implies wrlk or wrwt; a sleeping second-stage writer implies wrlk or readers. |
| ReaderWriterLock.GrantedIff | src/os/generic/RdWrLock.cpp:45-91 | In every reachable state: a reader that looks at the lock gets it exactly when no call writes and no writer is in the second stage, so readers share it; a writer in the second stage exactly when no call reads or writes; a writer before that passes the first stage exactly when no other is in the second; otherwise it sleeps where it is. |
| ReaderWriterLock.LockReturnsIff | src/os/generic/RdWrLock.cpp:45-91 | So does a call of rd_lock or wr_lock that has just begun. |
| ReaderWriterLock.ReleaseAnswers | src/os/generic/RdWrLock.cpp:57-121 | In every reachable state an unlock or a demotion answers true exactly when some call holds the lock in that way, and then leaves one reader less, no writer, or one reader in place of the writer; otherwise it changes nothing. |
| ReaderWriterLock.WriterWakesOne | src/os/generic/RdWrLock.cpp:83-88 | A writer that takes the lock wakes a sleeper, if there is one. |
| ReaderWriterLock.OthersOnlyWake | src/os/generic/RdWrLock.cpp:45-121 | A step changes no call but its own, except that sleepers may wake, who then look again at what they waited for. |
| ReaderWriterLock.AllAsleepIsHeld | src/os/generic/RdWrLock.cpp:45-121 | When everybody who waits is asleep, some call holds the lock. |
| ReaderWriterLock.BoundedBypass | src/os/generic/RdWrLock.cpp:73-91 | From setting wrwt until that writer has the lock nobody else obtains it, 2*wrlk+nrd never grows and falls with every release or demote, so the writer waits for at most that many. |
| RecursiveLock.RecursiveMutex.LockSection | src/os/generic/RecursiveMutex.cpp:14-28 | lock up to its wait or return. |
| RecursiveLock.RecursiveMutex.RecheckSection | src/os/generic/RecursiveMutex.cpp:22-28 | lock from a wake-up on; only the level is looked at. |
| RecursiveLock.RecursiveMutex.TryLockSection | src/os/generic/RecursiveMutex.cpp:36-52 | trylock; false without any change when the condition variable is busy or somebody else owns the mutex. |
| RecursiveLock.RecursiveMutex.UnlockSection | src/os/generic/RecursiveMutex.cpp:59-67 | unlock, signalling when the level reaches zero. |
| RecursiveLock.SafeOnAllRuns | src/os/generic/RecursiveMutex.cpp:14-67 | In every reachable state the level of the owner is its locks minus its unlocks and everybody else's balance is zero; a free mutex with a sleeper has a woken waiter about to re-check, with barging, trylock and spurious wake-ups. |
| RecursiveLock.OneHolder | src/os/generic/RecursiveMutex.cpp:14-67 | Two threads never hold the mutex at once. |
| RecursiveLock.LockReturnsIff | src/os/generic/RecursiveMutex.cpp:14-28 | In every reachable state a lock returns at once if and only if no other thread holds the mutex, so the owner's second lock does, and the caller then has one lock more; otherwise it sleeps and nothing else changes. |
| RecursiveLock.TryLockReturnsIff | src/os/generic/RecursiveMutex.cpp:36-52 | A trylock that does not find the condition variable busy succeeds in exactly the same cases; it never sleeps. |
| RecursiveLock.RecheckReturnsIff | src/os/generic/RecursiveMutex.cpp:22-27 | A woken waiter gets the mutex if and only if nobody holds it, and sleeps again otherwise. |
| RecursiveLock.ReleaseWakes | src/os/generic/RecursiveMutex.cpp:59-67 | An unlock undoes one lock of its caller, if there is one; if that was the last it wakes the sleeper that the signal picks, and nobody else ever. |
| RecursiveLock.UnlockActsIffHeld | src/os/generic/RecursiveMutex.cpp:59-67 | An unlock acts exactly when the caller holds the mutex; by anybody else it changes nothing. |
| RecursiveLock.FreeWithSleepersProceeds | src/os/generic/RecursiveMutex.cpp:22-28 | When the mutex is free and somebody sleeps, a woken waiter exists whose next step takes the mutex. |
| MessageQueue.MsgQueue.constructor | CtrlrFx/MsgQueue.h:241-266 | A new queue of any capacity, zero included, is empty and has one slot token per slot. |
| MessageQueue.MsgQueue.DoPut | CtrlrFx/MsgQueue.h:305-316 | The critical section of a put, and the post of a data token. |
| MessageQueue.MsgQueue.DoGet | CtrlrFx/MsgQueue.h:323-334 | The critical section of a get, and the post of a slot token. |
| MessageQueue.MsgQueue.TryPut | CtrlrFx/MsgQueue.h:392-398 | Appends and moves a token, or fails exactly when there is no slot token, with other calls under way or not; on an idle queue that is exactly when it is full. |
| MessageQueue.MsgQueue.TryGet | CtrlrFx/MsgQueue.h:445-451 | Takes the oldest item and moves a token, or fails exactly when there is no data token, with other calls under way or not; on an idle queue that is exactly when it is empty. |
| MessageQueue.MsgQueue.Peek | CtrlrFx/MsgQueue.h:456-466 | Shows the oldest item without taking it; fails exactly when the queue is empty or the first, unlocked look saw it empty. |
| MessageQueue.MsgQueue.Full | CtrlrFx/MsgQueue.h:128-129 | True exactly when the queue is empty, which is the right answer if and only if the capacity is 0 or the queue is neither empty nor full. |
| MessageQueue.MsgQueue.Empty | CtrlrFx/MsgQueue.h:131-132 | True exactly when the queue is full, which is the right answer if and only if the capacity is 0 or the queue is neither empty nor full. |
| MessageQueue.PutAppends | CtrlrFx/MsgQueue.h:293-316 | With room, a put appends and no stored item is overwritten. |
| MessageQueue.GetTakesOldest | CtrlrFx/MsgQueue.h:293-334 | With an item, a get takes the oldest. |
| MessageQueue.PutWithoutRoomLosesOldest | CtrlrFx/MsgQueue.h:300-316 | Without the slot token the section would overwrite the oldest item. |
| MessageQueue.InvStep | CtrlrFx/MsgQueue.h:305-334 | Every step of every put and get keeps the token equations and the order. |
| MessageQueue.SafeOnAllRuns | CtrlrFx/MsgQueue.h:305-451 | In every reachable state of any number of putters and getters: slots + putters holding a slot + items + getters yet to post is the capacity, data + putters yet to post + getters holding a datum is the number of items, what was stored is what was taken followed by the ring, and every get has the item of its own rank. |
| MessageQueue.GetsReturnPuts | CtrlrFx/MsgQueue.h:304-333 | On every run the values that the ring has stored are those that the puts were begun with, in the order of their critical sections, as the list of actions alone tells; the gets have returned the first of them, one each and in order, and the rest is in the ring. |
| MessageQueue.GetReturnsByPlace | CtrlrFx/MsgQueue.h:304-333 | The k-th get to enter its critical section returns the value of the k-th put. |
| MessageQueue.EachPutOnce | CtrlrFx/MsgQueue.h:304-316 | No put has two values or stores twice. |
| MessageQueue.PastPutsStored | CtrlrFx/MsgQueue.h:304-316 | Every put that returned has stored. |
| MessageQueue.PutRunsThrough | CtrlrFx/MsgQueue.h:304-316 | In every reachable state with a slot token, a put that runs on is never stopped, appends its value and returns. |
| MessageQueue.GetRunsThrough | CtrlrFx/MsgQueue.h:322-334 | In every reachable state with a data token, a get that runs on is never stopped, takes the oldest item and returns it. |
| MessageQueue.TokenHoldersProceed | CtrlrFx/MsgQueue.h:300-334 | A put that has its token finds a free slot and a get that has its token finds an item. |
| MessageQueue.BlocksOnlyWhenFullOrEmpty | CtrlrFx/MsgQueue.h:367-451 | With nobody between token and post, a put blocks exactly when the queue is full and a get exactly when it is empty. |
| MessageQueue.PeekSeesNext | CtrlrFx/MsgQueue.h:456-466 | What peek sees is the item the next get takes. |
| SequenceLock.SeqLock.WriteLock | CtrlrFx/SeqLock.h:27-27 | Increments the counter, which wraps around. |
| SequenceLock.SeqLock.WriteUnlock | CtrlrFx/SeqLock.h:30-30 | Increments the counter, which wraps around. |
| SequenceLock.SeqLock.ReadBegin | CtrlrFx/SeqLock.h:41-41 | Returns the counter converted to an int, which is the counter exactly when that is a value of int. |
| SequenceLock.SeqLock.ReadRetry | CtrlrFx/SeqLock.h:52-56 | True when the value read at the beginning is odd or not the counter. |
| SequenceLock.ConvertedIsInt | CtrlrFx/SeqLock.h:41-41 | For a counter wider than int, the conversion gives the only value of int that has the counter's low 32 bits. |
| SequenceLock.AcceptedIff | CtrlrFx/SeqLock.h:40-56 | On every run, for every counter type and from every start: read_retry accepts a read if and only if it began at an even counter and the increments since are the detour from there to the value that the conversion compares equal to (none for a value of int) and then a whole number of rounds, none included. |
| SequenceLock.UndisturbedAcceptedIff | CtrlrFx/SeqLock.h:40-56 | A read that no write disturbed is accepted if and only if it began at an even counter that is a value of int. |
| SequenceLock.AcceptedReadIsSnapshot | CtrlrFx/SeqLock.h:26-56 | A read of all words, in any order and interleaved with the writer in any way, that need not be retried returned the object as it was at read_begin, provided the counter started even, was a value of int at read_begin (always true of a counter no wider than int) and has not gone round since. |
| SequenceLock.FoolsReader | CtrlrFx/SeqLock.h:40-56 | For every counter type and every even start: if some number of whole writes in the middle of a read brings the counter to the value read_begin returned, the read is accepted with words of two versions. |
| SequenceLock.WholeRoundFoolsReader | CtrlrFx/SeqLock.h:40-56 | For every counter type, as many increments as the counter has values do so: the bound on the increments is needed. |
| SequenceLock.WideCounterFoolsReader | CtrlrFx/SeqLock.h:40-56 | For every counter type wider than int and every even start that is not a value of int, fewer increments do so, and an undisturbed read is retried: the condition on the value is needed. |
| SequenceLock.WideCounterInstance | CtrlrFx/SeqLock.h:40-56 | A 64-bit counter 2^32 before its end accepts mixed words after 2^31 writes, and one at 2^32 has an undisturbed read retried. |
| SequenceLock.AlwaysRetriedIff | CtrlrFx/SeqLock.h:40-56 | From every start: a read that begins now is retried whatever happens to the counter if and only if a writer is at work and the counter started even, or none is and it started odd. |
| SequenceLock.OddStartFoolsReader | CtrlrFx/SeqLock.h:40-56 | From an odd start a read begun during a write can be accepted with words of two versions. |
| SequenceLock.ReadDuringWriteIsRetried | CtrlrFx/SeqLock.h:40-56 | From an even start a read begun while the writer is at work is always retried. |
| AcqPipeline.AcqFill | examples/data/AcqDemo/AcqDemo.cpp:121-127 | The loop fills the whole buffer with the count from its start on, and leaves the count behind it. |
| AcqPipeline.ProcessDouble | examples/data/AcqDemo/AcqDemo.cpp:185-186 | The processing loop doubles every word in place, modulo 65536. |
| AcqPipeline.CommCheck | examples/data/AcqDemo/AcqDemo.cpp:248-270 | The answer is true if and only if every word up to the position is the count from its start on in steps of two; otherwise the count is left as it was expected at the first wrong word. Every fifth buffer shows its first word as progress, and the buffer is cleared. |
| AcqPipeline.CheckFindsWrong | examples/data/AcqDemo/AcqDemo.cpp:250-259 | The same of the check alone, for every memory, stretch and count. |
| AcqPipeline.RingIsQueue | CtrlrFx/MsgQueue.h:305-334 | Under the tokens the two critical sections of the ring do to its contents what the pipeline's queues do. |
| AcqPipeline.InvStep | examples/data/AcqDemo/AcqDemo.cpp:109-276 | Every step of every thread keeps the tokens of the three queues and the order and contents of the buffers. |
| AcqPipeline.NoErrorOnAnyRun | examples/data/AcqDemo/AcqDemo.cpp:109-276 | For any number of buffers of any size and every interleaving the sender never meets an unexpected word, 16-bit wrap-around included, and every buffer is in exactly one queue or in one thread's hands. |
| AcqPipeline.WordsOnAnyRun | examples/data/AcqDemo/AcqDemo.cpp:120-272 | On every run the words themselves: of the buffers in flow order, the one j places behind the first unchecked is full of the j-th stretch of the count behind what was checked, doubled if it was processed, and these stretches are all that was filled and not checked. |
| AcqPipeline.WordsInHand | examples/data/AcqDemo/AcqDemo.cpp:160-272 | So the buffer that the sender is about to check holds the doubled count from what was checked on, and the one that the processor is about to process the count itself. |
| AcqPipeline.OnlyEmptyGetsBlock | examples/data/AcqDemo/AcqDemo.cpp:109-276 | No put ever blocks; a blocked thread waits for an item to get. |
| AcqPipeline.NeverAllBlocked | examples/data/AcqDemo/AcqDemo.cpp:109-276 | With at least one buffer some thread can always take a step. |
| RingPipeline.StepRefines | CtrlrFx/MsgQueue.h:305-334 | A thread may take a step over the ring buffers, whose sections look neither for room nor for an item, exactly when it may over the queues, and the contents of the rings are then the queues. |
| RingPipeline.RunRefines | examples/data/AcqDemo/AcqDemo.cpp:109-276 | Every run of the three threads over three rings is a run over the queues. |
| RingPipeline.NoErrorOverRings | examples/data/AcqDemo/AcqDemo.cpp:109-276 | On every run over the three rings the sender meets no unexpected word, the buffers filled and not yet checked hold the words that follow what was checked, and every buffer is in exactly one ring or hand. |
| RingPipeline.NoDeadlockOverRings | examples/data/AcqDemo/AcqDemo.cpp:109-276 | And no put blocks, whoever has a token proceeds, and with at least one buffer some thread can always take a step. |
| AcqBufQueues.AcqBufQueue.ResizeQueues | CtrlrFx/AcqBufQueue.h:133-141 | Makes distinct empty queues of the given capacity, zero included. |
| AcqBufQueues.AcqBufQueue.Fill | CtrlrFx/AcqBufQueue.h:152-153 | The loop puts distinct new buffers into queue zero in the order of creation. |
| AcqBufQueues.AcqBufQueue.Resize | CtrlrFx/AcqBufQueue.h:147-154 | Queue zero is full of new buffers of the given size and the others are empty, for any numbers of queues and buffers (there must be a queue to hold buffers). |
| AcqBufQueues.ResizedIsInitial | examples/data/AcqDemo/AcqDemo.cpp:286-292 | What resize leaves for three queues is the state from which the pipeline over the rings starts, for any number and size of buffers. |
| PacketHeader.LateScan | src/DistObj/DistObjSrvr.cpp:54-62 | Once a 'C' has been kept the scan takes the next 'X', or consumes everything when there is none. |
| PacketHeader.ScanStops | src/DistObj/DistObjSrvr.cpp:49-73 | On any stream with "CX" in it the scan accepts a header, never reads beyond the end of the first one, and stops exactly there if and only if no 'C' at an odd place before it is followed by an 'X' before it. |
| PacketHeader.AcceptedIff | src/DistObj/DistObjSrvr.cpp:49-73 | For every stream: a header is accepted if and only if "CX" is at an even place, or an 'X' follows somewhere behind a 'C' at an odd place, or the last read brings a single 'C' and the byte behind it is an 'X' left from the read before or from uninitialised memory. |
| PacketHeader.FalseHeaderIff | src/DistObj/DistObjSrvr.cpp:49-73 | A stream without "CX" passes for one with a header exactly in the last two cases. |
| PacketHeader.NothingToFind | src/DistObj/DistObjSrvr.cpp:49-73 | A stream without a 'C' is used up and no header is accepted, whatever the uninitialised bytes hold. |
| PacketHeader.JunkWithoutCIsSkipped | src/DistObj/DistObjSrvr.cpp:45-73 | Junk without a 'C', of odd or even length, is skipped exactly. |
| PacketHeader.JunkPassesForHeader | src/DistObj/DistObjSrvr.cpp:58-62 | An instance of a kept 'C': "C", junk, "X" is accepted although "CX" does not occur. |
| PacketHeader.OldXPassesForHeader | src/DistObj/DistObjSrvr.cpp:52-62 | Instances of an old 'X': a trailing 'C' behind an 'X', and a single 'C' over an uninitialised 'X', are accepted; over anything else the single 'C' is not. |
| DistObj.DistObjRegistry.constructor | src/DistObj/DistObj.cpp:14-17 | A new registry is empty. |
| DistObj.DistObjRegistry.RegisterObj | src/DistObj/DistObj.cpp:21-39 | Appends an entry behind the others, or fails on a full table and changes nothing, whatever the memory behind the table holds. |
| DistObj.DistObjRegistry.GetObj | src/DistObj/DistObj.cpp:43-66 | Finds the first object registered under a key, or none, whatever the memory behind the table holds. |
| DistObj.LookupIs | src/DistObj/DistObj.cpp:43-66 | The first entry with a key counts, and without one there is no object. |
| DistObj.CommandOnChannel | CtrlrFx/BinDistObj.h:35-53 | A command packet byte by byte: "CX", byte order 0, type 0, the number of bytes that follow, message number, target, operation. |
| DistObj.ResponseOnChannel | src/DistObj/DistObjSrvr.cpp:211-229 | A response byte by byte: "CX", byte order 0, type 1, the number of bytes that follow, the command's message number, the handler's answer, what it encoded. |
| DistObj.ReadsWhatIsThere | src/DistObj/DistObjSrvr.cpp:166-171 | Reading a payload stores the bytes that are there, up to the limit, and nothing else. |
| DistObj.ShortHeaderKeeps | src/DistObj/DistObjSrvr.cpp:69-72 | A packet header keeps the bytes that do not arrive. |
| DistObj.ShortCommandKeeps | src/DistObj/DistObjSrvr.cpp:185-189 | A command header keeps the fields that are not within the payload. |
| DistObj.NoCommandIsIgnored | src/DistObj/DistObjSrvr.cpp:174-180 | A packet that is no command is read and not answered. |
| DistObj.ShortResponse | src/DistObj/DistObjSrvr.cpp:108-114 | When the channel ends within the response headers the client gives up with an error. |
| DistObj.RequestServed | src/DistObj/DistObjSrvr.cpp:142-231 | For a request behind any junk without a 'C' the round consumes exactly the junk and the request, applies the handler, and sends its answer with the request's message number. |
| DistObj.FailedResponseIsEmptyIff | src/DistObj/DistObjSrvr.cpp:197-229 | The response of a failed command is thrown away, as the comment has it, if and only if not even the first value its handler encoded was accepted; otherwise what was encoded is sent. |
| DistObj.FailedResponseIsSent | src/DistObj/DistObjSrvr.cpp:197-229 | A handler that encodes a byte and fails has it sent, against the comment. |
| DistObj.UntouchedResponseIsEmpty | src/DistObj/DistObjSrvr.cpp:197-229 | A command that fails before anything is encoded sends its code alone. |
| DistObj.ReceivesResponse | src/DistObj/DistObjSrvr.cpp:108-125 | A response that fits is taken off the channel completely; the client gets the answer and a buffer in front of the response values. |
| DistObj.PacketDelivers | src/DistObj/DistObjSrvr.cpp:91-231 | The exchange when the packet may be longer than the request in it and the response longer than its values, as a codec that ran out of room leaves them. |
| DistObj.ExchangeDelivers | src/DistObj/DistObjSrvr.cpp:91-231 | For every request, handler and byte order, a whole exchange gives the client the handler's answer and values, changes the objects as the handler says and leaves both directions of the channel empty. |
| DistObjServer.DistObjSrvr.NextMsgId | CtrlrFx/DistObjSrvr.h:60-61 | Message numbers count up and wrap around at 2^32. |
| DistObjServer.DistObjSrvr.FindMagic | src/DistObj/DistObjSrvr.cpp:51-65 | The scanning loop with its tests of the quit flag, whatever its uninitialised bytes hold and whenever the flag is set. |
| DistObjServer.DistObjSrvr.GetPktHdr | src/DistObj/DistObjSrvr.cpp:49-73 | Scan, then the rest of the header; -1 when the channel ends first, the closing code when the server is told to quit first. |
| DistObjServer.DistObjSrvr.Dispatch | src/DistObj/DistObj.cpp:77-82 | Runs the handler of the registered object, or answers that the object is unknown and touches nothing. |
| DistObjServer.UnknownObjectAnswered | src/DistObj/DistObj.cpp:77-82 | A command for an unknown object gets the error code alone and changes nothing. |
| DistObjServer.DistObjSrvr.Quit | src/DistObj/DistObjSrvr.cpp:130-135 | The next test of the quit flag finds it set. |
| DistObjServer.DistObjSrvr.ServePacket | src/DistObj/DistObjSrvr.cpp:166-229 | The body of the server loop behind the header. |
| DistObjServer.DistObjSrvr.Run | src/DistObj/DistObjSrvr.cpp:142-231 | The loop ends with the channel or the quit flag and has done to the buffers, the objects and the channel what all its rounds together do. |
| ServerRuns.RunAnswersInOrder | src/DistObj/DistObjSrvr.cpp:142-231 | For any number of requests with any C-free junk between and behind them the loop sends exactly one response to each, in order, and applies the handlers one after the other. |
| ServerRuns.ScanUntilIsScan | src/DistObj/DistObjSrvr.cpp:54-65 | With the quit flag clear the loop is the scan; it tests the flag at most once for each byte. |
| ServerRuns.QuitsBetweenPackets | src/DistObj/DistObjSrvr.cpp:142-231 | Whenever the flag is set, the server stops between two packets: what it has sent and the objects are those of a number of whole rounds, none of which began with the flag set. |
| ServerRuns.SomeIsPrefix | src/DistObj/DistObjSrvr.cpp:142-231 | What it has sent then is the beginning of what it would have sent. |
| ServerRuns.PatientServer | src/DistObj/DistObjSrvr.cpp:142-231 | As long as the flag stays clear everything on the channel is served. |
| DistObjServer.DistObjSrvr.Send | src/DistObj/DistObjSrvr.cpp:91-125 | Sends the packet behind its header and takes the response off the channel. |
| DigIO.LocalBits | examples/DistObj/DigIOSim/DigIOSim.cpp:50-96 | What each call does to each bit of the port and what it returns. |
| DigIO.WireNumbers | src/DistObj/DigIO_stub.cpp:27-155 | Class and instance number, command numbers and arguments of each call as they travel. |
| DigIO.FailureGivesDefaults | src/DistObj/DigIO_stub.cpp:27-112 | When the answer is not 0 a stub returns 0 or false. |
| DigIO.ReachesHandler | src/DistObj/DigIO_skel.cpp:20-172 | Target key and command number of every call lead to its own handler. |
| DigIO.HandlerAnswers | src/DistObj/DigIO_skel.cpp:56-172 | Every handler applies the call to the port and encodes what the port returns. |
| DigIO.SetWithoutValueSetsHigh | src/DistObj/DigIO_skel.cpp:134-146 | A set command without the optional value sets the bit. |
| DigIO.UnknownCommand | src/DistObj/DigIO_skel.cpp:44-117 | A command number without a handler gives -1 from the input port and an error code from the output port, and changes nothing. |
| DigIO.UnknownCommandAnswered | src/DistObj/DigIO_skel.cpp:44-117 | Through the server such a command gets the error code alone and changes no bit. |
| DigIO.FailureSendsCodeAlone | src/DistObj/DigIO_skel.cpp:44-172 | Whatever a command asks for, an error answer of the ports is sent alone and no bit has changed: here the server keeps what its comment says. |
| DigIO.RemoteIsLocal | src/DistObj/DigIO_stub.cpp:27-155 | One call through stub, channel, server and skeleton returns what the local call returns and leaves the same bits, and the channel is empty afterwards. |
| DigIO.SessionsAgree | src/DistObj/DigIO_stub.cpp:27-155 | So does every sequence of calls, with the message numbers wrapping around, either byte order, and any contents of uninitialised memory. |
| DigIOObjects.GetMbrPtr | src/DistObj/DigIO_skel.cpp:29-40 | The search ends at the null entry and finds the first handler of a command. |
| DigIOObjects.FindsOwn | src/DistObj/DigIO_skel.cpp:20-25 | What the search finds is a row of the map for that command. |
| DigIOObjects.DigInImpl.Value | examples/DistObj/DigIOSim/DigIOSim.cpp:57-59 | The bit, or false outside the port. |
| DigIOObjects.DigInImpl.ValueCmd | src/DistObj/DigIO_skel.cpp:68-78 | Reads the bit number, asks the port, encodes the answer. |
| DigIOObjects.DigInImpl.InvokeOp | src/DistObj/DigIO_skel.cpp:44-50 | Searches the map and runs the handler, or answers -1. |
| DigIOObjects.DigOutImpl.SetHigh | examples/DistObj/DigIOSim/DigIOSim.cpp:73-75 | Sets one bit high. |
| DigIOObjects.DigOutImpl.Set | examples/DistObj/DigIOSim/DigIOSim.cpp:78-82 | Only the addressed bit takes the value; a bit outside the port is ignored. |
| DigIOObjects.DigOutImpl.Clear | examples/DistObj/DigIOSim/DigIOSim.cpp:85-90 | Only the addressed bit goes low. |
| DigIOObjects.DigOutImpl.Toggle | examples/DistObj/DigIOSim/DigIOSim.cpp:92-96 | Only the addressed bit is inverted. |
| DigIOObjects.DigOutImpl.SetCmd | src/DistObj/DigIO_skel.cpp:134-146 | Reads the bit number and the optional value and sets the bit. |
| DigIOObjects.DigOutImpl.ClearCmd | src/DistObj/DigIO_skel.cpp:150-159 | Reads the bit number and clears the bit. |
| DigIOObjects.DigOutImpl.ToggleCmd | src/DistObj/DigIO_skel.cpp:163-172 | Reads the bit number and toggles the bit. |
| DigIOObjects.DigOutImpl.InvokeOp | src/DistObj/DigIO_skel.cpp:110-117 | Searches the map and runs the handler, or answers with an error code. |
| DigIOObjects.RegisterPorts | examples/DistObj/DigIOSim/DigIOSim.cpp:120-123 | The registry then holds the two ports under their keys. |
| DigIOObjects.DigStub.PutCmdHdr | src/DistObj/DigIO_stub.cpp:87-92 | Encodes a fresh message number, the target and the command. |
| DigIOObjects.DigStub.InputWidth | src/DistObj/DigIO_stub.cpp:27-44 | Sends the width request and decodes the answer, 0 on failure. |
| DigIOObjects.DigStub.Value | src/DistObj/DigIO_stub.cpp:49-68 | Sends the bit number and decodes the answer, false on failure. |
| DigIOObjects.DigStub.OutputWidth | src/DistObj/DigIO_stub.cpp:97-112 | Sends the width request and decodes the answer, 0 on failure. |
| DigIOObjects.DigStub.Set | src/DistObj/DigIO_stub.cpp:117-127 | Sends bit and value and takes the answer off the channel. |
| DigIOObjects.DigStub.Clear | src/DistObj/DigIO_stub.cpp:132-141 | Sends the clear command and takes the answer off the channel. |
| DigIOObjects.DigStub.Toggle | src/DistObj/DigIO_stub.cpp:146-155 | Sends the toggle command and takes the answer off the channel. |
| DigIOObjects.StubSeesLocal | src/DistObj/DigIO_stub.cpp:27-155 | When what a stub method sends reaches the server and what the server sends is what the method receives, the method returns what the local call returns, the server's bits are those of the local call, and nothing is left on the channel. |
| IdlCompiler.CmdConstName | tools/cfxidl/Func.cpp:49-56 | The constant is the name in upper case with "_CMD" behind it. |
| IdlCompiler.UpperIs | tools/cfxidl/Func.cpp:49-56 | Small letters become capitals and nothing else changes. |
| IdlCompiler.ErrVals | tools/cfxidl/cfxidl.cpp:47-66 | A failed stub returns nothing for void, false for bool, zero for numbers and a default object for anything else. |
| IdlCompiler.CountParams | tools/cfxidl/Iface.cpp:195-205 | Counts the IN and INOUT parameters, and the OUT and INOUT ones. |
| IdlCompiler.InOperandPlaces | tools/cfxidl/Iface.cpp:208-216 | The operands a stub encodes are the IN and INOUT parameters in order and no others, the INOUT ones as pointers. |
| IdlCompiler.InNamePlaces | tools/cfxidl/Iface.cpp:365-375 | The names a handler reads are those of the IN and INOUT parameters in order and no others. |
| IdlCompiler.OutNamePlaces | tools/cfxidl/Iface.cpp:230-236 | The names that results are read into or sent from are those of the OUT and INOUT parameters in order and no others. |
| IdlCompiler.CreateIface | tools/cfxidl/Iface.cpp:72-83 | The enumeration lists the functions' constants in order and ends with N_CMD. |
| IdlCompiler.CreateStubFunc | tools/cfxidl/Iface.cpp:184-244 | The statements of a stub for any function: which arguments are sent, whether the answer is looked at, which results are taken and in which order. |
| IdlCompiler.CreateStubSrc | tools/cfxidl/Iface.cpp:154-247 | One stub per function, in order. |
| IdlCompiler.CreateHandler | tools/cfxidl/Iface.cpp:341-408 | The statements of a handler for any function: variables, arguments read, call, results sent. |
| IdlCompiler.CreateSkelSrc | tools/cfxidl/Iface.cpp:336-408 | The command table in order with a null at its end, and one handler per function. |
| GeneratedCode.InsPlaces | tools/cfxidl/Iface.cpp:195-216 | The values that go in are the arguments of the IN and INOUT parameters at their places, and no others. |
| GeneratedCode.OutsPlaces | tools/cfxidl/Iface.cpp:390-402 | The values that come out are the arguments of the OUT and INOUT parameters at their places, and no others. |
| GeneratedCode.PutBackPlaces | tools/cfxidl/Iface.cpp:230-240 | Results go to the OUT and INOUT arguments from their places, and IN arguments stay. |
| GeneratedCode.DirectMeans | tools/cfxidl/Iface.cpp:377-388 | A call on the object itself, by the directions: the method is handed the arguments of the IN and INOUT parameters in order; afterwards the OUT and INOUT arguments are what it stored and the IN arguments what they were. |
| RemoteProcedure.ConstIsIndex | tools/cfxidl/Iface.cpp:75-78 | Every command constant has the place of its function as value, and N_CMD the number of functions. |
| RemoteProcedure.EnumDistinctIff | tools/cfxidl/Iface.cpp:75-78 | The enumeration has no name twice if and only if the upper-cased function names differ from each other and from "N". |
| RemoteProcedure.InvokeReaches | tools/cfxidl/Iface.cpp:336-419 | invoke with op below N runs the handler of the op-th function; N hits the sentinel, and everything from N on gives -1 and touches nothing. |
| RemoteProcedure.HandlerRuns | tools/cfxidl/Iface.cpp:341-408 | The generated handler passes the arguments that can be decoded to the method in their places, and what its uninitialised variables hold (false for a bool) for the others, and encodes outgoing arguments and return value in order. |
| RemoteProcedure.ArrivedPlaces | tools/cfxidl/Iface.cpp:341-375 | By the directions, what a handler's variables hold when only the first of the values could be read: those at the places of the IN and INOUT parameters, false for the bools that are missing, and otherwise what they held. |
| RemoteProcedure.ArrivedIns | tools/cfxidl/Iface.cpp:341-408 | The values passed in are as many as were declared, and begin with those that arrived. |
| RemoteProcedure.PutFirstPlaces | tools/cfxidl/Iface.cpp:230-240 | By the directions, what the arguments are when only the first of the results could be read. |
| RemoteProcedure.ServerAnswers | tools/cfxidl/Iface.cpp:336-419 | Through registry and invoke a request for a declared function, carrying all of its arguments or a beginning of them, is answered with what the response buffer takes of what the object gives for what the method is passed. |
| RemoteProcedure.UnknownOpAnswered | tools/cfxidl/Iface.cpp:412-417 | Through the server a number without a function gets -1 alone and changes nothing. |
| RemoteProcedure.FailureSendsCodeAlone | tools/cfxidl/Iface.cpp:341-417 | Whatever a command asks for, an error answer of a generated skeleton is sent alone and the object has not changed. |
| RemoteProcedure.StubHeadRuns | tools/cfxidl/Iface.cpp:192-216 | The generated stub encodes the header and the incoming arguments in order. |
| RemoteProcedure.StubTailRuns | tools/cfxidl/Iface.cpp:218-242 | The generated stub puts the results that have arrived into the right arguments; it returns the return value, or its error value if a result is missing, except that a void function does not notice. |
| RemoteProcedure.FailureReported | tools/cfxidl/Iface.cpp:218-242 | On a negative answer the stub stores nothing and returns its error value, except that a void function without outgoing parameters does not look. |
| RemoteProcedure.Encodes | CtrlrFx/BufCodec.h:144-155 | The stub's buffer, and the server's, takes the longest prefix of the values that fits, and leaves no room for the next one behind it. |
| RemoteProcedure.RemoteMeansArrived | tools/cfxidl/Iface.cpp:154-420 | For every interface with usable names, every function with any list of in, out and inout parameters and any return type, every object and all arguments and results, whether or not they fit the buffers: the remote call leaves the object as the direct call does in which the arguments that were not sent are replaced by what the handler's variables held, stores the results that the response had room for, returns the return value, or the error value of a function that is not void if a result is missing, and leaves the channel empty. |
| RemoteProcedure.DefaultsFit | src/DistObj/DistObjSrvr.cpp:15-39 | With buffers of the default size at both ends this holds of all calls whose values have the declared types. |
| RemoteProcedure.EverythingFits | tools/cfxidl/Iface.cpp:154-420 | Results that fit all arrive. |
| RemoteProcedure.RemoteMeansDirect | tools/cfxidl/Iface.cpp:154-420 | For every interface with usable names, every function with any list of in, out and inout parameters and any return type, every object and all values that fit the buffers: the remote call gives the outgoing arguments, return value and object state of the direct call, and leaves the channel empty. |
| RemoteProcedure.SessionsAgree | tools/cfxidl/Iface.cpp:154-420 | So does every sequence of such calls on one connection. |

## Left out

- Sockets, serial devices, threads, priorities and clocks: the channel is a byte sequence, a semaphore a counter, and a timed wait that runs out is a call that stops waiting.
- The lexer and parser of the interface language, and the layout of the generated text: only the statements carry meaning. Parameter names that clash with the generated local variables, and out arguments that alias each other, are taken not to occur. An implementation is taken not to read an out argument.
- RemoteProcedure.RemoteMeansArrived: says nothing of a packet that overruns the buffer it is received in, which cannot happen between buffers of the default size; a response that overruns the stub's buffer is written beyond it.
- DistObjServer.DistObjSrvr.Send: requires that the announced response fits the buffer, because the original does not look and would write beyond it.
- DigIOObjects.DigStub.InputWidth: requires that the announced response fits the 256-byte buffer, because the original does not look and would write beyond it.
- DigIOObjects.DigStub.Value: requires that the announced response fits the 256-byte buffer, because the original does not look and would write beyond it.
- DigIOObjects.DigStub.OutputWidth: requires that the announced response fits the 256-byte buffer, because the original does not look and would write beyond it.
- DigIOObjects.DigStub.Set: requires that the announced response fits the 256-byte buffer, because the original does not look and would write beyond it.
- DigIOObjects.DigStub.Clear: requires that the announced response fits the 256-byte buffer, because the original does not look and would write beyond it.
- DigIOObjects.DigStub.Toggle: requires that the announced response fits the 256-byte buffer, because the original does not look and would write beyond it.
- Server buffers are values that the loop reassigns, not objects: handlers see codec values. In-place update of the server's buffers is therefore modelled only by `Buffers`, `BufCodec` and the port classes.
- DistObjServer.DistObjSrvr.GetPktHdr: does not model a device error on the second read, since the channel has none.
- Array put and get of the codec for items larger than a byte: the original counts items but moves bytes.
- The swapping codec: it neither aligns nor keeps its state.
- StreamObjects.InBinStream.ExtractBlock: requires that the length fits the target, because the original does not look and would write beyond it.
- A null stream area is treated as an empty one, which behaves alike.
- `AcqBufQueue::clear` and `release`, and the null buffers that end the acquisition demo: the first calls a member that does not exist and the second does not end.
- AcqPipeline.NoErrorOnAnyRun: a thread's work on the buffer it holds is one step, since no other thread can reach the buffer.
- `MsgSlot`, whose signal and reset break the counting of its semaphores.
- SequenceLock.AcceptedReadIsSnapshot: memory ordering is sequentially consistent.
- The byte version of the circular queue's bulk get, which uses an undeclared member; its generic version is modelled.
- Device, buffered-device and standard-I/O streams, stacks, arrays, pools, time units and state machines: device calls, or members that would add only easy statements.
- The value of floating-point numbers: they are opaque bytes.
