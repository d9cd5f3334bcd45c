# Models of the streaming core

This project models the algorithmic core of the C library `moonlight-common-c` that the streaming server links, and
proves what that code is for. Five parts are modelled; `dafny verify dfyconfig.toml` checks all of them.

**The range coder of ENet** (`enet/compress.c`). `Interval` is the carry-less 32-bit coder, `Ppm` the order-2 model in
its textbook form (contexts keyed by the last bytes, plain tables of counts), and `RoundTrip` proves that decoding
inverts encoding for every text. `SymbolTree` and `SymbolArena` refine the tables to what the C code has: one array of
4096 nodes that are at once symbols of one context's search tree and contexts of their own, linked by offsets.
`RangeSteps` and `RangeCoder` are the loops of the coder, the compressor and the decompressor on arrays, proved against
`Encode` and `Decode`. `StreamFormat` states that format in plain numbers: first step, adaptation, narrowing, shifting
and reading. `ModelLockstep` says that the two arenas of one transmission are isomorphic after every byte; `PacketCompression` is
the use that the protocol makes of it.

**The erasure code** (`reedsolomon/rs.c`). `Field` defines the field of 256 elements by shifting and reducing
polynomials, `FieldLaws` proves that it is one, with a generator, and `FieldTables` fills the tables of the C code.
`Inversion` and `MatrixInversion` are the in-place Gauss-Jordan inversion with full pivoting, seen as exchanging
arguments and results of a linear map one at a time. `Cauchy` proves without determinants that a combination of Cauchy
columns has fewer zeros than nonzero coefficients; `ErasureCode`, `ShardCoding`, `ErasureRecovery` and `ErasureGroups`
build the code, encode, and reconstruct on top of that.

**The reliable channel of ENet** (`enet/peer.c`, `enet/protocol.c`, `enet/list.c`). `SequenceNumbers` relates the
16-bit numbers to unbounded ones, `Packets` cuts packets into fragments, `Incoming` states the receiver's decisions as
functions on 16-bit numbers, and `Arrival` and `Delivery` say what they mean for the packets sent. `ReliableLink` is
the machine of both endpoints and a network that loses, repeats and reorders commands and acknowledgements, with its
invariant and the theorems about all its runs, and `ReliableProgress` says exactly what it can deliver. `Receiver` is
the receiving side as it works, a class whose methods do what `Incoming` says; `ReliableSender` is the sending side,
with its queue, sent list, window counters and bit mask (`SenderWindows`, `UsedWindows`), each step of which is a step
of the sender in `ReliableLink`. `CircularList` is the pointer structure of the C code's lists; the two classes use
sequences in their place.

**Bandwidth and counters of a host** (`enet/host.c`, with `enet/peer.c` and `enet/protocol.c`). `Host` is a class whose
methods change the states of its peers and keep the two counters that the allocation of bandwidth relies on; `Bandwidth`
holds the arithmetic of that allocation.

**The blocking queue and the input batching** (`src/LinkedBlockingQueue.c`, `src/InputStream.c`). `BlockingQueue` is the
linked queue with its critical sections, `QueueThreads` interleaves them with signals and sleeping consumers, and
`InputBatching` is what the sender thread does with relative mouse movements, controller packets and scrolling.

The constants of the protocol are those of `enet/include/enet/enet.h` (16 windows of 4096 numbers, 8 free windows, a
throttle scale of 32, the order of the states of a peer) and `enet/include/enet/protocol.h` (at most 1024 * 1024
fragments in a packet).

What the code does differently from what one might expect:

- `mul` with coefficient 0 clears no byte (rs.c:108-118). `MatrixInversion.MulInto` models that, and
  `ErasureCode.CoefficientNonzero` and `ErasureGroups.ParityNonzero` prove that the branch is never taken.
- The limit on the number of fragments admits packets that can never arrive. A stream can be handed on if and only if
  none of its packets spans more than 7 windows: `ReliableProgress.DeliverableExactly`. On a fresh channel that is less
  than 32768 fragments.
- An old number seems new if it is 10 to 15 windows behind: `SequenceNumbers.StaleAccepted`, with the condition at any
  distance. For a fragment that is measured from the start of its packet, so a copy only 3 windows behind can be too old:
  `ReliableProgress.LateFragment`. What becomes of such a copy depends on what is pending under its 16-bit number:
  it adds a packet, is dropped or refused, or goes into the pending packet, and then bytes that were never sent
  can be handed on. `Delivery.StaleCopy` says exactly when it has no effect; `ReliableProgress.MixedIn` and
  `ReliableProgress.WrongBytes` are reachable states where it mixes in. The machine therefore delivers no copy whose
  packet starts more than 9 windows behind the receiver.
- An acknowledgement 16 windows old can remove another command: `ReliableProgress.LateAcknowledgement`. The machine
  delivers only those of the last 16 windows, for which `ReliableLink.AcknowledgeRight` shows that none does.
- Acknowledged implies stored for packets of any number of fragments, because the sender starts no window while the one
  before it is full (protocol.c:1459), which holds it back until the receiver has moved on:
  `ReliableLink.SendSafe`.
- The adjustment of outgoing shares subtracts a peer's allowance, not its data, from the demand (host.c:392-393), so the
  common throttle does not rise from pass to pass as it does in water-filling: `Bandwidth.ThrottleFalls`.
  `Host.Host.ShareOutgoing` states exactly what it is; the allocation of incoming bandwidth is max-min fair, with the
  least common limit.
- The limits that peers are told add up to no more than the host's bandwidth, but 0 means no limit (host.c:446-454,
  469-472). Every peer is limited if and only if each has a limit of its own and the host's bandwidth is at least the
  number of connected peers: `Bandwidth.LimitedExactly`, with `Bandwidth.TooLittleToDivide` and
  `Bandwidth.NoLimitOfItsOwn` for the two ways to fail.
- The queue may forget a consumer whenever there is more than one, whatever its bound:
  `QueueThreads.NoneForgottenExactly`.

## Model

| member | source | states |
|---|---|---|
| RoundTrip.DecodeEncode | moonlight-web-stream-tsla/moonlight-common-sys/moonlight-common-c/enet/compress.c:498-627 | decompressing the compressed form of any text, with any amount of room, gives the text, and reports too little room exactly when there is too little |
| RoundTrip.EncodeInjective | moonlight-web-stream-tsla/moonlight-common-sys/moonlight-common-c/enet/compress.c:246-342 | no two texts have the same compressed form, although nothing in it marks the end |
| RoundTrip.ReadsEncoded | moonlight-web-stream-tsla/moonlight-common-sys/moonlight-common-c/enet/compress.c:529-597 | a decoder with the encoder's contexts reads the byte that was written, from the context it was written in, and then stands at the interval and the stream position of the encoder |
| RoundTrip.ReadsEnd | moonlight-web-stream-tsla/moonlight-common-sys/moonlight-common-c/enet/compress.c:529-580 | with the operations used up, every context reads slot 0, an escape, down to the root, where the decoder stops |
| RoundTrip.OwnerUnique | moonlight-web-stream-tsla/moonlight-common-sys/moonlight-common-c/enet/compress.c:373-438 | searching a context for the byte that owns a slot finds the byte whose slots contain it, and no other |
| RangeCoder.Compress | moonlight-web-stream-tsla/moonlight-common-sys/moonlight-common-c/enet/compress.c:246-342 | the imperative compressor writes exactly the encoding of the concatenated buffers and returns its length, or returns 0 when it does not fit or there is no input; after each byte its arena holds the model of the text so far |
| RangeCoder.CompressByte | moonlight-web-stream-tsla/moonlight-common-sys/moonlight-common-c/enet/compress.c:286-336 | one byte: the bytes written are those of its escapes and symbol, every context on the way has adapted and is linked to its parent, and failure means that the output is full |
| RangeCoder.CompressIn | moonlight-web-stream-tsla/moonlight-common-sys/moonlight-common-c/enet/compress.c:293-315 | one context of that search: an escape or the symbol is written, and the context alone adapts |
| RangeCoder.Decompress | moonlight-web-stream-tsla/moonlight-common-sys/moonlight-common-c/enet/compress.c:498-627 | the imperative decompressor returns the text that a stream decodes to, and 0 if it does not fit or the stream cannot be read; after each byte of an encoded text its arena holds the model of the text so far |
| RangeCoder.DecodeIn | moonlight-web-stream-tsla/moonlight-common-sys/moonlight-common-c/enet/compress.c:536-567 | one context of the decoder: what is decoded there is what the specification reads, and the context adapts as the encoder's did |
| RangeCoder.Patch | moonlight-web-stream-tsla/moonlight-common-sys/moonlight-common-c/enet/compress.c:598-615 | the contexts longer than the one a byte was decoded in adapt afterwards, in the other order than the encoder's, to the same model |
| RangeCoder.Advance | moonlight-web-stream-tsla/moonlight-common-sys/moonlight-common-c/enet/compress.c:331-336 | the next prediction context is the last two bytes, and the arena is emptied exactly when it is nearly full |
| RoundTrip.DecoderFollows | moonlight-web-stream-tsla/moonlight-common-sys/moonlight-common-c/enet/compress.c:529-623 | after every byte the decoder's model is the encoder's, so both are emptied at the same byte |
| ModelLockstep.Isomorphic | moonlight-web-stream-tsla/moonlight-common-sys/moonlight-common-c/enet/compress.c:148-157 | arenas of the same model use the same number of slots, never more than 4096, and correspond slot by slot in both directions: byte, count, escapes, total and the parent's context agree although slots were filled in different orders |
| ModelLockstep.Lockstep | moonlight-web-stream-tsla/moonlight-common-sys/moonlight-common-c/enet/compress.c:286-336 | the arena while a text is compressed and the arena while it is decompressed are isomorphic after every byte, and emptied at the same bytes |
| PacketCompression.Pack | moonlight-web-stream-tsla/moonlight-common-sys/moonlight-common-c/enet/protocol.c:1689-1706 | a datagram is sent compressed exactly when that makes it shorter, otherwise as it is |
| PacketCompression.Unpack | moonlight-web-stream-tsla/moonlight-common-sys/moonlight-common-c/enet/protocol.c:1052-1068 | a compressed datagram that does not decode, or decodes to nothing, is dropped; any other is replaced by its text |
| PacketCompression.Transmit | moonlight-web-stream-tsla/moonlight-common-sys/moonlight-common-c/enet/protocol.c:1689-1706 | whatever the arenas held before, what one side packs the other unpacks; if it went compressed, both arenas were isomorphic after every byte and emptied at the same bytes |
| StreamFormat.FirstStep | moonlight-web-stream-tsla/moonlight-common-sys/moonlight-common-c/enet/compress.c:246-329 | every text starts with the step of its first byte v from slot 1 + v on, 1 of 257: one escape, then one slot for each byte |
| StreamFormat.OpsInNumbers | moonlight-web-stream-tsla/moonlight-common-sys/moonlight-common-c/enet/compress.c:286-324 | the steps of a byte: in the root, and in a context that knows it, from behind the escapes and the smaller bytes on; any other context writes an escape, if that can be told apart, and leaves it to the next shorter one |
| StreamFormat.RootAdapts | moonlight-web-stream-tsla/moonlight-common-sys/moonlight-common-c/enet/compress.c:317-329 | the root adds 3 to a count and to its total, and halves exactly if the count with its own slot was above 250 or the total gets above 65280 |
| StreamFormat.OtherAdapts | moonlight-web-stream-tsla/moonlight-common-sys/moonlight-common-c/enet/compress.c:301-315 | any other context adds 2 to a count, and 5 escapes for a byte it did not know, and halves exactly if the count was above 251 or the total gets above 65280 |
| StreamFormat.LearnInNumbers | moonlight-web-stream-tsla/moonlight-common-sys/moonlight-common-c/enet/compress.c:286-329 | the contexts that adapt are those from the longest down to the one the byte is coded in, each gets an empty longer one for the byte unless it has one, and no other changes |
| StreamFormat.OrderInNumbers | moonlight-web-stream-tsla/moonlight-common-sys/moonlight-common-c/enet/compress.c:286-316 | the one it is coded in is the longest that knows it, or the root |
| StreamFormat.CodedInNumbers | moonlight-web-stream-tsla/moonlight-common-sys/moonlight-common-c/enet/compress.c:331-336 | the next context is the last two bytes, and everything is forgotten exactly when 4094 of the 4096 slots are used |
| StreamFormat.NarrowInNumbers | moonlight-web-stream-tsla/moonlight-common-sys/moonlight-common-c/enet/compress.c:123-125 | a step takes its part of the interval cut into equal parts |
| StreamFormat.NormalizeInNumbers | moonlight-web-stream-tsla/moonlight-common-sys/moonlight-common-c/enet/compress.c:126-136 | a byte is shifted out exactly while both ends have the same top byte or the range is below 65536, which is then cut at the next multiple of 65536 |
| StreamFormat.FlushInNumbers | moonlight-web-stream-tsla/moonlight-common-sys/moonlight-common-c/enet/compress.c:139-146 | at the end the bytes of low are written until the rest is 0 |
| StreamFormat.EncodeLetter | moonlight-web-stream-tsla/moonlight-common-sys/moonlight-common-c/enet/compress.c:246-342 | the letter a is compressed to the four bytes 61 9E 61 9E |
| StreamFormat.SlotInNumbers | moonlight-web-stream-tsla/moonlight-common-sys/moonlight-common-c/enet/compress.c:344-354 | the slot a decoder reads, from the next four bytes of the stream |
| StreamFormat.ReadInNumbers | moonlight-web-stream-tsla/moonlight-common-sys/moonlight-common-c/enet/compress.c:529-597 | what is read in a context: a context without a separate escape is skipped, a slot of an escape leads to the next shorter one or ends the text, and any other belongs to the byte whose slots, in numbers, contain it |
| Interval.NarrowSound | moonlight-web-stream-tsla/moonlight-common-sys/moonlight-common-c/enet/compress.c:123-125 | narrowing keeps the interval within the old one and within 32 bits, where low + range may be exactly 2^32 |
| Interval.SettleShift | moonlight-web-stream-tsla/moonlight-common-sys/moonlight-common-c/enet/compress.c:126-136 | the forced cut at a multiple of 2^16 never empties the interval, and after the shift the interval is 256 times as wide and still sound |
| Interval.Normalize | moonlight-web-stream-tsla/moonlight-common-sys/moonlight-common-c/enet/compress.c:126-136 | normalisation terminates, with a range of at least 2^16 |
| Interval.FlushWindow | moonlight-web-stream-tsla/moonlight-common-sys/moonlight-common-c/enet/compress.c:139-146 | the flushed bytes, read back with zeros behind them, are low itself |
| Interval.TailInside | moonlight-web-stream-tsla/moonlight-common-sys/moonlight-common-c/enet/compress.c:121-146 | whatever is still written lies inside the current interval, so that no emitted byte is revised |
| Interval.TailEmit | moonlight-web-stream-tsla/moonlight-common-sys/moonlight-common-c/enet/compress.c:121-146 | the stream is the bytes shifted out for the operations, followed by the flushed low |
| Interval.DecodesStep | moonlight-web-stream-tsla/moonlight-common-sys/moonlight-common-c/enet/compress.c:352-371 | reading a slot of an encoded operation gives one that the operation covers, and following it leads to the encoder's next interval and the rest of its stream |
| Interval.DecodesEnd | moonlight-web-stream-tsla/moonlight-common-sys/moonlight-common-c/enet/compress.c:352-371 | past the end every slot reads as 0 and following an escape keeps that so |
| RangeSteps.TopBytesByXor | moonlight-web-stream-tsla/moonlight-common-sys/moonlight-common-c/enet/compress.c:128-128 | the exclusive or of two words is 2^24 or more exactly if their top bytes differ |
| RangeSteps.WordTopsDiffer | moonlight-web-stream-tsla/moonlight-common-sys/moonlight-common-c/enet/compress.c:128-128 | that test on low and the 32-bit sum low + range, also where it wraps to 0, says whether the interval crosses a multiple of 2^24 |
| RangeSteps.EncodeRange | moonlight-web-stream-tsla/moonlight-common-sys/moonlight-common-c/enet/compress.c:121-137 | the encoding loop in 32-bit arithmetic appends the normalisation bytes and leaves the normalised interval; it fails only if they do not fit |
| RangeSteps.FlushRange | moonlight-web-stream-tsla/moonlight-common-sys/moonlight-common-c/enet/compress.c:139-146 | the flushing loop appends the bytes of low; it fails only if they do not fit |
| RangeSteps.SeedCode | moonlight-web-stream-tsla/moonlight-common-sys/moonlight-common-c/enet/compress.c:344-350 | the decoder starts with the first four bytes of the input, zeros past its end |
| RangeSteps.DecodeRange | moonlight-web-stream-tsla/moonlight-common-sys/moonlight-common-c/enet/compress.c:354-371 | the decoding loop keeps the decoder's code the next four bytes of the stream, relative to the interval of the specification |
| RangeSteps.ReadSlot | moonlight-web-stream-tsla/moonlight-common-sys/moonlight-common-c/enet/compress.c:352-352 | dividing the offset into the interval, in 32 and then 16 bits, gives the slot of the specification |
| Ppm.AdaptGood | moonlight-web-stream-tsla/moonlight-common-sys/moonlight-common-c/enet/compress.c:309-315 | adapting keeps a context codable: counts below 256, total below 2^16, total equal to escapes plus counts plus 256 times the minimum; and exactly the coded byte becomes known |
| Ppm.RescaledTotals | moonlight-web-stream-tsla/moonlight-common-sys/moonlight-common-c/enet/compress.c:107-112 | halving brings the total back under its limit without losing the escapes |
| Ppm.OpsFit | moonlight-web-stream-tsla/moonlight-common-sys/moonlight-common-c/enet/compress.c:301-308 | every escape and every symbol that is written has a positive count inside its total |
| Ppm.TouchLinked | moonlight-web-stream-tsla/moonlight-common-sys/moonlight-common-c/enet/compress.c:293-295 | counting a byte in a context creates the longer context, and only that one, if it was new |
| Ppm.LearnCloses | moonlight-web-stream-tsla/moonlight-common-sys/moonlight-common-c/enet/compress.c:286-336 | after a byte the suffixes of every context are contexts again, and at most one slot more than the length of the prediction context was used |
| Ppm.TouchCommutes | moonlight-web-stream-tsla/moonlight-common-sys/moonlight-common-c/enet/compress.c:598-614 | adapting two contexts for a byte can be done in either order |
| SymbolArena.Arena.ContextEncode | moonlight-web-stream-tsla/moonlight-common-sys/moonlight-common-c/enet/compress.c:159-199 | the encoding walk returns the slots below the byte and its count as in the plain table, raises exactly that count, and adds a node exactly if the byte is new |
| SymbolArena.Arena.ContextDecode | moonlight-web-stream-tsla/moonlight-common-sys/moonlight-common-c/enet/compress.c:373-438 | the decoding walk finds the owner of a slot, seen or unseen, with the same result and the same effect as the encoding walk for that byte; without slots for unseen bytes it fails exactly past the last symbol |
| SymbolArena.Arena.SymbolRescale | moonlight-web-stream-tsla/moonlight-common-sys/moonlight-common-c/enet/compress.c:90-105 | the recursive halving leaves a tree of the halved counts, touches no other context, and returns their sum |
| SymbolArena.Arena.ContextRescale | moonlight-web-stream-tsla/moonlight-common-sys/moonlight-common-c/enet/compress.c:107-112 | a context is replaced by its rescaled one and nothing else changes |
| SymbolArena.Arena.ContextAdapt | moonlight-web-stream-tsla/moonlight-common-sys/moonlight-common-c/enet/compress.c:305-314 | after the walk, the totals and a possible rescaling complete the adaptation of the context |
| SymbolArena.Arena.CreateSymbol | moonlight-web-stream-tsla/moonlight-common-sys/moonlight-common-c/enet/compress.c:68-80 | the next slot becomes a blank node of the given byte and count; only slots below 4096 are used |
| SymbolArena.Arena.Reset | moonlight-web-stream-tsla/moonlight-common-sys/moonlight-common-c/enet/compress.c:82-88 | the arena holds the root context of a new model, and nothing else |
| SymbolTree.GrowLeft | moonlight-web-stream-tsla/moonlight-common-sys/moonlight-common-c/enet/compress.c:166-186 | a new node at the left of a walk completes a search tree of the raised counts |
| SymbolTree.RescaleNode | moonlight-web-stream-tsla/moonlight-common-sys/moonlight-common-c/enet/compress.c:95-103 | a halved node with halved subtrees is a search tree of the halved counts |
| FieldTables.ModNN | moonlight-web-stream-tsla/moonlight-common-sys/moonlight-common-c/reedsolomon/rs.c:88-94 | the folding loop computes the remainder modulo 255 |
| FieldTables.GenerateField | moonlight-web-stream-tsla/moonlight-common-sys/moonlight-common-c/reedsolomon/rs.c:157-216 | the exponent, logarithm and inverse tables hold the powers of x, their exponents and the inverses in the field modulo x^8 + x^4 + x^3 + x^2 + 1 |
| FieldTables.ProductTable | moonlight-web-stream-tsla/moonlight-common-sys/moonlight-common-c/reedsolomon/rs.c:144-152 | every entry of the multiplication table is the product in that field |
| FieldTables.Init | moonlight-web-stream-tsla/moonlight-common-sys/moonlight-common-c/reedsolomon/rs.c:380-383 | initialisation yields a right product table and a right inverse table |
| FieldLaws.EveryByteIsAPower | moonlight-web-stream-tsla/moonlight-common-sys/moonlight-common-c/reedsolomon/rs.c:157-203 | x generates every nonzero byte |
| FieldLaws.PowersDiffer | moonlight-web-stream-tsla/moonlight-common-sys/moonlight-common-c/reedsolomon/rs.c:157-203 | its first 255 powers differ |
| FieldLaws.MulAssoc | moonlight-web-stream-tsla/moonlight-common-sys/moonlight-common-c/reedsolomon/rs.c:144-152 | multiplication is associative; with its neighbours MulComm, MulNonzero and MulCancel in FieldLaws and MulAddRight in Field, the bytes form a field |
| Field.MulAddRight | moonlight-web-stream-tsla/moonlight-common-sys/moonlight-common-c/reedsolomon/rs.c:144-152 | multiplication distributes over exclusive or |
| FieldLaws.Inverse | moonlight-web-stream-tsla/moonlight-common-sys/moonlight-common-c/reedsolomon/rs.c:207-215 | every nonzero byte has an inverse, and 0 is its own entry |
| MatrixInversion.AddMul | moonlight-web-stream-tsla/moonlight-common-sys/moonlight-common-c/reedsolomon/rs.c:96-106 | dst becomes dst + c * src |
| MatrixInversion.MulInto | moonlight-web-stream-tsla/moonlight-common-sys/moonlight-common-c/reedsolomon/rs.c:108-118 | dst becomes c * src, except that for c = 0 nothing is cleared |
| MatrixInversion.FindPivot | moonlight-web-stream-tsla/moonlight-common-sys/moonlight-common-c/reedsolomon/rs.c:254-279 | a nonzero pivot in an unused row and column is found unless all such entries are zero |
| MatrixInversion.EliminateColumn | moonlight-web-stream-tsla/moonlight-common-sys/moonlight-common-c/reedsolomon/rs.c:317-327 | every other row has the multiple of the pivot row subtracted; the shortcut for a unit pivot row changes nothing |
| MatrixInversion.Unscramble | moonlight-web-stream-tsla/moonlight-common-sys/moonlight-common-c/reedsolomon/rs.c:329-339 | exchanging columns in reverse undoes the row exchanges of the pivots |
| MatrixInversion.InvertMat | moonlight-web-stream-tsla/moonlight-common-sys/moonlight-common-c/reedsolomon/rs.c:224-344 | returns 0 exactly if the matrix is invertible, exactly if no nonzero vector is mapped to zero, and then leaves its two-sided inverse |
| Inversion.ExchangeSolves | moonlight-web-stream-tsla/moonlight-common-sys/moonlight-common-c/reedsolomon/rs.c:295-327 | one elimination step exchanges an argument and a result of the linear map |
| Inversion.NoPivotSingular | moonlight-web-stream-tsla/moonlight-common-sys/moonlight-common-c/reedsolomon/rs.c:254-279 | if a column has no pivot left, the original matrix maps a nonzero vector to zero |
| Inversion.SwapUndoes | moonlight-web-stream-tsla/moonlight-common-sys/moonlight-common-c/reedsolomon/rs.c:329-339 | exchanging two columns of what undoes a row-exchanged matrix undoes the matrix |
| Cauchy.Kernel | moonlight-web-stream-tsla/moonlight-common-sys/moonlight-common-c/reedsolomon/rs.c:435-438 | a combination of Cauchy columns that vanishes in as many rows as it has nonzero coefficients is zero |
| Cauchy.Eliminate | moonlight-web-stream-tsla/moonlight-common-sys/moonlight-common-c/reedsolomon/rs.c:435-438 | the step of that induction: removing one column and one row keeps the others' coefficients nonzero |
| ErasureCode.ParityNonsingular | moonlight-web-stream-tsla/moonlight-common-sys/moonlight-common-c/reedsolomon/rs.c:435-438 | every square submatrix of the parity matrix is nonsingular |
| ErasureCode.FewNonzero | moonlight-web-stream-tsla/moonlight-common-sys/moonlight-common-c/reedsolomon/rs.c:435-438 | data with no more nonzero shards than there are parity rows vanishing on it is zero |
| ErasureCode.DecodeMatrixNonsingular | moonlight-web-stream-tsla/moonlight-common-sys/moonlight-common-c/reedsolomon/rs.c:524-552 | whichever data shards are erased and parity shards chosen, the decode matrix is nonsingular |
| ErasureCode.CoefficientNonzero | moonlight-web-stream-tsla/moonlight-common-sys/moonlight-common-c/reedsolomon/rs.c:554-560 | every coefficient in the recovered rows is nonzero, so the zero branch of mul is never taken there |
| ErasureGroups.ParityNonzero | moonlight-web-stream-tsla/moonlight-common-sys/moonlight-common-c/reedsolomon/rs.c:435-438 | nor is it when encoding: the first parity coefficient is nonzero |
| ShardCoding.CodeSomeShards | moonlight-web-stream-tsla/moonlight-common-sys/moonlight-common-c/reedsolomon/rs.c:364-378 | each output is the combination of the inputs by its row, or, for a row that starts with 0, that added to what the output held |
| ShardCoding.Multiply | moonlight-web-stream-tsla/moonlight-common-sys/moonlight-common-c/reedsolomon/rs.c:121-142 | the matrix product |
| ShardCoding.NewCode | moonlight-web-stream-tsla/moonlight-common-sys/moonlight-common-c/reedsolomon/rs.c:385-472 | a code is made exactly for positive shard counts of at most 255 together; its top rows are the identity and parity row j is the inverse of (parity + i) xor j |
| ErasureRecovery.SortErased | moonlight-web-stream-tsla/moonlight-common-sys/moonlight-common-c/reedsolomon/rs.c:508-522 | the sorting pass permutes the list, and leaves a sorted list as it is |
| ErasureRecovery.SelectShards | moonlight-web-stream-tsla/moonlight-common-sys/moonlight-common-c/reedsolomon/rs.c:524-550 | the matrix holds the rows of the surviving data shards and the chosen parity shards, in the order of the shards picked |
| ErasureRecovery.MoveRows | moonlight-web-stream-tsla/moonlight-common-sys/moonlight-common-c/reedsolomon/rs.c:554-558 | the rows of the erased shards end up on top, in order, although rows are moved one by one in place |
| ErasureRecovery.RowRecovers | moonlight-web-stream-tsla/moonlight-common-sys/moonlight-common-c/reedsolomon/rs.c:552-560 | the row of the inverse for an erased shard, applied to the used shards, gives the shard that was sent |
| ErasureRecovery.Decode | moonlight-web-stream-tsla/moonlight-common-sys/moonlight-common-c/reedsolomon/rs.c:496-561 | all data shards are what was sent |
| ErasureGroups.Encode | moonlight-web-stream-tsla/moonlight-common-sys/moonlight-common-c/reedsolomon/rs.c:570-584 | the parity shards of all groups become the code of their data, also stated byte by byte with places and coefficients; the data does not change |
| ErasureGroups.EncodedMeans | moonlight-web-stream-tsla/moonlight-common-sys/moonlight-common-c/reedsolomon/rs.c:570-584 | each byte of parity shard j of a group is the sum of the bytes of its data shards i with the coefficients 1 / ((parity shards + i) xor j), at the places where the groups lie |
| ErasureGroups.ReconstructGroup | moonlight-web-stream-tsla/moonlight-common-sys/moonlight-common-c/reedsolomon/rs.c:606-636 | a group is restored exactly if its erased data shards do not outnumber its surviving parity shards, and otherwise left alone |
| ErasureGroups.Reconstruct | moonlight-web-stream-tsla/moonlight-common-sys/moonlight-common-c/reedsolomon/rs.c:594-639 | every recoverable group is restored and no other, no surviving shard changes, no parity shard changes, and the result is 0 exactly if all groups were recoverable, which is also stated by counting marks |
| ErasureGroups.RestoredMeans | moonlight-web-stream-tsla/moonlight-common-sys/moonlight-common-c/reedsolomon/rs.c:594-639 | the same in numbers: a data shard is what was sent if no more of its group are marked than parity shards are left, and as it was if not |
| ErasureGroups.EnoughMeans | moonlight-web-stream-tsla/moonlight-common-sys/moonlight-common-c/reedsolomon/rs.c:600-634 | a group is recoverable exactly if its marked data shards are no more than its parity shards without a mark |
| SequenceNumbers.AheadMeaning | moonlight-web-stream-tsla/moonlight-common-sys/moonlight-common-c/enet/peer.c:863-871 | less than 16 windows ahead, the window distance computed on 16-bit numbers is the true one |
| SequenceNumbers.BehindMeaning | moonlight-web-stream-tsla/moonlight-common-sys/moonlight-common-c/enet/peer.c:863-871 | a number behind by less than 16 windows seems as many windows ahead as are missing to 16 |
| SequenceNumbers.StaleAccepted | moonlight-web-stream-tsla/moonlight-common-sys/moonlight-common-c/enet/peer.c:867-871 | an old number less than 16 windows behind is taken for a new one if and only if it is 10 or more behind; and the exact condition at any distance |
| SequenceNumbers.RefusedMeaning | moonlight-web-stream-tsla/moonlight-common-sys/moonlight-common-c/enet/peer.c:612-619 | no acknowledgement exactly for numbers 7 or 8 windows ahead; seen from behind, 8 or 9 windows behind |
| SequenceNumbers.DistanceMeaning | moonlight-web-stream-tsla/moonlight-common-sys/moonlight-common-c/enet/peer.c:881-903 | less than 2^16 ahead, modular distance is true distance |
| Packets.FragmentsTile | moonlight-web-stream-tsla/moonlight-common-sys/moonlight-common-c/enet/peer.c:123-197 | the fragments of a packet, in order, are its data |
| Packets.ByteInFragment | moonlight-web-stream-tsla/moonlight-common-sys/moonlight-common-c/enet/peer.c:123-197 | every byte is in a fragment; with Packets.Offsets, which says that fragments adjoin, in exactly one |
| Packets.Offsets | moonlight-web-stream-tsla/moonlight-common-sys/moonlight-common-c/enet/peer.c:150-184 | fragments adjoin and stay inside the packet, and there are as many as announced |
| Incoming.BeforeUnique | moonlight-web-stream-tsla/moonlight-common-sys/moonlight-common-c/enet/peer.c:881-903 | in a list sorted by modular distance there is exactly one place for a number |
| Incoming.StoredKnown | moonlight-web-stream-tsla/moonlight-common-sys/moonlight-common-c/enet/peer.c:963-1002 | a stored packet is found under its number, at the place it was stored |
| Arrival.RepresentsSorted | moonlight-web-stream-tsla/moonlight-common-sys/moonlight-common-c/enet/peer.c:881-903 | the pending list is strictly sorted by modular distance from the current number |
| Arrival.MarkedPartial | moonlight-web-stream-tsla/moonlight-common-sys/moonlight-common-c/enet/protocol.c:627-638 | a fragment marked in an entry puts its bytes where they were in the packet, keeps what was there, and the count of missing fragments stays the number of clear bits |
| Arrival.CompleteData | moonlight-web-stream-tsla/moonlight-common-sys/moonlight-common-c/enet/protocol.c:640-641 | an entry with no fragment missing holds exactly the packet, whatever the order and the duplicates |
| Arrival.DispatchRepresents | moonlight-web-stream-tsla/moonlight-common-sys/moonlight-common-c/enet/peer.c:807-844 | handing on from the front keeps the channel a picture of what was sent: a prefix handed on, the rest pending; the number advances by exactly the fragment count |
| Arrival.DispatchSettles | moonlight-web-stream-tsla/moonlight-common-sys/moonlight-common-c/enet/peer.c:807-844 | nothing that could be handed on stays pending |
| Delivery.AcceptableMeaning | moonlight-web-stream-tsla/moonlight-common-sys/moonlight-common-c/enet/peer.c:863-879 | for numbers at most 9 windows behind or 14 ahead, the accept test on 16 bits says exactly: newer and less than 7 windows ahead |
| Delivery.ReliableArrives | moonlight-web-stream-tsla/moonlight-common-sys/moonlight-common-c/enet/protocol.c:446-466 | a whole packet that arrives keeps the picture, adds at most itself, is handled exactly if it is not too long and was handed on already, is too far ahead, is pending or has room, and if handled and not too far ahead is stored or handed on |
| Delivery.FragmentArrives | moonlight-web-stream-tsla/moonlight-common-sys/moonlight-common-c/enet/protocol.c:536-645 | the same for a fragment, first or later, new or repeated |
| Incoming.MalformedRefused | moonlight-web-stream-tsla/moonlight-common-sys/moonlight-common-c/enet/protocol.c:556-610 | a fragment is refused, and nothing changes, if it is empty, too long, outside its packet, or inconsistent with the pending packet of its number |
| Delivery.StaleCopy | moonlight-web-stream-tsla/moonlight-common-sys/moonlight-common-c/enet/protocol.c:562-644 | exactly when a copy of a command of a packet handed on already has no effect, at any distance and whatever is pending: the start of its packet, not the command, does not seem new, or the packet is too long, or its 16-bit number is pending and the entry cannot take the fragment or has it, or its number is not pending and too much data waits; otherwise it goes into the pending packet, or adds one |
| Delivery.SeemsNewMeaning | moonlight-web-stream-tsla/moonlight-common-sys/moonlight-common-c/enet/protocol.c:563-571 | what seems new on 16 bits: less than 16 windows behind, exactly what is 10 or more behind |
| Delivery.MarkSame | moonlight-web-stream-tsla/moonlight-common-sys/moonlight-common-c/enet/protocol.c:627-642 | a fragment changes the channel exactly if its bit is not set yet |
| Receiver.IncomingChannel.Search | moonlight-web-stream-tsla/moonlight-common-sys/moonlight-common-c/enet/peer.c:881-903 | the search from the back with its two cases around the wrap-around finds the number, or the place where it belongs |
| Receiver.IncomingChannel.QueueIncoming | moonlight-web-stream-tsla/moonlight-common-sys/moonlight-common-c/enet/peer.c:846-1025 | stores, drops or refuses a command as specified |
| Receiver.IncomingChannel.DispatchReliable | moonlight-web-stream-tsla/moonlight-common-sys/moonlight-common-c/enet/peer.c:807-844 | hands on what is complete and in sequence, all at once |
| Receiver.IncomingChannel.HandleSendReliable | moonlight-web-stream-tsla/moonlight-common-sys/moonlight-common-c/enet/protocol.c:446-466 | does what the specification of a whole packet says, which refuses one that is too long |
| Receiver.IncomingChannel.HandleSendFragment | moonlight-web-stream-tsla/moonlight-common-sys/moonlight-common-c/enet/protocol.c:536-645 | does what the specification of a fragment says, including empty, oversized and inconsistent ones and repeats |
| Receiver.IncomingChannel.QueueAcknowledgement | moonlight-web-stream-tsla/moonlight-common-sys/moonlight-common-c/enet/peer.c:604-634 | a command 7 or 8 windows ahead is not acknowledged, any other is |
| Receiver.IncomingChannel.Receive | moonlight-web-stream-tsla/moonlight-common-sys/moonlight-common-c/enet/protocol.c:1189-1216 | an arriving command of what was sent changes the channel as specified, keeps the picture of what was sent, and is acknowledged exactly if handled and not refused |
| ReliableLink.DeliveredInOrder | moonlight-web-stream-tsla/moonlight-common-sys/moonlight-common-c/enet/peer.c:807-844 | in every reachable state what was handed on is a prefix of what was sent, in order and without repeats, and the pending list is strictly sorted |
| ReliableLink.AcknowledgedStored | moonlight-web-stream-tsla/moonlight-common-sys/moonlight-common-c/enet/protocol.c:1189-1216 | in every reachable state an acknowledged command is stored or was handed on, for every packet, fragmented or not |
| ReliableLink.ForgottenStored | moonlight-web-stream-tsla/moonlight-common-sys/moonlight-common-c/enet/protocol.c:220-292 | what the sender no longer keeps for retransmission has arrived |
| ReliableLink.SenderWindow | moonlight-web-stream-tsla/moonlight-common-sys/moonlight-common-c/enet/protocol.c:1454-1467 | in every reachable state the commands sent and not acknowledged span at most 7 windows and their 16-bit numbers differ |
| ReliableLink.AcknowledgeRight | moonlight-web-stream-tsla/moonlight-common-sys/moonlight-common-c/enet/protocol.c:220-261 | an acknowledgement removes its own command and no other if and only if no other in flight has its 16-bit number, which holds for one of the last 16 windows |
| ReliableLink.SendSafe | moonlight-web-stream-tsla/moonlight-common-sys/moonlight-common-c/enet/protocol.c:1454-1467 | the rule that the previous window must not be full keeps the sender within 7 windows of the receiver |
| ReliableLink.SenderAhead | moonlight-web-stream-tsla/moonlight-common-sys/moonlight-common-c/enet/protocol.c:1454-1467 | in every reachable state it is |
| ReliableLink.RunSafe | moonlight-web-stream-tsla/moonlight-common-sys/moonlight-common-c/enet/protocol.c:1411-1523 | every reachable state of the two endpoints and the network meets the invariant from which these follow |
| ReliableLink.OversizedNeverDelivered | moonlight-web-stream-tsla/moonlight-common-sys/moonlight-common-c/enet/peer.c:125-134 | a packet whose last command is more than 7 windows after the command before its first passes the limit on fragments, but neither it nor anything after it is ever handed on |
| ReliableProgress.DeliverableExactly | moonlight-web-stream-tsla/moonlight-common-sys/moonlight-common-c/enet/peer.c:125-134 | some run hands on the first k packets of a stream if and only if none of them spans more than 7 windows |
| ReliableProgress.FirstPacket | moonlight-web-stream-tsla/moonlight-common-sys/moonlight-common-c/enet/peer.c:125-134 | the first packet of a channel can be handed on if and only if it has less than 32768 fragments |
| ReliableProgress.LongestPacket | moonlight-web-stream-tsla/moonlight-common-sys/moonlight-common-c/enet/peer.c:125-134 | a packet of 32768 fragments, which may be sent and never arrives, and one of 32767, which can |
| ReliableProgress.RunOnNetwork | moonlight-web-stream-tsla/moonlight-common-sys/moonlight-common-c/enet/protocol.c:220-292 | the sender forgets only what an acknowledgement on the network is for |
| ReliableProgress.LateAcknowledgement | moonlight-web-stream-tsla/moonlight-common-sys/moonlight-common-c/enet/protocol.c:220-261 | a reachable state in which an acknowledgement 16 windows old would remove a command that has not arrived |
| ReliableProgress.LateFragment | moonlight-web-stream-tsla/moonlight-common-sys/moonlight-common-c/enet/protocol.c:567-571 | a reachable state in which a copy only 3 windows behind, of a packet that starts 10 windows behind, is taken for a new packet |
| ReliableProgress.MixedIn | moonlight-web-stream-tsla/moonlight-common-sys/moonlight-common-c/enet/protocol.c:585-642 | a reachable state in which a fragment of a packet that starts 11 windows behind goes into a pending packet with the same 16-bit number, count and length: its entry then holds a wrong byte, and the true fragment has no effect any more |
| ReliableProgress.WrongBytes | moonlight-web-stream-tsla/moonlight-common-sys/moonlight-common-c/enet/protocol.c:585-642 | a reachable state in which such a fragment, 16 windows on, completes the pending packet before its last fragment was even sent, and wrong bytes are handed on |
| UsedWindows.MeetsAhead | moonlight-web-stream-tsla/moonlight-common-sys/moonlight-common-c/enet/protocol.c:1460-1461 | the mask test says exactly that one of the 10 windows from this one on, around the end, is in use |
| SenderWindows.FullMeaning | moonlight-web-stream-tsla/moonlight-common-sys/moonlight-common-c/enet/protocol.c:1459-1459 | the counter of the previous window is full exactly if all its 4096 commands are unacknowledged |
| SenderWindows.BlockedMeans | moonlight-web-stream-tsla/moonlight-common-sys/moonlight-common-c/enet/protocol.c:1454-1467 | the test on counters and mask blocks a new window exactly when the rule on true numbers does |
| SenderWindows.MaySendInNumbers | moonlight-web-stream-tsla/moonlight-common-sys/moonlight-common-c/enet/protocol.c:1457-1461 | that rule in numbers: only the first number of a window of 4096 is held back, if all 4096 before it are unacknowledged or one at least 7 windows back is |
| SenderWindows.CountNext | moonlight-web-stream-tsla/moonlight-common-sys/moonlight-common-c/enet/protocol.c:1499-1503 | a first transmission keeps the window counters and the mask exact |
| SenderWindows.UncountGone | moonlight-web-stream-tsla/moonlight-common-sys/moonlight-common-c/enet/protocol.c:251-261 | so does an acknowledgement |
| ReliableSender.Peer.SetupOutgoing | moonlight-web-stream-tsla/moonlight-common-sys/moonlight-common-c/enet/peer.c:636-703 | a queued command gets the number after the last queued one of its channel |
| ReliableSender.Peer.Send | moonlight-web-stream-tsla/moonlight-common-sys/moonlight-common-c/enet/peer.c:106-222 | a reliable packet is refused exactly if the peer is not connected, the channel does not exist or it is too long or has more than 1048576 fragments; otherwise exactly its fragments, or the whole, are queued in order |
| ReliableSender.Peer.Cut | moonlight-web-stream-tsla/moonlight-common-sys/moonlight-common-c/enet/peer.c:148-185 | the loop over offsets makes the fragments of the specification |
| ReliableSender.Peer.TransmitFront | moonlight-web-stream-tsla/moonlight-common-sys/moonlight-common-c/enet/protocol.c:1497-1523 | sending the first queued command moves it to the sent list, counts its data and, the first time, its window |
| ReliableSender.Peer.CheckOutgoing | moonlight-web-stream-tsla/moonlight-common-sys/moonlight-common-c/enet/protocol.c:1411-1523 | a prefix of the queue is sent, in order, within the windows, the data in transit and the datagram; the first command left cannot be sent: its window, the limit on data, the slots or the room is in its way |
| ReliableSender.Peer.CheckTimeouts | moonlight-web-stream-tsla/moonlight-common-sys/moonlight-common-c/enet/protocol.c:1347-1409 | exactly the expired commands, up to the first for which the connection is given up, move in order from the sent list to the front of the queue, and their data is no longer in transit |
| ReliableSender.Peer.Acknowledge | moonlight-web-stream-tsla/moonlight-common-sys/moonlight-common-c/enet/protocol.c:195-292 | the command with that number is forgotten if and only if it was in flight, in whichever list it is; exactly one command goes, the others keep their order, and the counters, the mask and the data in transit stay exact |
| ReliableSender.AcknowledgeOne | moonlight-web-stream-tsla/moonlight-common-sys/moonlight-common-c/enet/protocol.c:220-261 | no other command in flight on the channel has that 16-bit number |
| ReliableSender.FirstInFlight | moonlight-web-stream-tsla/moonlight-common-sys/moonlight-common-c/enet/protocol.c:195-218 | the search that stops at the first command never sent misses no retransmission |
| CircularList.Clear | moonlight-web-stream-tsla/moonlight-common-sys/moonlight-common-c/enet/list.c:13-18 | a cleared list is a ring of its sentinel |
| CircularList.Insert | moonlight-web-stream-tsla/moonlight-common-sys/moonlight-common-c/enet/list.c:20-32 | the node stands before the position, wherever the ring is cut open, and the rest is as it was |
| CircularList.Rotate | moonlight-web-stream-tsla/moonlight-common-sys/moonlight-common-c/enet/list.c:20-59 | a ring can be cut open anywhere |
| CircularList.Remove | moonlight-web-stream-tsla/moonlight-common-sys/moonlight-common-c/enet/list.c:34-41 | the ring without the node, in the same order |
| CircularList.MoveBetween | moonlight-web-stream-tsla/moonlight-common-sys/moonlight-common-c/enet/list.c:43-59 | a stretch of one ring stands in order before a position of another, and both are rings, in order |
| Host.Host.OnConnect | moonlight-web-stream-tsla/moonlight-common-sys/moonlight-common-c/enet/peer.c:352-362 | the counters become those of the peers with this one connected |
| Host.Host.OnDisconnect | moonlight-web-stream-tsla/moonlight-common-sys/moonlight-common-c/enet/peer.c:364-374 | the counters become those of the peers with this one disconnected |
| Host.Host.ChangeState | moonlight-web-stream-tsla/moonlight-common-sys/moonlight-common-c/enet/protocol.c:35-44 | any change of state keeps both counters exact |
| Host.Host.Reset | moonlight-web-stream-tsla/moonlight-common-sys/moonlight-common-c/enet/peer.c:381-436 | a reset peer is blank and no longer counted |
| Host.Host.Connect | moonlight-web-stream-tsla/moonlight-common-sys/moonlight-common-c/enet/host.c:183-264 | the first disconnected peer starts to connect, if there is one |
| Host.Host.HandleConnect | moonlight-web-stream-tsla/moonlight-common-sys/moonlight-common-c/enet/protocol.c:294-444 | the first disconnected peer takes the connection and its bandwidth, and does not count yet; refused exactly if there is none, the connection exists or too many are from that address |
| Host.Host.NotifyConnect | moonlight-web-stream-tsla/moonlight-common-sys/moonlight-common-c/enet/protocol.c:119-134 | connected at once, or waiting for the application; the limits have to be recalculated |
| Host.Host.HandleVerifyConnect | moonlight-web-stream-tsla/moonlight-common-sys/moonlight-common-c/enet/protocol.c:948-1008 | a mismatch makes a zombie, a match a connected peer that counts with the bandwidth just learnt; only a match asks for recalculation |
| Host.Host.NotifyDisconnect | moonlight-web-stream-tsla/moonlight-common-sys/moonlight-common-c/enet/protocol.c:136-159 | a disconnected peer, or one whose connection the application does not know of, is reset without an event, any other becomes a zombie unless it is immediate; recalculation is asked for in exactly seven named states |
| Host.Host.Dispatch | moonlight-web-stream-tsla/moonlight-common-sys/moonlight-common-c/enet/protocol.c:59-117 | pending connections become connected, zombies are reset; only a zombie asks for recalculation |
| Host.Host.Disconnect | moonlight-web-stream-tsla/moonlight-common-sys/moonlight-common-c/enet/peer.c:537-572 | an active peer is disconnecting and no longer counted, one that is not yet connected is reset |
| Host.Host.DisconnectNow | moonlight-web-stream-tsla/moonlight-common-sys/moonlight-common-c/enet/peer.c:506-529 | reset unless disconnected already |
| Host.Host.PeerDisconnectLater | moonlight-web-stream-tsla/moonlight-common-sys/moonlight-common-c/enet/peer.c:591-602 | an active peer with something to send still counts, until that is done |
| Host.Host.HandleDisconnect | moonlight-web-stream-tsla/moonlight-common-sys/moonlight-common-c/enet/protocol.c:821-848 | the state after the other side's disconnect, from each state, with counters exact; only a pending connection asks for recalculation |
| Host.Host.HandleBandwidthLimit | moonlight-web-stream-tsla/moonlight-common-sys/moonlight-common-c/enet/protocol.c:774-806 | the counter of limited peers follows a change from or to no limit; refused for a peer that is not active |
| Host.Host.BandwidthLimit | moonlight-web-stream-tsla/moonlight-common-sys/moonlight-common-c/enet/host.c:306-312 | new limits of the host ask for recalculation |
| Bandwidth.CountUpdate | moonlight-web-stream-tsla/moonlight-common-sys/moonlight-common-c/enet/peer.c:352-374 | what one peer contributes to the counters |
| Bandwidth.CountsInNumbers | moonlight-web-stream-tsla/moonlight-common-sys/moonlight-common-c/enet/peer.c:352-374 | the counters are the numbers of peers in the two active states, and of those among them with a bandwidth of their own |
| Host.DuplicatesInNumbers | moonlight-web-stream-tsla/moonlight-common-sys/moonlight-common-c/enet/protocol.c:310-331 | the duplicates counted are the peers from that address that are neither disconnected nor connecting |
| Host.Host.ShareOutgoing | moonlight-web-stream-tsla/moonlight-common-sys/moonlight-common-c/enet/host.c:336-420 | terminates; each active peer with a bandwidth gets a limit that keeps its data within that bandwidth times the elapsed time, or 1: a share of its own, the largest such, because it exceeded it, or the common throttle; that is the largest that brings the data without those shares down to the host's bandwidth without them; except for shares raised to 1, the throttled data of all peers is within the budget |
| Bandwidth.SharedMeans | moonlight-web-stream-tsla/moonlight-common-sys/moonlight-common-c/enet/host.c:361-417 | the limit of one peer in numbers, from its own incoming bandwidth and the elapsed time |
| Bandwidth.CommonMeaning | moonlight-web-stream-tsla/moonlight-common-sys/moonlight-common-c/enet/host.c:341-402 | the common throttle in numbers |
| Host.Host.AdjustPass | moonlight-web-stream-tsla/moonlight-common-sys/moonlight-common-c/enet/host.c:352-395 | one pass keeps budget and demand from becoming negative, never raises the common throttle, and lowers the number of waiting peers whenever it asks for another pass |
| Bandwidth.ThrottleFalls | moonlight-web-stream-tsla/moonlight-common-sys/moonlight-common-c/enet/host.c:392-402 | subtracting the same from demand and budget never raises the throttle |
| Bandwidth.AdjustBalanced | moonlight-web-stream-tsla/moonlight-common-sys/moonlight-common-c/enet/host.c:372-393 | giving one peer its own share keeps budget given and budget left together the whole budget, and what is left covers the throttled data that waits |
| Bandwidth.WithinBudget | moonlight-web-stream-tsla/moonlight-common-sys/moonlight-common-c/enet/host.c:397-420 | the sum of throttle times data over all peers is at most 32 times the budget |
| Bandwidth.Throttle | moonlight-web-stream-tsla/moonlight-common-sys/moonlight-common-c/enet/host.c:356-359 | the largest throttle of at most 32 that brings a total down to a bandwidth |
| Host.Host.ShareIncoming | moonlight-web-stream-tsla/moonlight-common-sys/moonlight-common-c/enet/host.c:422-475 | terminates; the limits are max-min fair: peers below the common limit are told their own, the others the common limit, which is the least one that is an equal part of what the peers below it leave; what is told adds up to no more than the host has; and every active peer is told a limit, and not 0 for none, if and only if each has a limit of its own and the host has a unit for each |
| Bandwidth.LimitedExactly | moonlight-web-stream-tsla/moonlight-common-sys/moonlight-common-c/enet/host.c:446-472 | that condition, from the fairness of the limits |
| Bandwidth.TooLittleToDivide | moonlight-web-stream-tsla/moonlight-common-sys/moonlight-common-c/enet/host.c:436-436 | one unit for two peers with limits of 5: both are told 0 |
| Bandwidth.NoLimitOfItsOwn | moonlight-web-stream-tsla/moonlight-common-sys/moonlight-common-c/enet/host.c:446-454 | a peer without a limit of its own is told 0, whatever the host has |
| Host.Host.MarkPass | moonlight-web-stream-tsla/moonlight-common-sys/moonlight-common-c/enet/host.c:435-455 | one pass only marks peers below the limit and leaves enough for the limit of the others |
| Bandwidth.ToldWithin | moonlight-web-stream-tsla/moonlight-common-sys/moonlight-common-c/enet/host.c:458-475 | the values told add up to no more than the host's bandwidth |
| Bandwidth.LeastAtEnd | moonlight-web-stream-tsla/moonlight-common-sys/moonlight-common-c/enet/host.c:429-456 | the common limit at the end of the passes is the least level: an equal part, for the peers that are not below it, of what those below it leave |
| Bandwidth.ToldMeans | moonlight-web-stream-tsla/moonlight-common-sys/moonlight-common-c/enet/host.c:458-475 | each active peer is told the smaller of its own limit, if it has one, and the common one |
| Host.Host.BandwidthThrottle | moonlight-web-stream-tsla/moonlight-common-sys/moonlight-common-c/enet/host.c:314-477 | once the interval is over, both of these in turn, the second exactly if the limits have to be recalculated, which is then done; the counters stay exact |
| BlockingQueue.LinkedBlockingQueue.Offer | moonlight-web-stream-tsla/moonlight-common-sys/moonlight-common-c/src/LinkedBlockingQueue.c:85-131 | appends, or refuses a stopped or draining queue, then a full one; signals exactly if the queue was empty |
| BlockingQueue.LinkedBlockingQueue.Peek | moonlight-web-stream-tsla/moonlight-common-sys/moonlight-common-c/src/LinkedBlockingQueue.c:134-158 | the first item; interrupted if stopped, even with data, or drained |
| BlockingQueue.LinkedBlockingQueue.Poll | moonlight-web-stream-tsla/moonlight-common-sys/moonlight-common-c/src/LinkedBlockingQueue.c:160-198 | takes the first item, and nothing from a stopped queue |
| BlockingQueue.LinkedBlockingQueue.MustWait | moonlight-web-stream-tsla/moonlight-common-sys/moonlight-common-c/src/LinkedBlockingQueue.c:205-208 | a consumer waits exactly if there is no data and nothing was signalled |
| BlockingQueue.LinkedBlockingQueue.FinishWait | moonlight-web-stream-tsla/moonlight-common-sys/moonlight-common-c/src/LinkedBlockingQueue.c:200-249 | what a waiting consumer gets: a stopped queue interrupts it and keeps its data; then a requested wake, used up; then the first item; then the end of draining |
| BlockingQueue.LinkedBlockingQueue.Flush | moonlight-web-stream-tsla/moonlight-common-sys/moonlight-common-c/src/LinkedBlockingQueue.c:14-36 | the queue is empty and the caller has the chain of entries, linked in order, with what was queued |
| BlockingQueue.LinkedBlockingQueue.Destroy | moonlight-web-stream-tsla/moonlight-common-sys/moonlight-common-c/src/LinkedBlockingQueue.c:3-11 | the caller has the chain of what is left |
| BlockingQueue.LinkedBlockingQueue.SignalShutdown | moonlight-web-stream-tsla/moonlight-common-sys/moonlight-common-c/src/LinkedBlockingQueue.c:60-65 | raises its flag and changes nothing else |
| BlockingQueue.LinkedBlockingQueue.SignalDrain | moonlight-web-stream-tsla/moonlight-common-sys/moonlight-common-c/src/LinkedBlockingQueue.c:67-72 | raises its flag and changes nothing else |
| BlockingQueue.LinkedBlockingQueue.SignalUserWake | moonlight-web-stream-tsla/moonlight-common-sys/moonlight-common-c/src/LinkedBlockingQueue.c:74-79 | raises its flag and changes nothing else |
| BlockingQueue.LinkedBlockingQueue.constructor | moonlight-web-stream-tsla/moonlight-common-sys/moonlight-common-c/src/LinkedBlockingQueue.c:39-58 | an empty queue with the given bound |
| QueueThreads.AlwaysConserved | moonlight-web-stream-tsla/moonlight-common-sys/moonlight-common-c/src/LinkedBlockingQueue.c:85-249 | for every interleaving: what was accepted is what left, in order, followed by what is still there, which is within the bound |
| QueueThreads.DrainedEmpty | moonlight-web-stream-tsla/moonlight-common-sys/moonlight-common-c/src/LinkedBlockingQueue.c:200-249 | a consumer that is told a draining queue has ended was given everything, and nothing is accepted afterwards |
| QueueThreads.StoppedGivesNothing | moonlight-web-stream-tsla/moonlight-common-sys/moonlight-common-c/src/LinkedBlockingQueue.c:200-249 | in every run, from a stop on no wait or poll hands out anything, every wait is interrupted and nothing is accepted, even with data in the queue |
| QueueThreads.TestGets | moonlight-web-stream-tsla/moonlight-common-sys/moonlight-common-c/src/LinkedBlockingQueue.c:200-249 | one test of a consumer: interrupted by a stop, then woken, then the first item, then the end of draining, or asleep |
| QueueThreads.PollAndOffer | moonlight-web-stream-tsla/moonlight-common-sys/moonlight-common-c/src/LinkedBlockingQueue.c:85-198 | one poll and one offer in a run, and when an offer signals |
| QueueThreads.NeverForgotten | moonlight-web-stream-tsla/moonlight-common-sys/moonlight-common-c/src/LinkedBlockingQueue.c:103-131 | with at most one consumer, signalling only when the queue was empty never leaves it asleep with something to do and no signal on its way |
| QueueThreads.NoneForgottenExactly | moonlight-web-stream-tsla/moonlight-common-sys/moonlight-common-c/src/LinkedBlockingQueue.c:60-131 | for any number of consumers and any bound: no run leaves one forgotten if and only if there is at most one |
| QueueThreads.StopForgotten | moonlight-web-stream-tsla/moonlight-common-sys/moonlight-common-c/src/LinkedBlockingQueue.c:60-65 | a run for every larger number of consumers in which one sleeps although the queue was stopped |
| QueueThreads.ItemForgotten | moonlight-web-stream-tsla/moonlight-common-sys/moonlight-common-c/src/LinkedBlockingQueue.c:103-131 | and one in which one sleeps although an item is there |
| InputBatching.MouseState.SendMouseMove | moonlight-web-stream-tsla/moonlight-common-sys/moonlight-common-c/src/InputStream.c:753-813 | a movement is added to the pending one, and marked as queued exactly if an offer was accepted |
| InputBatching.MouseState.SendPending | moonlight-web-stream-tsla/moonlight-common-sys/moonlight-common-c/src/InputStream.c:412-481 | the packets sent, each nonzero and within 16 bits, and each all that is left as far as 16 bits reach, add up to what was pending and what arrived meanwhile |
| InputBatching.NoMoveLost | moonlight-web-stream-tsla/moonlight-common-sys/moonlight-common-c/src/InputStream.c:412-481 | for every interleaving and any refused offers: sent plus pending is what was submitted, and a movement is pending without a packet on its way only after a refused offer |
| InputBatching.MergeControllers | moonlight-web-stream-tsla/moonlight-common-sys/moonlight-common-c/src/InputStream.c:349-410 | takes exactly the longest run from the queue of controller packets that agree with the first in number, mask and both sets of buttons, nothing from a stopped queue, and keeps the last state |
| InputBatching.MergesMeans | moonlight-web-stream-tsla/moonlight-common-sys/moonlight-common-c/src/InputStream.c:374-390 | the longest run, in the fields of the packets: all in it agree, and the next is none of a controller or differs |
| InputBatching.BatchingKeepsChanges | moonlight-web-stream-tsla/moonlight-common-sys/moonlight-common-c/src/InputStream.c:349-410 | sending only the last of each run keeps every change of buttons, in order, and the last state |
| InputBatching.NoButtonChangeLost | moonlight-web-stream-tsla/moonlight-common-sys/moonlight-common-c/src/InputStream.c:349-410 | for every interleaving of submitting, merging and sending: the button changes sent are those of a prefix of what was submitted, all of it once the queue is empty |
| InputBatching.Scroll.SendHighResScroll | moonlight-web-stream-tsla/moonlight-common-sys/moonlight-common-c/src/InputStream.c:1161-1253 | packets of one notch, 120, in the direction of the movement, and the remainder add up to the amount and what was carried over unless the direction turned; what is carried never reaches a notch unless the queue refused one |

## Left out

- RangeCoder.Decompress: a stream that no compressor wrote may reach a slot past the end of the root context, which the C code answers with a byte computed by wrap-around; such streams (`Decode` is `Undefined`) are excluded by its precondition, and by that of PacketCompression.Unpack.
- RangeCoder.Compress: buffers after the first must not be empty, because the C code does not check again after it has moved to the next buffer (compress.c:275-284).
- ErasureRecovery.SortErased: for a list that is not sorted only the permutation is stated; the pass stops too early to sort it, and the list passed in is always sorted.
- ErasureGroups.Reconstruct: the surviving shards are assumed to be those that were sent; corrupted shards are not detected by the code.
- ShardCoding.CodeSomeShards: a matrix is a sequence of rows rather than one flat block, and the tables and coefficients are values once they are computed, so an aliasing of their memory is not modelled.
- Host.Host.ShareOutgoing: products are unbounded integers rather than 32-bit words, the total of data must be below 2^32, and no active peer may carry the time stamp of this call already.
- Host.Host.HandleConnect: addresses, connection numbers and the number of channels are parameters; the other fields of a new connection are not modelled.
- Host.Host.PeerDisconnectLater: whether something is queued is a parameter; the discarding of data that arrives in that state, although it is acknowledged, is not modelled.
- Host.Host.Dispatch: membership in the dispatch queue and its flag are not modelled, since a reset clears the flag before it is looked at; which peer is dispatched is a parameter.
- ReliableSender.Peer.Send: the packet is reliable; the other kinds of packet and the transfer unit behind `limit` are not modelled.
- ReliableSender.Peer.CheckOutgoing: the list of reliable commands alone; the list of other commands that it is merged with by age takes no part in the windows.
- ReliableSender.Peer.CheckTimeouts: which commands have expired, and for which the connection is given up, are parameters; round-trip times and back-off are not modelled.
- ReliableSender.Peer.Acknowledge: a command that waits in the queue has been sent before exactly if its number of attempts is not 0, as in the search of the C code; freeing packets is not modelled.
- ReliableLink.DeliveredInOrder: one channel of a connected receiver; that a packet arrives eventually is not stated, only that it can (ReliableProgress.DeliverableExactly).
- InputBatching.Scroll.SendHighResScroll: the mode in which scrolling is batched; without it each event is sent as it is.
- InputBatching.NoMoveLost: the pending movement is an unbounded integer rather than 32 bits; send failures end the sender thread and are not modelled.
- Unreliable and unsequenced commands, checksums, round-trip estimation and the details of the handshake: not needed for the reliable channel.
- Commands on the control channel (0xFF), including pings, which are numbered per peer: they share the sent lists but not the windows.
- Allocation failures, reference counts and the freeing of packets.
- Sockets, clocks, encryption and threads as such: time is an argument, the network a set of what has been sent, threads are interleaved steps.
- `enet_list_size`, symbol exclusion in the coder (compiled out), the packet-loss queue that patches the parity matrix for audio: easy members or other clients.
- Absolute mouse positions, motion sensors and pen events in the input batching: they keep only the last state.
