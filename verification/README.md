# Verified transport and compression engines

A Dafny 4.11 model of the stateful engines of the repository, with proofs of what each is for.
`dafny verify dfyconfig.toml` checks everything.

**The range coder (`toxtun/compress.c`).** `RangeInterval` is the carry-less coder on 32-bit
intervals, `FrequencyModel` the order-2 contexts as plain frequency tables, `SymbolTree` the
array of search-tree nodes that represents them, `RangeCoding` the class that changes this array
in place, `CompressionSpec` the reference coder, `CompressionText` what it codes in terms of the
text alone, and `Compressor` the two source functions.
Encoder and decoder create their symbols in different orders, so their arrays differ; both
represent the same frequency tables at every byte boundary. The round trip holds for all inputs.
All 16- and 32-bit quantities are kept in range there by proof rather than wrapped; `BitWords` ties
the bit operations of the coder, and of the checksum below, to arithmetic. Bytes that were not
written by the encoder lead the decoder out of these tables. `SymbolForest` and `SafeDecoder` are
the same decoder for any bytes, in wrapping words and with the symbols as a forest of trees in
whatever order of values: it ends, stays within its memory, and keeps every sum.

**KCP (`toxtun-go/kcp.go`).** `KcpSpec` says what each operation does to the sending and the
receiving half; `KcpDirection`, `KcpMessages` and `KcpSystem` prove one direction, messages and
whole runs of two endpoints over a hostile network; `KcpWire` is the byte format and the packing
into datagrams, `KcpWindow` the congestion arithmetic, `KcpSegments` the timers, `Kcp` the class,
and `KcpRefinement` ties the class to the runs.

**ENet's reliable channel (`toxtun/protocol.c`, `peer.c`, `host.c`, `list.c`, `packet.c`).**
`EnetWindows` has the three window tests, `EnetReceive` and `EnetDelivery` the receiver,
`EnetQueue` what it keeps whatever arrives, `EnetFragments` the fragmentation, `EnetSystem` whole
runs, `EnetSilence` what a lost acknowledgement does to them, `EnetStale` what long packets do to
them, `EnetChannel` and `EnetPeer` the receiving and sending classes, `EnetRefinement` their tie to
the runs; `EnetHost` is the life cycle of peers, `EnetBandwidth` the redistribution of bandwidth,
`EnetCrc` the checksum and `EnetList` the linked list. `enet.h` is not part of this model: the upstream values are used (16
reliable windows of 0x1000 numbers, 8 of them free, at most 2^20 fragments, times that overflow
after 86400000 ms).

**The Python reliable channel (`pytoxsh/srudp.py`).** `SrudpSpec` and `SrudpSystem` are the
handshake and the window of a client and a server over a lossy network, `Srudp` the class.

The networks keep every segment, command or packet ever put on them; a step may deliver any of
them, any number of times, or never, within the ages named below. Wrapped numbers are tied to
unbounded ones.

## Where the code does not do what one would expect

- KCP outputs an empty datagram before a first data segment that fills the mtu exactly, because
  the test before writing data is `>=` and not `>`. This is the only way an empty datagram comes
  about (`KcpWire.EmptyDatagramFirst`).
- KCP's congestion bound breaks after a fast resend exactly when the new window, times the segment
  size, does not fit 32 bits (`KcpWindow.SentKeepsWindow`; `KcpWindow.WindowBreaks` is such a case).
- An ENet sender may have a command outstanding while the receiver is eight windows further on.
  If only the acknowledgement was lost, and its packet has at most 4097 fragments, every repeat of
  the command is then discarded and not acknowledged, for as long as the command stays outstanding
  (`EnetSilence.RepeatedInVain`); such a state is reached
  (`EnetSilence.DeliveredButNotAcknowledged`).
- The window test for a fragment looks at the first number of its packet, the guard of the sender
  at the number of the fragment. A packet of 4098 fragments can start ten windows behind the
  receiver while its last fragment is outstanding; a repeat of that fragment is then queued as part
  of a packet to come (`EnetStale.StaleIsQueued`). A lap later its bytes end up in another packet
  (`EnetStale.WrongBytesDispatched`), or a packet is acknowledged and never dispatched
  (`EnetStale.AcknowledgedAndLost`). With at most 4097 fragments neither can happen
  (`EnetStale.FragmentBoundExact`); the source allows 2^20.
- The timers of commands in flight are looked at only when that of the first one has run out; one
  behind it with a shorter timer waits until then (`EnetPeer.LaterMustWait`,
  `EnetPeer.Peer.CheckWhenDue`).
- A fragment that is held but lies in the receiver's eighth window, while its packet starts before
  that window, is not acknowledged either (`EnetSystem.DiscardedIsSilent`).
- An ENet command whose packet starts ten windows back passes for a new one
  (`EnetWindows.OldDuplicateDiscardedIff`, `EnetSilence.RepeatUnchangedIff`). The network of
  `EnetSystem` therefore delivers a command for as long as it is unacknowledged, and later only
  while the sender is less than eight windows past it or nine past the start of its packet; an
  acknowledgement while the sender is less than 65536 numbers past it.
- The bandwidth level is not always the highest that fits: a peer that asks for exactly the level
  is held to it without being taken out of the rounds. `EnetBandwidth.LevelIsLowIffTied` says for
  which limits and bandwidth. A limit of zero means none, so the limits told bound the sum of what
  peers send only if there is at least one unit per peer and every peer has a limit.
- A peer whose bandwidth epoch happens to be the current time before the rounds start (a new peer
  at time 0) is counted but passed over by them (`EnetBandwidth.Redistribute`).
- The range decoder takes a code past the share of the last value for a byte: of four bytes 0xFF the
  first one found is 256 cut to 0 (`SafeDecoder.PastEveryShare`). From then on the tree of the root
  is no longer in order, but it stays a tree (`SafeDecoder.Decoder.Decompress`).
- Of an empty buffer after the first the range coder reads the byte of memory beyond it
  (`Compressor.TextIsConcatenationIff`).

## Model

| member | source | states |
|---|---|---|
| Compressor.RoundTrip | toxtun/compress.c:246-342 | decompressing what compress wrote, into any buffer of at least the input length, gives back exactly the text read from the buffers, for all buffers, across symbol-table resets and rescales |
| Compressor.TextIsConcatenationIff | toxtun/compress.c:275-284 | the text read is the concatenation of the buffers if and only if no buffer after the first is empty |
| Compressor.Decompress | toxtun/compress.c:498-627 | given what compress writes for x, the in-place decoder outputs exactly x when it fits the buffer and nothing otherwise; it stops at the right byte though no end marker is coded |
| Compressor.Compress | toxtun/compress.c:246-342 | the bytes of the in-place encoder are those of the reference coder of the text read from the buffers, which are the range code of the events of that text, and nothing when they do not fit the output limit |
| CompressionSpec.EncodeContains | toxtun/compress.c:246-342 | everything written from an interval on, read as one number padded with zeros, lies inside that interval, whatever follows is coded; this is what the decoder relies on |
| CompressionSpec.CompressedIsEmptyOnlyForEmpty | toxtun/compress.c:339-341 | only the empty input is coded in zero bytes, so a return value above zero identifies every other input |
| CompressionSpec.StepOk | toxtun/compress.c:331-336 | each coded byte keeps the model invariant (escapes, totals and counts agree and are in range; a context exists for each suffix of a context; the table never overflows), resets included |
| CompressionText.ContextsAreText | toxtun/compress.c:284-336 | after any text the next byte is predicted in the context of its last two bytes, or as many as there are, since the table started afresh, and the table holds a symbol for every stretch of at most three bytes of that text and no other |
| CompressionText.KnownValues | toxtun/compress.c:286-329 | a context is in the model exactly if it occurs in the text since then, and it knows exactly the bytes that followed it there |
| CompressionText.TablesAreText | toxtun/compress.c:286-329 | the table of each context is the one that the values coded or learnt in it since then build up, rescaled as they go |
| CompressionText.TableCounts | toxtun/compress.c:286-329 | until a count or the total reaches its bound, a table holds two for each time a value came and five escapes for each different value, in the root three and one escape in all |
| CompressionText.TableHalves | toxtun/compress.c:307-329 | a value halves its table, every count and the escapes rounded up, if and only if its count before it was above 251, in the root 250 with the one every byte has, or the total would pass 65280 |
| CompressionText.UpdateAt | toxtun/compress.c:286-329 | of the contexts of a chain exactly those down to the first that knows the value change, each by that value; a symbol created is an empty context |
| CompressionText.RecentIsSuffix | toxtun/compress.c:148-157 | the bytes since the table started afresh are the end of the text, with fewer than 4094 stretches of at most three bytes |
| CompressionText.ShortIsRecent | toxtun/compress.c:148-157 | in a text of up to 1364 bytes the table never starts afresh |
| CompressionText.PieceIff | toxtun/compress.c:286-329 | the stretches counted are those that occur in the text and are at most three bytes long |
| CompressionText.CodedWhere | toxtun/compress.c:286-326 | a byte is coded in the longest of the contexts of two bytes, one and none that it has followed since the table started afresh; everything before that is an escape |
| CompressionText.EventsAreText | toxtun/compress.c:286-326 | the events of a byte in the model are those of the text |
| CompressionText.CompressedIsText | toxtun/compress.c:246-342 | the compressed text is the range code of these events, defined on the text alone |
| CompressionText.ThreeEqualBytes | toxtun/compress.c:284-336 | of a text that starts with three equal bytes v the events are (1 + v, 1, 257), (1 + v, 4, 260) and (5, 2, 7): the third byte is coded in the context of one byte |
| CompressionText.ThreeLetters | toxtun/compress.c:246-342 | "aaa" is compressed to the bytes 62 01 4C A3 |
| RangeInterval.XorTestComparesTopBytes | toxtun/compress.c:128 | the exclusive or of the 32-bit words low and low + range is at least 2^24 exactly when the interval does not lie in one top byte, which is the test of the coder here |
| RangeInterval.MaskedNegationIsTruncation | toxtun/compress.c:131 | the negation of the 32-bit word low, masked with 2^16 - 1, is the range of the truncated interval, which ends at the next multiple of 2^16 |
| RangeInterval.NarrowBounds | toxtun/compress.c:123-125 | coding a valid event keeps the range positive and the new interval inside the old one: low + range never exceeds 2^32 |
| RangeInterval.ShiftRound | toxtun/compress.c:126-136 | each renormalisation round, truncating or not, stays within 32 bits, loses no low-end byte, and strictly lowers a bound on the rounds left, so the loop terminates |
| RangeInterval.FlushIsTheWord | toxtun/compress.c:139-146 | the flushed bytes, read back with zeros after them, are exactly the low end |
| RangeInterval.NormaliseContains | toxtun/compress.c:126-136 | a code inside the renormalised interval comes from a code inside the interval before the bytes were shifted out, truncation included |
| RangeInterval.CodeEventsContains | toxtun/compress.c:121-137 | a code that lies in the interval after a run of events lay in the interval of every one of them before the bytes were shifted out |
| RangeInterval.ReadFindsEvent | toxtun/compress.c:352 | the quotient the decoder reads falls in the share of the event the encoder coded and in no other |
| RangeInterval.CodeEventsSplit | toxtun/compress.c:121-137 | coding two runs of events one after the other is coding their concatenation |
| FrequencyModel.RescaledFits | toxtun/compress.c:107-112 | halving brings every count, the escapes and the total back into their limits and removes no symbol |
| FrequencyModel.TouchedOk | toxtun/compress.c:305-314 | after a context learns a value, rescaled or not, its total equals escapes plus counts plus minimums, stays below 2^16 - 0x100 plus one step, and exactly that value is added to its symbols |
| FrequencyModel.UpdateFromOk | toxtun/compress.c:286-329 | coding a byte keeps the model well formed, adds at most one symbol per context passed, and creates the next predicted context |
| FrequencyModel.EventsFromValid | toxtun/compress.c:301-326 | every event the encoder codes has a non-empty share inside a total below 2^16 |
| FrequencyModel.SymbolEventValid | toxtun/compress.c:302-303 | a symbol's share lies above the escapes and inside the total, counts and minimum included |
| FrequencyModel.TouchCommutes | toxtun/compress.c:598-615 | two contexts of one chain learn a value in either order with the same result, although each creates a child context |
| FrequencyModel.PatchedCommutes | toxtun/compress.c:598-615 | learning in the context where the symbol was found commutes with patching all the contexts above it |
| FrequencyModel.UpdateIsPatches | toxtun/compress.c:286-329 | the encoder's descent is a patch of each context above the one that knows the value, then of that one |
| FrequencyModel.DecoderOrderAgrees | toxtun/compress.c:562-615 | the decoder, which learns where it found the symbol first and patches the contexts above it afterwards, ends with the encoder's model |
| SymbolTree.FoundRep | toxtun/compress.c:190-194 | after an existing symbol was counted along its search path, the array of nodes represents the table with that one count raised |
| SymbolTree.CreatedRep | toxtun/compress.c:163-187 | after a symbol was created in a gap, the array represents the table with that symbol, and a fresh empty context below it |
| SymbolTree.ShrunkRep | toxtun/compress.c:90-105 | after every count of a context was halved and the cached sums rebuilt, the array represents the halved table, and no other context changed |
| SymbolTree.PathDone | toxtun/compress.c:168-197 | reaching the symbol, or the gap where it belongs, means every cached sum above it has been raised |
| RangeCoding.CodeSide | toxtun/compress.c:386-402 | the two comparisons of the decoder's walk tell on which side of a node the value lies whose share holds the code |
| RangeCoding.GapCodes | toxtun/compress.c:421-437 | in a gap of the tree each value has exactly one code, so the value recomputed from the code is the coded one |
| RangeCoding.RoomOk | toxtun/compress.c:313-328 | in a well-formed model one more update overflows neither the byte of a count nor the 16 bits of a sum |
| RangeCoding.RangeCoder.EncodeSymbol | toxtun/compress.c:159-199 | returns the exact cumulative and own count of the value in the frequency table, raises its count by the update, and yields the node of the extended context |
| RangeCoding.RangeCoder.Descend | toxtun/compress.c:168-197 | the search ends at the node of the value or at the gap it belongs to, with the sum of all smaller counts passed, and has raised exactly the sums on the path |
| RangeCoding.RangeCoder.DescendCode | toxtun/compress.c:384-412 | the search by code ends where the search for the coded value would, with the same sums; on a code beyond all symbols nothing changed |
| RangeCoding.RangeCoder.TryDecode | toxtun/compress.c:415-416 | succeeds exactly for a code inside some share, and then returns the value of that share with its cumulative and own count; a failure changes nothing |
| RangeCoding.RangeCoder.RootDecode | toxtun/compress.c:418-438 | every code of the root decodes to the value whose share holds it, created when it was absent, with its cumulative and own count |
| RangeCoding.RangeCoder.CreateSymbol | toxtun/compress.c:68-80 | the next free slot becomes an empty context reached by the longer path, in the place of the tree that was free |
| RangeCoding.RangeCoder.CreateBelow | toxtun/compress.c:168-187 | the same below a node of an existing tree |
| RangeCoding.RangeCoder.CountSymbol | toxtun/compress.c:190-194 | one count of the represented table goes up, nothing else |
| RangeCoding.RangeCoder.RescaleSymbols | toxtun/compress.c:90-105 | halves the counts of a subtree, rebuilds its cached sums, returns the sum of the halved counts |
| RangeCoding.RangeCoder.RescaleNode | toxtun/compress.c:95-103 | one round: the node and its left subtree are halved, the running total is that of all values up to it |
| RangeCoding.RangeCoder.RescaleTree | toxtun/compress.c:109 | the represented frequencies are halved and the total returned is their sum; escapes stay |
| RangeCoding.RangeCoder.RescaleContext | toxtun/compress.c:107-112 | the represented context becomes the rescaled one: total equal to escapes plus halved counts plus minimums |
| RangeCoding.RangeCoder.SetFields | toxtun/compress.c:309-312 | only the escapes and the total of one context change |
| RangeCoding.RangeCoder.Settle | toxtun/compress.c:301-314 | with the symbol counted, escapes, total and rescaling bring the model to that of the context having learnt the value |
| RangeCoding.RangeCoder.StoreParent | toxtun/compress.c:294-295 | only the parent link of one symbol changes |
| RangeCoding.RangeCoder.CreateRoot | toxtun/compress.c:82-88 | the table is the initial one: the root context with one escape and a minimum of one for each value |
| Compressor.PutEvent | toxtun/compress.c:121-137 | writes exactly the bytes of the specified event, leaves its interval, and fails exactly when they do not fit |
| Compressor.PutFlush | toxtun/compress.c:139-146 | writes the low end up to its last non-zero byte, or fails exactly when it does not fit |
| Compressor.Seed | toxtun/compress.c:344-350 | the code is the first 32-bit word of the input, zeros after its end |
| Compressor.TakeEvent | toxtun/compress.c:354-371 | the decoder's interval after an event is the encoder's, and its code the word as many bytes further on as the encoder wrote |
| Compressor.CodeContext | toxtun/compress.c:293-314 | one context of the encoder: the events coded are those of the model, the model learns the value, and the parent link is set or left to the next context |
| Compressor.PutContextEvent | toxtun/compress.c:301-308 | codes the symbol, or an escape unless the context is empty or holds only escapes |
| Compressor.LookUp | toxtun/compress.c:293-295 | the value is found or created, counted, and linked below the symbol of the longer context |
| Compressor.EncodeRound | toxtun/compress.c:286-316 | one turn of the loop over contexts; when the value is not known the rest of the chain is ready for the next turn |
| Compressor.EncodeByte | toxtun/compress.c:284-329 | all contexts from the predicted one down: events, model and next predicted context are those of the specification |
| Compressor.CompressByte | toxtun/compress.c:284-336 | one byte moves the encoder one step of the reference coder, or the whole output cannot fit |
| Compressor.NextInput | toxtun/compress.c:331-336 | below order two the context is that of the symbol just coded and the order rises, from then on it is the one of the symbol one order lower; with 4094 symbols in use the table starts afresh in the root; otherwise nothing in the table changes |
| Compressor.TryContext | toxtun/compress.c:536-567 | one context of the decoder: it takes the encoder's event, finds exactly the encoded value if the context knows it and otherwise escapes without change |
| Compressor.TryRoot | toxtun/compress.c:570-596 | the root: ends exactly when the input of the encoder ended, and otherwise finds the encoded value |
| Compressor.FindContext | toxtun/compress.c:529-568 | stops at the first context of the chain that knows the encoded value, having learnt it only there |
| Compressor.DecodeByte | toxtun/compress.c:522-615 | one byte: the value is the encoder's, the model after the patches the encoder's, and the end is reported exactly at the end |
| Compressor.PatchRound | toxtun/compress.c:603-613 | a context that lacked the value learns it with an escape, and the chain goes on below |
| Compressor.PatchContexts | toxtun/compress.c:598-615 | all contexts above the one that knew the value learn it, and every parent link is complete again |
| Compressor.LinkLast | toxtun/compress.c:615 | the last symbol created hangs below the one that was decoded |
| Compressor.PatchPlan | toxtun/compress.c:599-613 | what is left to patch after one context is the plan for the rest of the chain |
| Compressor.PlanRound | toxtun/compress.c:286-329 | what is left to code after one context is the plan for the rest of the chain, or the output limit is passed for good |
| KcpSystem.DeliveredIsPrefix | toxtun-go/kcp.go:180-296 | in every run of two endpoints over a network that drops, repeats, reorders and regroups segments, what Recv gave either side is a prefix of the messages Send accepted on the other, boundaries intact |
| KcpSystem.NothingIsLost | toxtun-go/kcp.go:327-354 | in every reachable state each piece numbered so far is in the send buffer, or in the reorder buffer or receive queue of the other side, or was read there, with the same content |
| KcpSystem.NothingWaitingMeansAllReceived | toxtun-go/kcp.go:874-876 | when nothing waits on the sending side, what was read, queued and reordered on the other side is together exactly everything sent |
| KcpSystem.RecvAnswersNext | toxtun-go/kcp.go:180-217 | at every moment of every run Recv answers -1 if and only if nothing is in order, -2 while a piece of the next message sent is missing, -3 if that message is larger than the buffer, and otherwise its length |
| KcpSystem.BuffersStayOrdered | toxtun-go/kcp.go:365-408 | in every reachable state the send buffer is strictly ascending within [una, nxt) and the reorder buffer within [rcv_nxt, rcv_nxt + wnd), in the wrapping comparisons of the code |
| KcpSystem.RunIsGood | toxtun-go/kcp.go:411-726 | the invariant that ties both 32-bit endpoints to unbounded numbers holds in every state of every run, in both directions |
| KcpSystem.MovedInv | toxtun-go/kcp.go:611-630 | moving the queue into the window numbers the pieces consecutively and stops exactly when the window allowed is full, counted from the first unacknowledged one, or the queue is empty |
| KcpSystem.DeliverAcknowledges | toxtun-go/kcp.go:456-472 | one delivered segment adds one acknowledgement, its own, exactly if it is pushed and lies inside the receive window, and then the piece is held |
| KcpSystem.DeliverConfirms | toxtun-go/kcp.go:447-455 | every delivered segment, of whatever command, takes off what is outstanding exactly the numbers before the one it says is expected next, and an acknowledgement the one it names |
| KcpSystem.PushedIsAcknowledged | toxtun-go/kcp.go:411-484 | in every run, after a datagram every pushed piece of it that lay inside the receive window is on the list of acknowledgements, and what was on the list stays |
| KcpSpec.DiffExact | toxtun-go/kcp.go:89-91 | the signed difference of wrapped numbers is the true difference while they are less than 2^31 apart |
| KcpDirection.UnaStep | toxtun-go/kcp.go:343-354 | a cumulative acknowledgement, however late within the age limit, removes exactly the pieces before it, which the receiver has |
| KcpDirection.AckStep | toxtun-go/kcp.go:327-341 | a selective acknowledgement removes exactly the piece it names, which the receiver has, and no other |
| KcpDirection.AdvanceInv | toxtun-go/kcp.go:396-408 | moving what continues the queue out of the reorder buffer forgets and invents nothing |
| KcpDirection.AdvanceIsMaximal | toxtun-go/kcp.go:396-408 | it stops only when the queue is full or the next piece has not come |
| KcpDirection.DataStep | toxtun-go/kcp.go:365-408 | a pushed piece in the window, new or repeated, is held afterwards and nothing else is gained or lost |
| KcpDirection.PushStep | toxtun-go/kcp.go:456-472 | a pushed segment is acknowledged if and only if its true number lies before the end of the receive window, each time it comes; then its piece is held and nothing else is gained or lost; beyond the window it changes nothing |
| KcpDirection.AheadBounded | toxtun-go/kcp.go:605-612 | the sender is never further ahead than both windows together |
| KcpDirection.WindowTests | toxtun-go/kcp.go:366-369 | the two comparisons that reject a piece agree with its true place in the receiver's window |
| KcpMessages.MessageShape | toxtun-go/kcp.go:262-296 | an accepted message becomes 1 to 255 pieces of at most mss bytes, counted down to zero, that join to the message |
| KcpMessages.FragmentsJoin | toxtun-go/kcp.go:280-294 | the pieces of a buffer join to the buffer |
| KcpMessages.RecvIsNextMessage | toxtun-go/kcp.go:205-259 | a successful Recv copies out the next message, whole: its length, its bytes, its number of pieces |
| KcpMessages.RecvStep | toxtun-go/kcp.go:205-259 | Recv gives the user exactly the next message and keeps the invariant |
| KcpMessages.SendAnswers | toxtun-go/kcp.go:262-278 | Send refuses the empty message with -1 and one longer than 255 full fragments with -2, and takes every other one |
| KcpMessages.FragmentsAreFull | toxtun-go/kcp.go:280-294 | every fragment of a message but the last is full, and the last is not empty |
| KcpMessages.RecvDrains | toxtun-go/kcp.go:238-252 | what a successful Recv leaves in the reorder buffer does not continue the queue or has no room in it |
| KcpMessages.SendStep | toxtun-go/kcp.go:262-296 | Send appends the pieces of one message and keeps the invariant |
| KcpWire.ParseEncoded | toxtun-go/kcp.go:411-484 | decoding the encoding of any segments gives back the same segments in the same order and reports success |
| KcpWire.ParsedIsAPrefix | toxtun-go/kcp.go:411-484 | of any bytes whatever, the segments taken encode to a prefix of the bytes, and success means less than a header was left |
| KcpWire.HeaderRoundTrip | toxtun-go/kcp.go:110-120 | all header fields come back out of the 24 bytes |
| KcpWire.HeaderLayout | toxtun-go/kcp.go:110-120 | the 24 bytes of a header in order, each number with its low byte first |
| KcpWire.PackAllFits | toxtun-go/kcp.go:678-684 | packing into datagrams keeps all segments in order and never exceeds mtu |
| KcpWire.DatagramsRoundTrip | toxtun-go/kcp.go:534-700 | the datagrams of a flush are at most mtu bytes each and decode to exactly the segments written, in order |
| KcpWire.EmptyDatagramFirst | toxtun-go/kcp.go:678-683 | of any segments, a flush outputs an empty datagram if and only if the first one written is data that fills the mtu; it is then the first datagram, and no other one is empty |
| KcpWire.DatagramsFillUp | toxtun-go/kcp.go:678-684 | packing is greedy: a datagram is started only for a segment that had no room in the one before, where data that would just fill it has none |
| KcpWindow.AckedKeepsWindow | toxtun-go/kcp.go:486-506 | while the next segment fits 32 bits, cwnd * mss <= incr < (cwnd + 1) * mss stands through slow start and congestion avoidance; the window grows by at most one and never past the remote window |
| KcpWindow.AckedIs | toxtun-go/kcp.go:486-506 | an acknowledgement adds one segment below the threshold; above it incr gains mss * mss / incr + mss / 16 and the window one segment exactly when incr reaches the size of the next; a window the remote side cannot take stays |
| KcpWindow.WindowGrows | toxtun-go/kcp.go:492-500 | below the remote window, acknowledgements in a row that leave the window unchanged are, a sixteenth of a segment each, together less than a segment |
| KcpWindow.SentKeepsWindow | toxtun-go/kcp.go:702-725 | through fast resend and timeout the same bound stands if and only if the window after a fast resend without timeout, times mss, fits 32 bits; the window is at least one, and ssthresh never falls below 2 |
| KcpWindow.SentIs | toxtun-go/kcp.go:702-725 | a loss leaves a window of one segment and half the allowed window as threshold, a fast resend half of what is in flight and a window above it, both thresholds at least two; otherwise only an empty window changes |
| KcpWindow.WindowBreaks | toxtun-go/kcp.go:702-712 | it does break: with 65535 segments of 131072 bytes in flight and a fast resend after two skips, incr is one segment while cwnd is 32769 |
| KcpWindow.SlowStartKeeps | toxtun-go/kcp.go:489-491 | slow start adds one segment and keeps the bound |
| KcpWindow.AvoidanceKeeps | toxtun-go/kcp.go:492-500 | congestion avoidance adds less than a segment of bytes, at most one segment, and keeps the bound |
| KcpSegments.AckedRemoves | toxtun-go/kcp.go:332-340 | parse_ack removes at most the first segment of that number; the others only count a skipped acknowledgement |
| KcpSegments.UnpassedIs | toxtun-go/kcp.go:343-354 | the longest run at the front that una passes leaves, the rest stays |
| KcpSegments.AckedIs | toxtun-go/kcp.go:332-340 | the first segment of that number leaves; every one before it, or every one if there is none, counts one skip more, and those behind it stay |
| KcpSegments.RefreshedIs | toxtun-go/kcp.go:643-674 | an entry is sent if and only if it never was, or its time has come, or it was skipped often enough; its count, timer, skips, time, window and acknowledgement afterwards, field by field; an entry not sent stays as it is |
| KcpSegments.FlushSends | toxtun-go/kcp.go:643-694 | flush writes exactly these entries, in order, with the time, window and acknowledgement of this flush |
| KcpSegments.FlushedIs | toxtun-go/kcp.go:643-694 | a loss is reported if and only if the time of a sent entry has come, a change if and only if one was skipped often enough before its time, a dead link if and only if one is sent for the tenth time or more |
| KcpSegments.AckWiresAre | toxtun-go/kcp.go:534-549 | acknowledgement number i answers entry i of the list, with its time |
| KcpSegments.ResentOnTime | toxtun-go/kcp.go:651-669 | however often flush is called, a segment once sent is written again by the first flush at or after the end of its timer, and by none before it unless it was skipped often enough; in unbounded times |
| KcpSegments.SecondSending | toxtun-go/kcp.go:646-651 | after its first sending the timer ends a timeout and an eighth later, or a timeout later without delay |
| KcpSegments.RefreshKeepsEntries | toxtun-go/kcp.go:643-694 | sending and resending changes no number and no content of the send buffer |
| KcpSegments.PushWiresWritten | toxtun-go/kcp.go:670-689 | every data segment written carries an entry of the send buffer and the current una |
| KcpSegments.AckWiresWritten | toxtun-go/kcp.go:534-549 | every acknowledgement written names a pending number, with no data |
| KcpRefinement.InputIsDelivery | toxtun-go/kcp.go:411-484 | Input of the bytes of any segments on the network is a delivery step of the two-endpoint system |
| KcpRefinement.FlushIsStep | toxtun-go/kcp.go:519-726 | whatever a flush writes, under any window it is allowed, is a flush step of the system |
| KcpRefinement.FlushWritesByTheRules | toxtun-go/kcp.go:528-694 | acknowledgements, probes and data a flush writes are all segments the system may emit |
| KcpRefinement.PacketsAreWires | toxtun-go/kcp.go:411-484 | delivering packets of the system does to an endpoint what their wire segments do |
| Kcp.KCP.constructor | toxtun-go/kcp.go:159-176 | a new endpoint is the start state, with the congestion bound in place |
| Kcp.KCP.PeekSize | toxtun-go/kcp.go:180-202 | the length of the next message if all its fragments are there, otherwise -1 |
| Kcp.KCP.Recv | toxtun-go/kcp.go:205-259 | the codes -1, -2 and -3 change nothing; otherwise exactly the next message is copied out, the reorder buffer is drained and a window that was full is announced |
| Kcp.KCP.Merge | toxtun-go/kcp.go:220-232 | copies the fragments of one message, and how many they are |
| Kcp.KCP.MoveAvailable | toxtun-go/kcp.go:238-252 | drains the reorder buffer as far as it continues the queue and the queue has room |
| Kcp.KCP.Send | toxtun-go/kcp.go:262-296 | appends the pieces of the message, or nothing with the code for empty and too long messages |
| Kcp.KCP.SendLoop | toxtun-go/kcp.go:280-294 | appends the fragments of the message in order |
| Kcp.KCP.ShrinkBuf | toxtun-go/kcp.go:318-325 | snd_una becomes the first number in the send buffer, or snd_nxt |
| Kcp.KCP.ParseAck | toxtun-go/kcp.go:327-341 | the named segment leaves the send buffer, ignoring numbers outside [una, nxt) |
| Kcp.KCP.ParseUna | toxtun-go/kcp.go:343-354 | the segments before una leave the send buffer, the others stay as they are |
| Kcp.KCP.AckPush | toxtun-go/kcp.go:357-359 | one acknowledgement is appended |
| Kcp.KCP.ParseData | toxtun-go/kcp.go:365-408 | the piece is inserted in order unless repeated or outside the window, then the buffer is drained |
| Kcp.KCP.InsertData | toxtun-go/kcp.go:371-394 | the backward search inserts at the one place that keeps the order, and drops a repeat |
| Kcp.KCP.UpdateAck | toxtun-go/kcp.go:298-316 | the first sample is taken as it is; of a further one an eighth goes into the mean, which stays between both, and a quarter of its distance into the variation; the timeout is the mean and four times the variation within its limits |
| Kcp.KCP.Input | toxtun-go/kcp.go:411-509 | the result code, both halves of the endpoint, the remote window, the probe request and the congestion window are those of the segments parsed, up to the first malformed one; the acknowledgement list gains, in order, the number and time of each pushed segment that lay before the end of the receive window when its turn came, repeats included; segment by segment, those that una passes leave the send buffer, the one acknowledged leaves and each before it counts one skip more, the others stay as they are, and the round-trip estimate takes in the samples and nothing else; with a 16-bit segment size the congestion bound is kept |
| Kcp.KCP.InputLoop | toxtun-go/kcp.go:414-484 | the decoding loop applies exactly the segments of the parse, in order, and acknowledges the same ones |
| Kcp.KCP.HandleSegment | toxtun-go/kcp.go:445-482 | each command does to the endpoint what the specification says, after the cumulative acknowledgement; an acknowledgement is recorded exactly for a pushed segment before the end of the receive window; only an acknowledgement that is not ahead of time gives a round-trip sample |
| Kcp.KCP.HandlePush | toxtun-go/kcp.go:457-473 | the acknowledgement recorded, and the piece taken exactly if it lies inside the window; otherwise the receiver stays as it was |
| Kcp.KCP.HandleAck | toxtun-go/kcp.go:451-456 | the named segment leaves; a time that is not ahead gives a sample, another one none |
| Kcp.KCP.HandleNext | toxtun-go/kcp.go:440-483 | one turn of the loop, with what has been handled so far |
| Kcp.KCP.Update | toxtun-go/kcp.go:731-755 | a flush is due on the first call, when its time has come or the clock jumped; the next one is then at most an interval away |
| Kcp.KCP.WndUnused | toxtun-go/kcp.go:511-516 | together with the receive queue it makes up the window, and it is zero if the queue is as long as the window or longer |
| Kcp.KCP.Put | toxtun-go/kcp.go:678-688 | appends one segment, first outputting the buffer when it would not fit; what was output and buffered is the packing of all segments so far |
| Kcp.KCP.FlushAcks | toxtun-go/kcp.go:534-549 | writes all pending acknowledgements in order and clears them |
| Kcp.KCP.UpdateProbe | toxtun-go/kcp.go:551-572 | while the remote window is closed the wait starts at 7 seconds, never falls, grows by half exactly when it is over and stays within 120 seconds, and a probe is asked for exactly then; once the window opens the timer is cleared |
| Kcp.KCP.FlushProbes | toxtun-go/kcp.go:574-602 | a window request and an announcement, in the header of the last acknowledgement |
| Kcp.KCP.MoveQueue | toxtun-go/kcp.go:604-630 | numbers queued pieces while the window has room; they are unsent and unskipped |
| Kcp.KCP.FlushData | toxtun-go/kcp.go:642-694 | writes exactly the entries that are new, whose time has come or that were skipped often enough, leaves each with the count and timer stated and every other one unchanged, and reports losses, fast resends and a dead link exactly for these |
| Kcp.KCP.FlushSegments | toxtun-go/kcp.go:604-700 | moving, sending and the last output together, with the same account of every entry |
| Kcp.KCP.FlushRemains | toxtun-go/kcp.go:696-700 | the rest of the buffer is the last datagram |
| Kcp.KCP.FlushControl | toxtun-go/kcp.go:534-602 | acknowledgements, then window request and announcement |
| Kcp.KCP.FlushAll | toxtun-go/kcp.go:528-700 | acknowledgements, probes and data together |
| Kcp.KCP.FlushWindow | toxtun-go/kcp.go:702-725 | the congestion window after a flush with and without losses and fast resends |
| Kcp.KCP.Flush | toxtun-go/kcp.go:519-726 | the datagrams are the packing of acknowledgements, probes and data; which entries are sent, what becomes of every one, and what the congestion window and the link become of it, are stated on the fields; the congestion bound is kept if and only if the window after a fast resend fits; nothing happens before the first update |
| Kcp.AdvertisedAreTaken | toxtun-go/kcp.go:396-408 | the advertised number of pieces that continue the queue is exactly the number that is moved to it, however many there are |
| Kcp.LongestWait | toxtun-go/kcp.go:556-566 | after eight waits in a row the wait is the longest, and stays so |
| Kcp.EncodeHeader | toxtun-go/kcp.go:110-120 | writes the 24 header bytes in place and nothing before them changes |
| Kcp.DecodeHeader | toxtun-go/kcp.go:426-437 | reads the fields the header encodes |
| SafeDecoder.Decoder.Decompress | toxtun/compress.c:498-627 | for any input bytes at all the decoder ends, stays inside the symbol table and never divides by zero, although its words, codes and values wrap; at most outLimit bytes come out, and between any two of them the forest of symbols and all its sums are right |
| SafeDecoder.Decoder.DecodeByte | toxtun/compress.c:522-615 | one byte of any input: the forest stays right, every parent is one order lower, the symbol predicted next is one order higher and holds the byte that comes out |
| SafeDecoder.Decoder.TryContext | toxtun/compress.c:536-567 | one subcontext, any code: an empty or full one is passed over, an escape keeps everything, a symbol found is counted and its sums settled, and a code past the counts gives up |
| SafeDecoder.Decoder.TryRoot | toxtun/compress.c:570-596 | the root, any code: the end, or a symbol of order one that holds the byte, old or new, with all sums settled |
| SafeDecoder.Decoder.FindContext | toxtun/compress.c:529-568 | the loop reaches a context that parents lead to from the predicted one, and ends |
| SafeDecoder.Decoder.PatchContexts | toxtun/compress.c:598-615 | the loop reaches the context the symbol was found in; all contexts passed learn the byte, the symbol of each has that of the next as its parent, and none lies beyond the table |
| SafeDecoder.Decoder.PatchStep | toxtun/compress.c:599-613 | one turn: the context learns the byte, its symbol becomes the parent of the one before, and the contexts still to come are not affected |
| SafeDecoder.Decoder.Encode | toxtun/compress.c:159-199 | in a context whose values are in any order the walk ends at the value or where it is missing; one symbol counts two more, and the tree and its cached sums stay right |
| SafeDecoder.Decoder.Descend | toxtun/compress.c:168-197 | the walk moves forward in the table, raises the sum of each node it leaves to the left, and ends where the comparison leads to no child |
| SafeDecoder.Decoder.DescendCode | toxtun/compress.c:384-412 | the same for the walk by code, with 16-bit sums that may wrap |
| SafeDecoder.Decoder.TryDecode | toxtun/compress.c:415-416 | a symbol found is counted and holds the value returned |
| SafeDecoder.Decoder.RootDecode | toxtun/compress.c:418-438 | a symbol is always found or created, and holds the value returned, cut to a byte |
| SafeDecoder.Decoder.Hang | toxtun/compress.c:68-80 | a new symbol at the end of a walk becomes a leaf of the tree, on the side where there was none |
| SafeDecoder.Decoder.First | toxtun/compress.c:68-80 | the first symbol of a context |
| SafeDecoder.Decoder.Count | toxtun/compress.c:403-410 | the symbol at the end of a walk is counted, without overflow of its 8-bit count or 16-bit sum |
| SafeDecoder.Decoder.RescaleSymbols | toxtun/compress.c:90-105 | halves the counts of any tree, rebuilds its cached sums, and returns the sum of its counts; nothing outside the tree changes |
| SafeDecoder.Decoder.RescaleNode | toxtun/compress.c:95-103 | one round: a node and its left part |
| SafeDecoder.Decoder.RescaleContext | toxtun/compress.c:107-112 | afterwards the total is the sum of escapes, counts and minimum again, and both limits are kept |
| SafeDecoder.Decoder.Settle | toxtun/compress.c:301-314 | after a context has counted a symbol, escapes, total and rescaling make every sum right again and keep every count and total below its limit |
| SafeDecoder.Decoder.StoreParent | toxtun/compress.c:604-605 | only the parent of one symbol changes |
| SafeDecoder.Decoder.CreateRoot | toxtun/compress.c:82-88 | the empty root, with all sums right |
| SafeDecoder.Decoder.NextInput | toxtun/compress.c:619-623 | the order and the predicted symbol agree again, and there is room for another byte |
| SafeDecoder.TakeEvent | toxtun/compress.c:352-371 | from any interval, wrapped or not, the renormalisation ends with a range of at least 2^16 |
| SafeDecoder.RoundEnds | toxtun/compress.c:356-370 | a round of the renormalisation on 32-bit words lowers a bound on the rounds left: first for intervals that wrap around the end of the word, then for the others |
| SafeDecoder.WrapsOn | toxtun/compress.c:358-369 | an interval that wraps with both ends in one byte keeps wrapping and grows shorter |
| SafeDecoder.WrapEnds | toxtun/compress.c:360-361 | a short interval that wraps is cut to end with the word |
| SafeDecoder.PastEveryShare | toxtun/compress.c:418-424 | of four bytes 0xFF the first code lies past the share of the last value: the byte found is 256 cut to 0, and low is the last word |
| SymbolForest.Moved | toxtun/compress.c:398-402 | a walk that goes on from a node to a child below it keeps what is said of every cached sum while it is under way |
| SymbolForest.Finished | toxtun/compress.c:390-410 | where the walk ends and something is counted, all cached sums above are right again |
| SymbolForest.HungThere | toxtun/compress.c:168-187 | a new symbol where a child was missing makes the tree one larger and its sum right |
| SymbolForest.Counted | toxtun/compress.c:403-410 | a symbol that is counted makes the sum of its tree right |
| SymbolForest.GrownForest | toxtun/compress.c:68-80 | a new symbol in one context leaves the trees of all others as they are, and all trees apart |
| SymbolForest.CountedForest | toxtun/compress.c:403-410 | so does a symbol counted once more |
| SymbolForest.LearntOwes | toxtun/compress.c:301-314 | after a context has counted a symbol only its own total is short, by what was counted |
| SymbolForest.PaidIsFull | toxtun/compress.c:309-312 | with escapes and total raised every sum is right |
| SymbolForest.ShrunkIsSettled | toxtun/compress.c:107-112 | after rescaling, of whatever tree, the total is at most 2^16 - 0x100 and no count above its limit |
| EnetSystem.DispatchedIsPrefix | toxtun/peer.c:785-1002 | in every run with packets of at most 4097 commands, over a network that drops, reorders and repeats commands for as long as they are outstanding and for a while after, the packets dispatched are a prefix of the packets sent, whole, once and in order, despite 16-bit numbers; `EnetStale.FragmentBoundExact` says that 4097 is exactly where this ends |
| EnetSystem.AcknowledgedHasArrived | toxtun/peer.c:585-614 | in every such run an acknowledged command has arrived: its packet was dispatched, or is held whole, or holds that fragment |
| EnetSystem.DiscardedIsSilent | toxtun/peer.c:592-599 | a first-time command is discarded if and only if its packet starts seven windows ahead of the receiver, and unacknowledged if and only if it lies there itself: the start of a packet is acknowledged exactly when it is not discarded, and a later fragment is held without acknowledgement exactly when only it lies there |
| EnetSystem.RoomIsAcknowledged | toxtun/protocol.c:425-621 | in every reachable state, a command delivered while there is room, of a packet within the limits of the receiver, is acknowledged, new or repeated, unless it lies in the window that keeps acknowledgements back |
| EnetSystem.SilentIffSevenAhead | toxtun/peer.c:592-599 | a number sent and not yet dispatched is left unacknowledged if and only if it lies exactly seven windows ahead |
| EnetSystem.WithinSevenWindows | toxtun/protocol.c:1519-1525 | in every state of such a run no command was sent that lies more than seven windows ahead of the receiver's last dispatched number |
| EnetSystem.EnterWindow | toxtun/protocol.c:1519-1525 | passing the guard at the first number of a window means everything unacknowledged is within eight windows and the receiver within seven |
| EnetSystem.GuardPassed | toxtun/protocol.c:1519-1525 | an open guard means a free place in the window before and nothing unacknowledged in the eight windows from the next on, around the end of the word |
| EnetSystem.AcknowledgesOne | toxtun/protocol.c:189-272 | a 16-bit acknowledgement removes exactly the one command it was sent for |
| EnetSystem.AllAcknowledgedMeansAllDispatched | toxtun/protocol.c:827-913 | in every such run, when everything queued was sent and nothing is unacknowledged, every packet was dispatched |
| EnetSystem.RemainingIsClearBits | toxtun/protocol.c:603-607 | in every state of such a run the remaining count of each packet being reassembled is the number of clear bits of its map |
| EnetSystem.RunIsGood | toxtun/protocol.c:425-621 | the invariant of sender, network and receiver holds in every state of every such run |
| EnetSystem.SmallInReach | toxtun/protocol.c:533-541 | of packets of at most 4097 commands, the receiver is at most nine windows past the start of the packet of anything that is outstanding or was sent lately, so the window test takes none of it for new |
| EnetSystem.TakesKeeps | toxtun/protocol.c:425-621 | every step keeps the invariant, whatever the size of the packets, but for the delivery of a command whose packet starts more than nine windows behind the receiver |
| EnetWindows.AheadExact | toxtun/peer.c:840-848 | up to one lap ahead, the 16-bit window computation is the true difference of windows |
| EnetWindows.BehindExact | toxtun/peer.c:840-848 | behind the receiver, the computation is sixteen less the true difference |
| EnetWindows.OldDuplicateDiscardedIff | toxtun/peer.c:840-848 | an old duplicate is discarded if and only if it is at most nine windows behind |
| EnetWindows.DuplicateAcknowledgedIff | toxtun/peer.c:592-599 | an old duplicate is acknowledged again if and only if it is not eight or nine windows behind |
| EnetSilence.RepeatedInVain | toxtun/peer.c:592-599 | in every run with packets of at most 4097 commands, once the receiver is eight windows past a command that is still unacknowledged, it stays there, and whatever of the command is delivered leaves the channel as it is and is not acknowledged, in every later state until the command is acknowledged |
| EnetSilence.OutstandingIsSilent | toxtun/peer.c:840-848 | in such a state every delivery of the command, handled by the code, leaves the channel as it is, and its acknowledgement is suppressed |
| EnetSilence.OutstandingIsSilentIff | toxtun/protocol.c:533-541 | for packets of any size: the acknowledgement of such a command is always suppressed, and every delivery of it leaves the channel as it is if and only if the receiver is at most nine windows past the first number of its packet |
| EnetSilence.RepeatUnchangedIff | toxtun/protocol.c:533-541 | a repeat of any command of a packet already dispatched, within the limits of the receiver and less than a lap old, leaves the channel as it is if and only if the receiver is at most nine windows past the first number of the packet; otherwise it is queued as part of a new packet, with code 0 |
| EnetStale.StaleIsQueued | toxtun/protocol.c:533-577 | a reachable state in which the last fragment of a packet of 4098 is outstanding, the receiver eight windows past it and ten past the start of its packet: the fragment is not discarded but starts a packet that is not there yet |
| EnetStale.WrongBytesDispatched | toxtun/protocol.c:533-618 | the run that follows, a lap later: a second packet of 4098 fragments is dispatched with the last byte of the first one, so the packets dispatched are no prefix of those sent |
| EnetStale.AcknowledgedAndLost | toxtun/peer.c:854-881 | or a packet of one byte takes that number: it is discarded as already there and acknowledged, and with nothing unacknowledged the receiver never gets it |
| EnetStale.FragmentBoundExact | toxtun/protocol.c:533-541 | in all runs with packets of at most l commands the packets dispatched are a prefix of those sent if and only if l is at most 4097; so also for all acknowledged means all dispatched |
| EnetSilence.DeliveredButNotAcknowledged | toxtun/protocol.c:1519-1525 | such a state is reached: a run of 32768 packets in which the acknowledgement of the first does not arrive and the guard of the sender lets all others pass |
| EnetWindows.MaskWraps | toxtun/protocol.c:1523-1524 | the two shifted masks select exactly eight windows from a window on, around the end of the word |
| EnetWindows.BlocksIff | toxtun/protocol.c:1519-1525 | the guard closes if and only if at the first number of a window the window before is full or one of the eight is in use |
| EnetReceive.DispatchKeeps | toxtun/peer.c:785-821 | dispatching leaves an incomplete packet and all behind it in the queue, unchanged and in order |
| EnetFragments.CountCovers | toxtun/peer.c:117 | the fragment count is the least that covers a packet |
| EnetFragments.FirstMonotone | toxtun/peer.c:630-638 | the number ranges of successive packets follow each other without overlap |
| EnetFragments.SendFragments | toxtun/peer.c:142-177 | fragment i carries the bytes from i times the fragment length on, and the number of the packet it belongs to |
| EnetFragments.SetOne | toxtun/protocol.c:603-607 | setting a clear bit lowers the number of clear bits by exactly one |
| EnetFragments.NoneClear | toxtun/protocol.c:616 | no bit is clear if and only if every fragment has arrived |
| EnetFragments.MarkFills | toxtun/protocol.c:609-614 | a new fragment goes to its place and disturbs no other fragment |
| EnetFragments.FilledWhole | toxtun/protocol.c:603-617 | when no bit is clear, the buffer is the packet sent |
| EnetDelivery.KeyExact | toxtun/peer.c:864-880 | the wrapping order used by the scans is the true order of numbers up to one lap ahead |
| EnetDelivery.PlaceExact | toxtun/peer.c:854-881 | the backward scan stops at exactly the place of the packet among those waiting, and recognises a repeat |
| EnetDelivery.DispatchInv | toxtun/peer.c:785-821 | dispatching keeps the invariant: the packets dispatched are the first ones sent, and nothing that arrived is forgotten |
| EnetDelivery.InsertInv | toxtun/peer.c:972 | queueing a packet at its place keeps the invariant |
| EnetDelivery.MarkInv | toxtun/protocol.c:603-618 | taking in a fragment keeps the invariant and is recorded; a repeated one changes nothing |
| EnetDelivery.OldArrives | toxtun/peer.c:838-848 | a command of a packet already dispatched changes nothing while the receiver is at most nine windows past the start of the packet |
| EnetDelivery.WholeArrives | toxtun/protocol.c:425-444 | an unfragmented packet handled without error is held or dispatched afterwards, or was discarded by the window test |
| EnetDelivery.FragmentArrives | toxtun/protocol.c:515-621 | the same for a fragment |
| EnetDelivery.Arrives | toxtun/protocol.c:425-621 | any command of the sender, however late, keeps the invariant and, if handled without error, has arrived or was discarded by the window test, unless its packet was dispatched and starts more than nine windows behind the receiver |
| EnetDelivery.RefusedIff | toxtun/protocol.c:425-621 | a command the sender sent, of a packet within the limits of the receiver, is refused if and only if too much data waits, its packet is still to come, nothing of it has arrived, and the window test does not discard it |
| EnetQueue.HandleKeepsQueue | toxtun/protocol.c:425-621 | whatever command arrives, the bits of every packet held are as many as its fragments and its count is of those missing, no packet is larger than allowed and nothing that could be dispatched waits; a command neither refused nor dropped goes into the entry of its packet, and the run of entries at the front that continues the last number is dispatched, with nothing missing from any |
| EnetQueue.RefusedExactly | toxtun/protocol.c:425-621 | the answer is -1 if and only if the command is malformed, a fragment does not fit the packet begun under its number or names the number dispatched last, or a new packet comes while too much data waits; nothing has changed then |
| EnetQueue.TakenThenDispatched | toxtun/protocol.c:425-621 | every other command goes into its entry, the place of its number if it is the first of its packet, and dispatching follows |
| EnetQueue.DispatchTakesRun | toxtun/peer.c:785-821 | dispatching hands over the longest run of complete entries at the front in which each continues the one before it |
| EnetChannel.IncomingChannel.Scan | toxtun/peer.c:850-881 | the source comparisons, scanning backwards, find the one place of the number in wrapping order and whether it is there already |
| EnetChannel.IncomingChannel.DispatchReliable | toxtun/peer.c:785-821 | dispatches exactly the run of complete packets that continue the last number |
| EnetChannel.IncomingChannel.QueueIncoming | toxtun/peer.c:824-1002 | discards by window, as repeat or for lack of room without change; otherwise queues at its place and dispatches what is ready; says where the entry is |
| EnetChannel.IncomingChannel.HandleSendReliable | toxtun/protocol.c:425-444 | the in-place channel does what the specification of the handler says, code included, and stays valid |
| EnetChannel.IncomingChannel.HandleSendFragment | toxtun/protocol.c:515-621 | the same for a fragment, whatever its fields |
| EnetChannel.IncomingChannel.MarkFragment | toxtun/protocol.c:603-618 | marks a fragment not seen before, copies it to its place, and dispatches when it was the last one |
| EnetPeer.Peer.constructor | toxtun/peer.c:372-425 | nothing in flight, all counters zero |
| EnetPeer.Peer.Queue | toxtun/peer.c:617-680 | a numbered command joins the end of the queue; every count agrees with the lists as before |
| EnetPeer.Peer.RemoveSent | toxtun/protocol.c:189-272 | a command is found exactly if one with that number and channel was sent, in either list; exactly the first such leaves, with its bytes and its window count, the time of the next check is that of the command then first in flight, and the early stop at an unsent command misses none |
| EnetPeer.Peer.CheckTimeouts | toxtun/protocol.c:1445-1495 | exactly the commands whose time ran out go back, in order, before the queue, with doubled timers, and the bytes in transit are those still in the list; the peer is given up if and only if there is a command at which it has been silent too long, and then at the first one, with the commands before it moved; the next check stays due when the timer of the first command in flight runs out |
| EnetPeer.Peer.CheckWhenDue | toxtun/protocol.c:1651-1660 | the timers are looked at if and only if that of the first command in flight has run out; then it goes back with every other whose time ran out, or the peer is given up, and otherwise nothing changes |
| EnetPeer.DueIffTimedOut | toxtun/protocol.c:1653 | the test that decides on a check is, for times less than a day apart, whether the first command has timed out, across the wrap of the clock |
| EnetPeer.LaterMustWait | toxtun/protocol.c:1651-1660 | a command behind one with a longer timer is not looked at when its own time has run out |
| EnetPeer.ExpiredAre | toxtun/protocol.c:1452-1483 | the commands that go back are those for which the time since they were sent has reached their timeout, with twice the timeout |
| EnetPeer.WaitingAre | toxtun/protocol.c:1458-1459 | those that stay are the others, unchanged |
| EnetPeer.TimeDifferenceExact | toxtun/protocol.c:1458-1471 | times less than a day apart are compared and subtracted exactly, across the wrap of the clock |
| EnetPeer.Peer.MoveBack | toxtun/protocol.c:1476-1483 | one command goes back behind those already moved; retried commands stay before unsent ones |
| EnetPeer.Peer.SendReliable | toxtun/protocol.c:1498-1619 | a command stays behind if and only if a first-time command at or before it is stopped by the window guard as the counters stood, and it is on a channel; or data at or before it would have passed the limit, and it carries data; or the pass had stopped for want of commands, buffers or room at a command that neither held. Those sent move in order to the sent list, none of a channel overtakes another, with the time and timer of this sending; counters, bytes in transit and datagram size are exactly those; `continueSending` is whether the pass stopped, `canPing` whether it wanted to send nothing |
| EnetPeer.EverythingIsSent | toxtun/protocol.c:1498-1619 | a queue that fits the limit, the datagram, the commands and the buffers, and in which no command opens a window, is sent as a whole in one pass |
| EnetPeer.Judge | toxtun/protocol.c:1512-1565 | what one turn of the loop finds out about a command is why it stays or goes |
| EnetPeer.Peer.SendOne | toxtun/protocol.c:1567-1607 | one command moves to the sent list, counted in its window the first time only |
| EnetPeer.Peer.TakeSent | toxtun/protocol.c:231-250 | a sent command leaves, with its bytes and its window count |
| EnetPeer.Peer.TakeRetried | toxtun/protocol.c:231-250 | a command waiting to be resent leaves, with its window count |
| EnetPeer.Peer.Uncount | toxtun/protocol.c:231-241 | the counter of the window goes down, and its used bit is cleared exactly when it reaches zero |
| EnetRefinement.PassIsTransmits | toxtun/protocol.c:1498-1619 | a pass over the queue is, for every channel, as many transmit steps of the system as commands were sent for the first time, each allowed by its guard; the lists and counters afterwards represent the new state, in which every command the pass sent, new or retried, may be delivered |
| EnetRefinement.RemovalIsAcknowledge | toxtun/protocol.c:189-272 | taking an acknowledgement removes a command if and only if the number it was sent for is outstanding, exactly that one, and is the acknowledge step of the system |
| EnetRefinement.TimeoutsAreSilent | toxtun/protocol.c:1445-1495 | timeouts change nothing that the system sees, at whichever command the check ends |
| EnetRefinement.QueuedIsSend | toxtun/peer.c:181-186 | numbering and queueing the commands of a packet is a send step of the system |
| EnetRefinement.OtherChannelStays | toxtun/protocol.c:231-241 | an acknowledgement for one channel leaves what the lists represent for every other one |
| EnetRefinement.NewPeerRepresents | toxtun/peer.c:372-425 | a new peer represents the start of a run |
| EnetRefinement.GuardAgrees | toxtun/protocol.c:1519-1525 | the test made on the peer's counters and bits is the guard of the system |
| EnetRefinement.SendPass | toxtun/protocol.c:1498-1619 | the method of the peer does those transmit steps, all that were waiting if nothing hinders it, and everything in its list of sent commands may be delivered afterwards |
| EnetRefinement.InFlightMayArrive | toxtun/protocol.c:1498-1619 | every command the lists hold as sent at least once is outstanding in the system represented, and its delivery is a step of that system whatever the limits of the receiver |
| EnetRefinement.DeliveryRepresents | toxtun/protocol.c:425-621 | of packets of at most 4097 commands, any delivery leaves the lists representing the system |
| EnetRefinement.TakeAcknowledgement | toxtun/protocol.c:827-883 | the method of the peer does that acknowledge step |
| EnetRefinement.CheckPeer | toxtun/protocol.c:1445-1495 | the method of the peer changes nothing the system sees, whether it gives up or not |
| EnetRefinement.QueuePacket | toxtun/peer.c:181-186 | queueing command by command does that send step |
| EnetCrc.Crc.EnetCrc32 | toxtun/packet.c:143-163 | before the byte swap the result is the bit-serial reflected CRC-32 of section 8 of RFC 1952 over the concatenated buffers, however they are split |
| EnetCrc.Crc.InitializeCrc32 | toxtun/packet.c:119-140 | each of the 256 entries is what eight reflected steps make of its index |
| EnetCrc.ReflectCrc | toxtun/packet.c:105-116 | the low bits come back in reverse order and nothing else |
| EnetCrc.PolynomialsMirror | toxtun/packet.c:131 | 0x04c11db7 read backwards is 0xEDB88320 |
| EnetCrc.MirrorStep | toxtun/packet.c:130-133 | a step of the left-shifting register is the mirror of a step of the right-shifting one |
| EnetCrc.MirrorSteps | toxtun/packet.c:128-136 | and so for any number of steps |
| EnetCrc.StepsXor | toxtun/packet.c:154-157 | the register is linear over exclusive or |
| EnetCrc.StepsShift | toxtun/packet.c:154-157 | with the low bits clear, steps only shift |
| EnetCrc.StepsSplit | toxtun/packet.c:154-157 | eight steps are a shift by eight combined with the steps of the low byte alone |
| EnetCrc.TableFeeds | toxtun/packet.c:154-157 | one table look-up does eight bit-serial steps, for any register and byte |
| EnetCrc.EntryIsSteps | toxtun/packet.c:119-140 | reflecting, shifting to the left and reflecting back is the entry of the right-shifting register |
| EnetCrc.RunningParts | toxtun/packet.c:145-158 | the running value over two parts is that over their concatenation |
| EnetList.Node.constructor | toxtun/list.c:14-18 | a cleared list is a ring of the sentinel alone |
| EnetList.Insert | toxtun/list.c:21-32 | insertion before any node of the ring, in both directions of links |
| EnetList.Remove | toxtun/list.c:35-41 | deletion of one node from the ring; its own links stay as they were |
| EnetList.MoveWithin | toxtun/list.c:44-59 | a range moves to any place outside it in the same ring: a cut and a splice |
| EnetList.MoveToOther | toxtun/list.c:44-59 | a range moves into another ring; both stay rings |
| EnetList.Unlink | toxtun/list.c:49-50 | the ring closes over the range, which stays linked inside |
| EnetList.Link | toxtun/list.c:52-56 | the range goes in before a node |
| EnetList.Size | toxtun/list.c:62-73 | the counting loop terminates with the number of nodes besides the sentinel |
| EnetList.BypassedRing | toxtun/list.c:35-59 | joining the two neighbours of a range leaves a ring without it |
| EnetList.JoinedRing | toxtun/list.c:21-59 | joining both ends of a chain to two neighbours leaves a ring with it |
| EnetBandwidth.Redistribute | toxtun/host.c:435-489 | terminates; every connected peer that shares is told the smaller of its own limit and one level, which never falls between rounds and is the lowest at which they can stop; these limits sum as numbers to at most the bandwidth, with less than one unit left over for each peer held to the level; a peer is told zero, which means no limit, only if it asked for none or there is less than one unit per peer; peers marked before are told their own limit |
| EnetBandwidth.Round | toxtun/host.c:448-468 | one round marks exactly the peers that ask for less than the level and keeps enough for all others |
| EnetBandwidth.LevelIsFair | toxtun/host.c:446-469 | a settled level fits the bandwidth and leaves less than a unit for each peer held to it |
| EnetBandwidth.ToldIs | toxtun/host.c:471-488 | what all peers are told is what the marked ones asked for and the level for each other one |
| EnetBandwidth.NewLevel | toxtun/host.c:449 | the new level is not below the one before |
| EnetBandwidth.BudgetMarked | toxtun/host.c:459-467 | marking a peer keeps the remaining bandwidth enough for the level |
| EnetBandwidth.LevelIsLowIffTied | toxtun/host.c:446-469 | the level told is not the highest that fits, with someone left to gain, if and only if some peer asks for a limit at which one more unit for all who ask for more fits, but not for all who ask for at least that limit: a condition on the limits asked for and the bandwidth alone |
| EnetBandwidth.StopsLater | toxtun/host.c:449 | no round goes past a level at which the rounds can stop, so the level found is the lowest of these |
| EnetBandwidth.TiedAtThree | toxtun/host.c:459-461 | with limits 3, 3 and 100 and a bandwidth of 10 a level as the rounds find it is 3, although 4 fits |
| EnetBandwidth.OneMore | toxtun/host.c:446-469 | a level one higher costs exactly one unit for each peer that asks for more |
| EnetBandwidth.Tell | toxtun/host.c:471-488 | peers that are marked are told their own limit, the others the level |
| EnetHost.CountsChange | toxtun/peer.c:343-364 | replacing one peer changes the count of connected and of limited peers by exactly that peer |
| EnetHost.ReportsIs | toxtun/protocol.c:66-113 | of a zombie the end of its connection is reported and it is free again, of a peer waiting to be announced the connection, and of a connected one a packet, after which it needs dispatch as long as more wait |
| EnetHost.Host.constructor | toxtun/host.c:29-137 | no peer connected, nothing to dispatch, counters zero |
| EnetHost.Host.OnConnect | toxtun/peer.c:343-352 | both counters rise exactly when the peer was not connected |
| EnetHost.Host.OnDisconnect | toxtun/peer.c:355-364 | both counters fall exactly when the peer was connected; they do not go below zero |
| EnetHost.Host.ChangeState | toxtun/protocol.c:36-44 | one state changes, and both counters stay the true counts |
| EnetHost.Host.QueueDispatch | toxtun/protocol.c:51-56 | a peer joins the dispatch queue unless it is in it |
| EnetHost.Host.DispatchState | toxtun/protocol.c:47-57 | state, counters and queue together |
| EnetHost.Host.ResetQueues | toxtun/peer.c:305-340 | the peer leaves the dispatch queue, the others keep their order |
| EnetHost.Host.Reset | toxtun/peer.c:372-425 | the peer is as new, out of the queue and out of both counts |
| EnetHost.Host.TakeFree | toxtun/host.c:190-201 | takes the first disconnected peer if there is one |
| EnetHost.Host.NotifyConnect | toxtun/protocol.c:120-134 | the peer becomes connected with an event, or waits in the dispatch queue, and both counters stay the true counts |
| EnetHost.Host.NotifyDisconnect | toxtun/protocol.c:137-159 | reset when the connection was not complete or the event can be given, otherwise a zombie in the queue |
| EnetHost.Host.HandleVerifyConnect | toxtun/protocol.c:916-975 | only a connecting peer reacts: zombie on a mismatch, connected with its bandwidth counted otherwise; no other peer changes |
| EnetHost.Host.HandleDisconnect | toxtun/protocol.c:798-824 | what becomes of the peer from each state; counts and queue stay right and no other peer changes |
| EnetHost.Host.HandleBandwidthLimit | toxtun/protocol.c:751-782 | the limited count follows the change of limit of a connected peer; otherwise an error and no change |
| EnetHost.Host.Disconnect | toxtun/peer.c:527-561 | what becomes of the peer from each state; counts and queue stay right and no other peer changes |
| EnetHost.Host.DisconnectNow | toxtun/peer.c:496-518 | the peer is reset from any state but disconnected |
| EnetHost.Host.DisconnectWhenIdle | toxtun/peer.c:570-582 | waits exactly when the peer is connected and has something to send |
| EnetHost.Host.HandleAcknowledge | toxtun/protocol.c:881-913 | the handshake and both disconnects move on only for the right acknowledged command |
| EnetHost.Host.DispatchPackets | toxtun/peer.c:805-817 | the packets wait and the peer joins the dispatch queue unless it is in it |
| EnetHost.Host.DispatchIncoming | toxtun/protocol.c:60-117 | the event is that of the first peer in the queue that has one, and that peer alone changes by it; those before it leave the queue, those after it stay, and one with more packets waiting goes to the end |
| EnetHost.Host.Report | toxtun/protocol.c:66-113 | what a peer just taken from the queue has to report, and what becomes of it |
| EnetHost.Host.TakeFirst | toxtun/protocol.c:64-67 | the first peer leaves the queue, which names it no more |
| SrudpSystem.EstablishedAgree | pytoxsh/srudp.py:349-403 | on a lossy, repeating, reordering network that forges nothing, a server in ESTAB implies the client completed the handshake and both agree on both initial numbers |
| SrudpSystem.ReadIsPrefix | pytoxsh/srudp.py:860-865 | in every run the packets read by each side are a prefix of the data packets the other made, each once and in order |
| SrudpSystem.NothingIsLost | pytoxsh/srudp.py:396-402 | a data packet leaves the sender's buffer and window only when the other side has it |
| SrudpSystem.WindowBeforeBuffer | pytoxsh/srudp.py:814-855 | the window never exceeds 208 packets and all its numbers come before those buffered |
| SrudpSystem.RunIsGood | pytoxsh/srudp.py:349-865 | the invariant of handshake, numbering, buffers and reading holds in every state of every run |
| SrudpSystem.FlushKeeps | pytoxsh/srudp.py:814-855 | a flush only moves packets from the buffer to the window, lowest first, and loses none |
| SrudpSpec.FlushIs | pytoxsh/srudp.py:814-855 | a flush sends, once each and ascending, exactly the lowest packets of the buffer that the window of 208 has room for, and these are the packets that leave the buffer and enter the window |
| SrudpSpec.SendIs | pytoxsh/srudp.py:800-812 | a packet is accepted if and only if fewer than ten are buffered; then it is buffered under the next number, and a flush follows with four or more buffered or fewer than ten in the window |
| SrudpSpec.OnRecvDataIs | pytoxsh/srudp.py:755-791 | the longest run of received packets, at most twenty, that continues what is readable becomes readable, and the next number expected is one past it |
| SrudpSystem.WindowIsSent | pytoxsh/srudp.py:814-855 | in every run, every packet that was ever in a window was handed to the transport |
| SrudpSystem.MadeIsSent | pytoxsh/srudp.py:800-855 | in every state a packet made waits in the buffer or was handed to the transport |
| SrudpSystem.ArrivedIsRead | pytoxsh/srudp.py:755-865 | in every reachable state, once the next packet in order has arrived, it becomes readable and is what is read next |
| SrudpSystem.HandshakeCompletes | pytoxsh/srudp.py:349-403 | whatever numbers are drawn, the three packets of the handshake, each answered, leave both sides established and agreed |
| SrudpSystem.AnswerKeeps | pytoxsh/srudp.py:352-369 | the client's answer to SYN2 keeps the agreement of both sides |
| SrudpSystem.CallKeeps | pytoxsh/srudp.py:678-693 | the server's answer to SYN keeps it |
| SrudpSystem.ConfirmKeeps | pytoxsh/srudp.py:696-703 | completing the handshake on SYN_ACK keeps it |
| SrudpSystem.ArrangeKeeps | pytoxsh/srudp.py:755-791 | what becomes readable continues what was read |
| SrudpSystem.RunMoves | pytoxsh/srudp.py:776-788 | moving a run to the readable window leaves no gap, and the next number expected is one past it |
| SrudpSystem.ReadKeeps | pytoxsh/srudp.py:860-865 | the packet read is the next one the other side made |
| Srudp.Srudp.constructor | pytoxsh/srudp.py:190-236 | a fresh channel in INIT |
| Srudp.Srudp.Mkcon | pytoxsh/srudp.py:243-261 | state SYN_SENT, the drawn number, and one SYN |
| Srudp.Srudp.MakeDataPkt | pytoxsh/srudp.py:313-320 | numbers go up by one per packet |
| Srudp.Srudp.AttempFlush | pytoxsh/srudp.py:814-855 | the loop over the sorted keys hands over, ascending and once each, exactly the lowest packets of the buffer that the window has room for, and moves them to the window |
| Srudp.Srudp.AttempSend | pytoxsh/srudp.py:800-812 | refused exactly when ten packets are buffered; flushes under the stated conditions |
| Srudp.Srudp.StatemachineClient | pytoxsh/srudp.py:349-403 | client transitions and replies are those specified |
| Srudp.Srudp.StatemachineServer | pytoxsh/srudp.py:675-734 | server transitions and replies are those specified |
| Srudp.Srudp.Established | pytoxsh/srudp.py:705-734 | data is stored and acknowledged, an acknowledgement frees the window and flushes |
| Srudp.Srudp.OnRecvPkts | pytoxsh/srudp.py:755-791 | the readable window and the next number expected are those specified |
| Srudp.Srudp.ReadyPkts | pytoxsh/srudp.py:774-780 | the packets that continue what was read, at most twenty |
| Srudp.Srudp.MoveReady | pytoxsh/srudp.py:783-787 | they move from the received packets to the readable ones |
| Srudp.Srudp.ReadPacket | pytoxsh/srudp.py:860-865 | the readable packet with the lowest number, or nothing |

## Left out

- Compressor.Decompress: speaks of what Compress writes; for all other bytes the same function is `SafeDecoder.Decoder.Decompress`.
- SafeDecoder.Decoder.Decompress: does not say which bytes come out; for what Compress writes that is `Compressor.Decompress`.
- Compressor.Compress: the output memory is a returned sequence; the byte beyond a buffer is a parameter.
- KcpSystem.DeliveredIsPrefix: segments are delivered while they are at most 2^30 numbers old, windows are at most 2^30, the numbers start at zero, mtu and windows are fixed.
- KcpSystem.NothingIsLost: the same limits; that a lost segment is resent in time is `KcpSegments.ResentOnTime`, for each segment by itself; a message of more fragments than the receive window never completes.
- KcpWindow.AckedKeepsWindow: assumes that the next segment, in bytes, fits 32 bits, as it does with 16-bit segment sizes.
- Kcp.KCP.constructor: the settings (SetMtu, WndSize, NoDelay, Interval) are parameters of construction; the setters and Check are not modelled.
- Kcp.KCP.Update: says whether a flush is due; the flush it calls is `Flush`.
- Kcp.KCP.UpdateAck: says nothing of estimates so large that the sums overflow 32 bits, but for the bounds of the timeout.
- Kcp.KCP.FlushData: the statistics counter of resends and the debug output are left out; the two probe bits are booleans and lengths are 64-bit.
- EnetSystem.DispatchedIsPrefix: commands no longer outstanding and acknowledgements have the ages named above; a command given to the system is first sent in order, as the guard of `EnetPeer.Peer.SendReliable` keeps it.
- EnetSilence.RepeatUnchangedIff: speaks of packets that start less than a lap before the last number sent; of older ones `EnetDelivery.OldArrives` is what holds.
- EnetSystem.AcknowledgedHasArrived: an acknowledgement is queued in the step that handles its command.
- EnetPeer.Peer.CheckTimeouts: the count of lost packets is left out.
- EnetPeer.Peer.SendReliable: the acknowledgement and unreliable parts of a datagram are left out.
- EnetPeer.Peer.Queue: takes a command that is numbered already; `EnetRefinement.QueuePacket` says how the numbers go on. Bandwidth statistics are left out.
- EnetChannel.IncomingChannel.QueueIncoming: allocation succeeds, packets are byte sequences, and the limit on waiting data is a parameter; DISCONNECT_LATER discards everything and is not modelled here.
- EnetFragments.SendFragments: the checks of enet_peer_send on state, channel and size come before it; unreliable fragments are left out.
- EnetCrc.Crc.EnetCrc32: words are sequences of 32 bits, and the final byte swap is left out.
- EnetBandwidth.Redistribute: the other half of the function, which sets packet throttles from the outgoing bandwidth, and the sending of the limits are left out.
- EnetHost.Host.Disconnect: the flush that follows for a peer that was not connected is left out, as for `DisconnectNow`; it may time out other peers.
- EnetHost.Host.TakeFree: the set-up of channels and of the connect command is left out; `NotifyConnect`, `HandleVerifyConnect` and `HandleAcknowledge` take what the command holds as parameters.
- EnetHost.Host.HandleAcknowledge: round-trip times and throttling are left out; which command was acknowledged comes from `EnetPeer.Peer.RemoveSent`, and whether the peer is idle then is a parameter.
- SrudpSystem.EstablishedAgree: mkcon is called once, by the client, and numbers drawn are above zero.
- SrudpSystem.NothingIsLost: stated from client to server; the invariant has both directions.
- Srudp.Srudp.StatemachineClient: the closing sequence and its states, timers, signals and the encoding of packets are left out; a resend by timer is a repeated delivery by the network.
- Srudp.Srudp.StatemachineServer: the same.
- The unreliable and unsequenced paths of ENet, packet throttling, packet loss statistics, reference counts and callbacks: they bear on none of the claims.
- The `ENET_CONTEXT_EXCLUSION` code of the range coder: it is compiled out.
- The list of losses kept by srudp.py: it is never used to resend.
- The older channels (EmuTcp, p2psh/srudp.cpp, toxsocks/srudp.cpp), tunnels, NAT, relay, DNS and user interfaces: the same shape as what is modelled, or plumbing.
