# QUIC stream machinery, modelled and proved in Dafny

This project models the parts of the repository that move stream data, and the bookkeeping around
them, and proves what they promise over all inputs and all runs.

* **Frame sorter** (`SorterModel`, `FrameSorter`, `SorterRuns`): reassembles overlapping, duplicate and
  reordered byte ranges from a list of gaps and a map of entries. It refines set union and prefix
  delivery, and every callback is invoked, held or handed out exactly once.
* **Crypto stream** (`Sni`, `SniSearch`, `CryptoFrames`, `CryptoStream`, `CryptoReader`, `Scrambling`): the
  ClientHello is parsed, cut up, and sent out of order. Together with the sorter that is the identity on
  bytes, and no frame shows the server name.
* **Sending half of a stream** (`StreamFrames`, `SendModel`, `SendStream`, `SendRuns`, `SendSteps`,
  `SendProgress`, `SendFins`, `SendResets`): a transition system
  whose state holds the fields of the stream and the history of its frames. Bytes are conserved, the
  count of outstanding frames is exact, and completion is reported exactly once, when it is due. Every
  stream that is closed gets there: enough pops send all of it, and acknowledgments complete it.
* **Receiving half of a stream** (`ReceiveStream`) and **both halves together** (`Transfer`).
* **Outgoing and incoming streams** (`OutgoingModel`, `OutgoingRuns`, `OutgoingProgress`, `OutgoingStreams`,
  `IncomingModel`, `IncomingProgress`, `IncomingStreams`): the wake-up protocols and the stream limits, as state machines whose steps are the
  stretches of code between two releases of the mutex.
* **MTU search** (`MtuModel`, `MtuBisection`, `MtuFinder`), **connection IDs** (`ConnIdModel`, `ConnIdManager`,
  `ConnIdRuns`), **framer** (`RingBuffer`, `Framer`), **sliding window** of tquic (`SeqNumWindow`), **variable-length integers** of both
  code bases (`Varint`, `VarintCodec`) and **HTTP/3 SETTINGS** (`Settings`).

A component whose code updates fields is a class. Its methods are tied to transition functions on a
record of its fields (`St()`), and the lemmas are about those functions and their runs. Fields marked
as history are not in the code: they record what was sent, received or reported. Deadlines,
contexts, flow control windows, random numbers and the answers of other components are parameters.
A method that can block returns `Blocked` or `Wait` where the code releases the mutex, and a second
method continues after the wake-up. An integer is unbounded unless the model cuts it explicitly.

## What the code does not do

Some properties hold only under a condition. The condition is stated exactly, and a lemma gives an
input or a run that fails.

* A ClientHello with an empty server name is never sent completely (`Scrambling.SendClientHello`,
  `Scrambling.EmptyNameHello`); one with an ECH extension but without a server name is held back by
  `HasData` (`Scrambling.EchOnlyHello`). Bytes are sent twice exactly if the two cuts meet
  (`Scrambling.SendClientHello`, `Scrambling.MeetingCutsHello`); `Scrambling.CutsApart` and
  `Scrambling.CutsApartNoName` say when that is. If the cuts overlap, a frame can show what the second
  one hides (`Scrambling.OverlapShows`); `Scrambling.CutsInOrder` says when they do.
* The sorter panics for a frame that ends at or beyond the largest offset (`FrameSorter.FrameSorter.Push`).
  A receiver of a valid stream fails exactly if the order of arrival makes one gap too many
  (`Transfer.Deliver`, `Transfer.LimitHit`).
* `SetReliableBoundary` and `enableResetStreamAt` after a reset break the count of outstanding frames, so
  that the next acknowledgment panics (`SendModel.BoundaryAfterReset`, `SendModel.EnableAfterReset`;
  `SendModel.BoundaryAfterResetExact`, `SendModel.EnableAfterResetExact`).
* A frame that is truncated because of a reset keeps its FIN, which then ends the stream before the
  final size (`SendFins.FinBeforeFinalSize`); in every run exactly if something was sent beyond the
  reliable offset (`SendFins.FinAfterReset`).
* A reset stream of which nothing is outstanding is not completed if a waiting Write, woken up by the
  reset, has buffered its data (`SendResets.NotCompleted`); when that is, and that it is for good, is in
  `SendResets.WokenWriteSticks`, `SendResets.CompletedIffNothingBuffered` and `SendResets.NeverCompleted`.
* STOP_SENDING after a reset announces another final size (`SendFins.FinalSizeChanges`), exactly if not
  everything up to the reliable offset was sent (`SendFins.FinalSizeKept`).
* A connection ID that is received again after it was retired, or while it is in use on a path, is
  retired a second time or used twice (`ConnIdRuns.RetiredTwice`, `ConnIdRuns.QueuedInUse`); the Retire Prior
  To field of a late frame is ignored (`ConnIdRuns.RetirePriorIgnored`); a preferred address that comes
  late is queued below the active number (`ConnIdRuns.PreferredLate`); a token that is set twice is never
  removed (`ConnIdRuns.TokenLeft`). `ConnIdRuns.RunExact` and `ConnIdModel.AddObeys` give the conditions.
* Two concurrent calls of `AcceptStream` can leave one of them waiting for a stream that is there
  (`IncomingModel.TwoAcceptors`); a single one never does (`IncomingModel.NotMissed`).
* The tquic window reports numbers that were never inserted after certain jumps of 2^32 or more
  (`SeqNumWindow.FalseDuplicate`, `SeqNumWindow.InsertExact`).
* `write_varint_with_len` of tquic cuts a number that does not fit; it is read back exactly if it fits
  (`VarintCodec.ReadBack`).
* SETTINGS do not survive the round trip exactly if an unrecognized setting uses a reserved number
  (`Settings.RoundTrip`, `Settings.ReservedSetting`), or the payload is longer than 8192 bytes
  (`Settings.WriteAndRead`).

## Model

| member | source | states |
|---|---|---|
| `SorterModel.CarveIsDifference` | quic-go-bbr/quic-go-master/frame_sorter.go:120-160 | carving [start, end) out of the gaps from s to e removes exactly these offsets from the gaps, and no others |
| `SorterModel.CarveOk` | quic-go-bbr/quic-go-master/frame_sorter.go:120-160 | carving leaves non-empty, sorted, separated gaps, the last of which ends at MaxByteCount |
| `SorterModel.DeleteBetweenGaps` | quic-go-bbr/quic-go-master/frame_sorter.go:132-140 | deleting consecutive entries from the end of a gap on removes exactly the entries before the next gap |
| `SorterModel.Landing` | quic-go-bbr/quic-go-master/frame_sorter.go:114-160 | the part of the frame that is queued lies between the gaps it was carved out of, and replaces no entry that is kept |
| `SorterModel.StoreOk` | quic-go-bbr/quic-go-master/frame_sorter.go:162-178 | with the new entry, entries and gaps again tile everything from the read position on, and every queued byte comes from its own frame |
| `SorterModel.ProvenanceAgrees` | quic-go-bbr/quic-go-master/frame_sorter.go:56-178 | if all frames are slices of one stream, everything queued is a slice of that stream at its place |
| `SorterModel.NothingToPop` | quic-go-bbr/quic-go-master/frame_sorter.go:220-224 | there is an entry at the read position exactly if the read position is not in a gap |
| `SorterModel.AbsorbedHistory` | quic-go-bbr/quic-go-master/frame_sorter.go:45-54 | an accepted frame adds exactly its range to what was received, and its callback is invoked or held exactly once |
| `FrameSorter.FrameSorter.FindStartGap` | quic-go-bbr/quic-go-master/frame_sorter.go:180-190 | the first gap that does not end before the offset, and whether the offset is in it |
| `FrameSorter.FrameSorter.FindEndGap` | quic-go-bbr/quic-go-master/frame_sorter.go:192-203 | the gap that contains the end of a frame, or the last gap before it |
| `FrameSorter.FrameSorter.DeleteConsecutive` | quic-go-bbr/quic-go-master/frame_sorter.go:205-218 | deletes exactly the chain of adjacent entries, calling each callback once |
| `FrameSorter.FrameSorter.ReplaceEntries` | quic-go-bbr/quic-go-master/frame_sorter.go:85-112 | a duplicate changes nothing; otherwise exactly the superseded entries are gone and their callbacks called |
| `FrameSorter.FrameSorter.CarveGaps` | quic-go-bbr/quic-go-master/frame_sorter.go:120-160 | the gaps become Carve of the old gaps, and no entry is left between the first and the last of them |
| `FrameSorter.FrameSorter.Push` | quic-go-bbr/quic-go-master/frame_sorter.go:45-54 | accepts every frame that ends below MaxByteCount and does not split a gap too many, and then received grows by exactly its range; both failures are characterized exactly |
| `FrameSorter.FrameSorter.Pop` | quic-go-bbr/quic-go-master/frame_sorter.go:220-232 | returns the bytes from the read position on; returns nothing exactly if the byte at the read position was never received; the panic is unreachable |
| `FrameSorter.FrameSorter.Peek` | quic-go-bbr/quic-go-master/frame_sorter.go:245-274 | succeeds exactly if an entry starts at the offset and all bytes are queued; copies these bytes, and changes nothing otherwise |
| `FrameSorter.FrameSorter.HasMoreData` | quic-go-bbr/quic-go-master/frame_sorter.go:235-237 | true exactly if a byte was received that was not popped |
| `SorterModel.GapCount` | quic-go-bbr/quic-go-master/frame_sorter.go:162-178 | the number of gaps is the number of missing bytes that follow a received one, so the limit is a matter of what was received |
| `SorterModel.SplitsSurrounded` | quic-go-bbr/quic-go-master/frame_sorter.go:114-160 | a frame makes a new gap exactly if it, and the bytes directly before and behind it, were not received |
| `SorterModel.OneMoreGap` | quic-go-bbr/quic-go-master/frame_sorter.go:114-178 | a frame adds at most one gap |
| `SorterModel.FewGaps` | quic-go-bbr/quic-go-master/frame_sorter.go:162-178 | if nothing was received from an offset on, there are at most half as many gaps as bytes below it, plus one |
| `SorterRuns.GapPerPush` | quic-go-bbr/quic-go-master/frame_sorter.go:162-178 | n operations leave at most n + 1 gaps |
| `SorterRuns.RunSorter` | quic-go-bbr/quic-go-master/frame_sorter.go:45-232 | any interleaving of pushes and pops over slices of one stream: the chunks popped concatenate to a prefix of the stream, a pop yields nothing exactly if the next byte was never pushed, and the run stops exactly at the first frame that makes one gap too many, never with fewer operations than gaps are allowed |
| `Sni.FindSNIAndECH` | quic-go-bbr/quic-go-master/sni.go:19-136 | for every input, the position of a host name and of an ECH extension, in bounds and not overlapping; computes what the lemmas about Find are about |
| `Sni.ScanExtensions` | quic-go-bbr/quic-go-master/sni.go:85-135 | the loop over the extensions finds what the recursive reading of the extension list finds |
| `SniSearch.FindExact` | quic-go-bbr/quic-go-master/sni.go:19-136 | in terms of the list of extensions: the host name and the ECH extension found are the first ones, and none is reported only if there is none; malformed only if an extension is repeated, incomplete only if an extension or a list of names is |
| `SniSearch.ScanExact` | quic-go-bbr/quic-go-master/sni.go:85-135 | the same for the rest of the list, after one of the two was found |
| `SniSearch.PartIncomplete` | quic-go-bbr/quic-go-master/sni.go:19-40 | every proper prefix of a ClientHello is incomplete, not malformed |
| `CryptoFrames.MaxDataLenFits` | quic-go-bbr/quic-go-master/internal/wire/crypto_frame.go:49-70 | a CRYPTO frame filled up to MaxDataLen takes no more than the space given |
| `CryptoFrames.MaxDataLenExact` | quic-go-bbr/quic-go-master/internal/wire/crypto_frame.go:49-70 | MaxDataLen is exactly the largest amount of data that fits |
| `CryptoStream.CutsInBounds` | quic-go-bbr/quic-go-master/crypto_stream.go:159-177 | the cuts made from the positions found lie inside the ClientHello |
| `CryptoStream.SendLosesNothing` | quic-go-bbr/quic-go-master/crypto_stream.go:182-249 | sending a frame keeps every byte either pending or sent |
| `CryptoStream.SendExactlyOnce` | quic-go-bbr/quic-go-master/crypto_stream.go:182-249 | sending a frame keeps every byte pending or sent exactly once, if exactly the bytes of the frame stop pending |
| `CryptoStream.TodoDecreases` | quic-go-bbr/quic-go-master/crypto_stream.go:182-249 | every frame decreases the number of bytes still to be sent |
| `CryptoStream.InitialCryptoStream.Write` | quic-go-bbr/quic-go-master/crypto_stream.go:140-180 | appends to the buffer; once the ClientHello is complete, cuts it at the server name and the ECH extension; fails exactly for a malformed one |
| `CryptoStream.InitialCryptoStream.PopCryptoFrame` | quic-go-bbr/quic-go-master/crypto_stream.go:182-249 | returns the next frame that fits; none exactly if nothing is left, nothing fits, or the next cut is empty; the frame uses all the space unless a cut or the end stops it; every byte stays accounted for |
| `CryptoReader.CryptoReader.HandleCryptoFrame` | quic-go-bbr/quic-go-master/crypto_stream.go:34-56 | the error for each bad frame, and neither the gap limit nor the panic of the sorter is ever reached; the highest offset is that of the frames taken |
| `CryptoReader.CryptoReader.GetCryptoData` | quic-go-bbr/quic-go-master/crypto_stream.go:59-62 | returns the next bytes; nothing exactly if the next byte was not received |
| `CryptoReader.CryptoReader.Finish` | quic-go-bbr/quic-go-master/crypto_stream.go:64-73 | fails exactly if bytes were received that were not read |
| `Scrambling.EmptyNameEmptyCut` | quic-go-bbr/quic-go-master/crypto_stream.go:159-177 | only an empty server name makes an empty cut |
| `Scrambling.FirstCut` | quic-go-bbr/quic-go-master/crypto_stream.go:131-138 | the first cut exists exactly if there is a server name, or a name of another type of two bytes or more |
| `Scrambling.CutsApart` | quic-go-bbr/quic-go-master/crypto_stream.go:159-177 | with a server name, the two cuts are strictly separated exactly unless an ECH extension shortly precedes it |
| `Scrambling.CutsApartNoName` | quic-go-bbr/quic-go-master/crypto_stream.go:159-177 | without a server name, when the cuts are apart, given the length of a name of another type and the place of the ECH extension |
| `Scrambling.EmptyNameHello` | quic-go-bbr/quic-go-master/crypto_stream.go:159-177 | a ClientHello whose cut is empty |
| `Scrambling.EchOnlyHello` | quic-go-bbr/quic-go-master/crypto_stream.go:131-138 | a ClientHello that is cut, but has no first cut |
| `Scrambling.MeetingCutsHello` | quic-go-bbr/quic-go-master/crypto_stream.go:159-177 | a ClientHello whose cuts meet |
| `Scrambling.PartsAsOne` | quic-go-bbr/quic-go-master/crypto_stream.go:140-180 | a ClientHello that is written in any number of parts is cut exactly as if it were written at once |
| `Scrambling.CutsInOrder` | quic-go-bbr/quic-go-master/crypto_stream.go:159-177 | with a server name, the cuts do not overlap exactly unless an ECH extension shortly precedes it |
| `Scrambling.SplitContinues` | quic-go-bbr/quic-go-master/crypto_stream.go:182-249 | while a ClientHello is sent, whatever the frame sizes, no frame carries both the byte before a cut and the first byte of the cut |
| `Scrambling.RespectHides` | quic-go-bbr/quic-go-master/crypto_stream.go:159-177 | such a frame does not carry both halves of the server name, or both bytes of the type of the ECH extension |
| `Scrambling.OverlapShows` | quic-go-bbr/quic-go-master/crypto_stream.go:187-219 | if the cuts overlap, a frame with enough space carries the byte before the second cut and its first byte |
| `Scrambling.TwiceStarts` | quic-go-bbr/quic-go-master/crypto_stream.go:159-177 | if the cuts of a ClientHello meet, some byte is in both, or will be sent before the cut it is in |
| `Scrambling.TwiceContinues` | quic-go-bbr/quic-go-master/crypto_stream.go:182-249 | such a byte stays such a byte, or was sent twice, whatever frame sizes follow |
| `Scrambling.SendClientHello` | quic-go-bbr/quic-go-master/crypto_stream.go:131-249 | for every ClientHello and every sequence of frame sizes: all frames are pieces of it; with enough sizes all of it is sent exactly if the server name is not empty; each byte is sent exactly once if and only if the cuts are apart; and unless the cuts overlap no frame shows the server name or the type of the ECH extension |
| `Scrambling.Reassemble` | quic-go-bbr/quic-go-master/crypto_stream.go:34-62 | pieces of a ClientHello that together cover it, arriving in any order, yield exactly the ClientHello |
| `Scrambling.Exchange` | quic-go-bbr/quic-go-master/crypto_stream.go:34-249 | scrambling and reassembling is the identity, for every order of arrival |
| `StreamFrames.MaxDataLenFits` | quic-go-bbr/quic-go-master/internal/wire/stream_frame.go:117-154 | a STREAM frame filled up to MaxDataLen takes no more than the space given |
| `StreamFrames.MaxDataLenSplits` | quic-go-bbr/quic-go-master/internal/wire/stream_frame.go:156-187 | a frame that does not fit has more data than MaxDataLen, or MaxDataLen is zero |
| `StreamFrames.MaxDataLenExact` | quic-go-bbr/quic-go-master/internal/wire/stream_frame.go:117-154 | MaxDataLen is exactly the largest amount of data that fits |
| `SendModel.IterateAccepts` | quic-go-bbr/quic-go-master/send_stream.go:141-210 | the number Write returns is the number of bytes that became part of the stream |
| `SendModel.IterateInv` | quic-go-bbr/quic-go-master/send_stream.go:141-210 | every round of the loop in Write keeps the invariant |
| `SendModel.WriteNowInv` | quic-go-bbr/quic-go-master/send_stream.go:107-140 | every Write keeps the invariant |
| `SendModel.EmitInv` | quic-go-bbr/quic-go-master/send_stream.go:312-357 | sending new data keeps the invariant: the frame has the right bytes for its offset, what is left is buffered in order, and the FIN goes with the last byte, once |
| `SendModel.PopInv` | quic-go-bbr/quic-go-master/send_stream.go:223-308 | popping a frame, new or lost, keeps the invariant |
| `SendModel.NoMoreMeansNothingLeft` | quic-go-bbr/quic-go-master/send_stream.go:240-308 | a stream that says it has no more data has nothing left to send, not even a FIN |
| `SendModel.PopFits` | quic-go-bbr/quic-go-master/send_stream.go:240-308 | a frame with data, and every retransmission, is not longer than the space given; a new frame that carries only the FIN is sent whatever the space |
| `SendModel.OnAckedInv` | quic-go-bbr/quic-go-master/send_stream.go:664-683 | an acknowledgment keeps the invariant and never finds the count at zero |
| `SendModel.OnLostInv` | quic-go-bbr/quic-go-master/send_stream.go:685-726 | a loss keeps the invariant and never finds the count at zero |
| `SendModel.ResetInv` | quic-go-bbr/quic-go-master/send_stream.go:496-535 | resetting a stream keeps every byte below the reliable offset in exactly one place |
| `SendModel.CancelWriteInv` | quic-go-bbr/quic-go-master/send_stream.go:476-540 | CancelWrite keeps the invariant |
| `SendModel.StopSendingInv` | quic-go-bbr/quic-go-master/send_stream.go:561-591 | handling STOP_SENDING keeps the invariant |
| `SendModel.CloseInv` | quic-go-bbr/quic-go-master/send_stream.go:417-441 | Close keeps the invariant |
| `SendModel.BoundaryInv` | quic-go-bbr/quic-go-master/send_stream.go:447-455 | SetReliableBoundary keeps the invariant before a reset, or without the extension |
| `SendModel.BoundaryAfterReset` | quic-go-bbr/quic-go-master/send_stream.go:447-455 | a run in which SetReliableBoundary after a reset leaves a frame in flight and a count of zero |
| `SendModel.BoundaryAfterResetExact` | quic-go-bbr/quic-go-master/send_stream.go:447-455 | after a reset, moving the boundary keeps the count right exactly if nothing was counted under the old one |
| `SendModel.EnableAfterReset` | quic-go-bbr/quic-go-master/send_stream.go:542-546 | a state in which enabling the extension after a reset leaves a frame in flight and a count of zero |
| `SendModel.EnableAfterResetExact` | quic-go-bbr/quic-go-master/send_stream.go:542-546 | after a reset, enabling the extension with a boundary set keeps the count right exactly if nothing is outstanding |
| `SendFins.StepPlaces` | quic-go-bbr/quic-go-master/send_stream.go:476-540 | every step keeps this: after a reset, what is to be sent again is cut at the reliable offset, a FIN is there or at the final size, and every RESET_STREAM announces the same final size |
| `SendFins.FinAfterReset` | quic-go-bbr/quic-go-master/send_stream.go:476-540 | in every run, a FIN that waits to be sent again after a reset is at the reliable offset, and that is the final size announced exactly if nothing was sent beyond it |
| `SendFins.FinBeforeFinalSize` | quic-go-bbr/quic-go-master/send_stream.go:515-530 | two runs in which the FIN is sent again before the final size announced: its frame is lost after the reset, or before it |
| `SendFins.FinalSizeKept` | quic-go-bbr/quic-go-master/send_stream.go:561-592 | in every run, STOP_SENDING after a reset announces the same final size exactly if everything up to the reliable offset was sent |
| `SendFins.FinalSizeChanges` | quic-go-bbr/quic-go-master/send_stream.go:561-592 | a run that announces the final sizes 1 and 0 |
| `SendModel.AllAcked` | quic-go-bbr/quic-go-master/send_stream.go:385-411 | with the FIN sent and nothing outstanding, every byte was acknowledged in exactly one frame, and the FIN at the end |
| `SendModel.OnResetAckedInv` | quic-go-bbr/quic-go-master/send_stream.go:732-751 | an acknowledged RESET_STREAM keeps the invariant and never finds the count at zero |
| `SendModel.OnResetLostInv` | quic-go-bbr/quic-go-master/send_stream.go:754-768 | a lost RESET_STREAM is queued again and keeps the invariant |
| `SendStream.SendStream.IsNewlyCompleted` | quic-go-bbr/quic-go-master/send_stream.go:385-411 | reports completion exactly if it is due and was not reported before |
| `SendStream.SendStream.Write` | quic-go-bbr/quic-go-master/send_stream.go:107-211 | returns what the transition system returns, for every state and input |
| `SendStream.SendStream.ResumeWrite` | quic-go-bbr/quic-go-master/send_stream.go:141-211 | the same after Write was woken up |
| `SendStream.SendStream.PopStreamFrame` | quic-go-bbr/quic-go-master/send_stream.go:223-308 | keeps the invariant, and returns the frame and the flag that the lemmas about Pop describe |
| `SendStream.SendStream.PopRetransmission` | quic-go-bbr/quic-go-master/send_stream.go:359-367 | sends the first lost frame again, or the part of it that fits |
| `SendStream.SendStream.PopNewFrame` | quic-go-bbr/quic-go-master/send_stream.go:262-308 | sends new data within the flow control window, the space and the reliable offset, as the lemmas about Pop describe |
| `SendStream.SendStream.OnAcked` | quic-go-bbr/quic-go-master/send_stream.go:664-683 | acknowledges a frame; the panic is unreachable; the result says whether completion was reported in this call |
| `SendStream.SendStream.OnLost` | quic-go-bbr/quic-go-master/send_stream.go:685-726 | queues a lost frame again, as far as it has to be delivered; the panic is unreachable; the result says whether completion was reported |
| `SendStream.SendStream.Close` | quic-go-bbr/quic-go-master/send_stream.go:417-441 | closes the stream once; the result says whether completion was reported |
| `SendStream.SendStream.CancelWrite` | quic-go-bbr/quic-go-master/send_stream.go:476-540 | resets the stream, and trims what lies beyond the reliable offset; the result says whether completion was reported |
| `SendStream.SendStream.TrimQueue` | quic-go-bbr/quic-go-master/send_stream.go:519-533 | the loop over lost frames keeps exactly the parts below the reliable offset |
| `SendStream.SendStream.SetReliableBoundary` | quic-go-bbr/quic-go-master/send_stream.go:447-455 | everything written so far becomes reliable; keeps the invariant unless the boundary moves after a reset, and says exactly when the count is still right then |
| `SendStream.SendStream.EnableResetStreamAt` | quic-go-bbr/quic-go-master/send_stream.go:542-546 | enables the extension; keeps the invariant unless a boundary was set before a reset, and says exactly when the count is still right then |
| `SendStream.SendStream.HandleStopSending` | quic-go-bbr/quic-go-master/send_stream.go:561-591 | drops everything and queues a RESET_STREAM |
| `SendStream.SendStream.GetControlFrame` | quic-go-bbr/quic-go-master/send_stream.go:593-607 | hands out the queued RESET_STREAM and counts it |
| `SendStream.SendStream.CloseForShutdown` | quic-go-bbr/quic-go-master/send_stream.go:641-650 | drops everything unless the stream was closed |
| `SendStream.SendStream.OnResetAcked` | quic-go-bbr/quic-go-master/send_stream.go:732-751 | counts an acknowledged RESET_STREAM out; the panic is unreachable; the result says whether completion was reported |
| `SendStream.SendStream.OnResetLost` | quic-go-bbr/quic-go-master/send_stream.go:754-768 | queues a lost RESET_STREAM again |
| `SendRuns.StepInv` | quic-go-bbr/quic-go-master/send_stream.go:107-768 | every step of every run keeps the invariant |
| `SendRuns.StepReported` | quic-go-bbr/quic-go-master/send_stream.go:385-411 | no step leaves completion unreported that is due |
| `SendRuns.NothingLost` | quic-go-bbr/quic-go-master/send_stream.go:240-383 | in every run, each byte that has to be delivered is in exactly one acknowledged, in-flight or lost frame, and all of these carry the bytes of the stream, or it is buffered at its place |
| `SendRuns.RunExtends` | quic-go-bbr/quic-go-master/send_stream.go:93-383 | in every run, what was sent stays, and a stream whose FIN was sent does not change any more |
| `SendRuns.SentPiece` | quic-go-bbr/quic-go-master/send_stream.go:240-383 | every frame that was ever sent is a piece of the stream in the end, and its FIN is at the end of the stream |
| `SendRuns.AckedSent` | quic-go-bbr/quic-go-master/send_stream.go:664-683 | every frame acknowledged was sent |
| `SendRuns.NeverNegative` | quic-go-bbr/quic-go-master/send_stream.go:664-751 | in no run does an acknowledgment or loss find the count of outstanding frames at zero |
| `SendRuns.CompletedIffDelivered` | quic-go-bbr/quic-go-master/send_stream.go:385-411 | in every run without reset or shutdown, the stream is completed exactly if the FIN was sent and nothing is in flight or lost; this was reported once, and every byte was acknowledged exactly once |
| `SendProgress.PopSends` | quic-go-bbr/quic-go-master/send_stream.go:262-357 | without lost frames, a frame is sent exactly if something is left, the window is open and a byte fits; it starts at the write offset, has as many bytes as window, space and buffer allow, and the FIN goes with the last byte; more is announced exactly if something is left |
| `SendProgress.PopSendsStream` | quic-go-bbr/quic-go-master/send_stream.go:240-308 | the bytes of every frame popped are those of the stream at its offset |
| `SendProgress.PopFin` | quic-go-bbr/quic-go-master/send_stream.go:262-275 | once everything was sent, a closed stream sends one empty frame with the FIN |
| `SendProgress.PopNothing` | quic-go-bbr/quic-go-master/send_stream.go:240-250 | a stream that was shut down, or was reset and has sent what it has to, sends nothing |
| `SendProgress.PopAgain` | quic-go-bbr/quic-go-master/send_stream.go:252-261 | the frame lost first is sent again, completely if it fits, otherwise the largest part that fits; the rest stays first, with the FIN |
| `SendProgress.PopShrinks` | quic-go-bbr/quic-go-master/send_stream.go:223-308 | every pop that allows a byte sends a frame and lowers the backlog, until nothing is left |
| `SendProgress.PopsDrain` | quic-go-bbr/quic-go-master/send_stream.go:223-308 | as many such pops as the backlog leave nothing to be sent |
| `SendProgress.EverythingSent` | quic-go-bbr/quic-go-master/send_stream.go:223-308 | from every state of every run, enough pops put every byte that has to be delivered into exactly one frame acknowledged or in flight, and send the FIN of a closed stream |
| `SendProgress.Completes` | quic-go-bbr/quic-go-master/send_stream.go:223-411 | from every state of every run, a closed stream that is neither reset nor shut down completes: after enough pops, acknowledging what is in flight completes it, with every byte and the FIN acknowledged once |
| `SendProgress.AckLands` | quic-go-bbr/quic-go-master/send_stream.go:664-683 | an acknowledgment takes the frame out of flight, counts it out, and changes nothing about the others |
| `SendSteps.WriteAccepts` | quic-go-bbr/quic-go-master/send_stream.go:107-211 | an open stream takes all bytes of a Write, which waits exactly if they do not fit into the buffered frame |
| `SendSteps.WriteRefused` | quic-go-bbr/quic-go-master/send_stream.go:107-128 | a Write is refused without accepting a byte for one of four reasons, each exactly when it comes first |
| `SendSteps.ResumeExact` | quic-go-bbr/quic-go-master/send_stream.go:141-211 | a Write that is woken up returns all once the rest fits, gives up the rest exactly if its deadline passed, and waits otherwise |
| `SendSteps.ResumeEnds` | quic-go-bbr/quic-go-master/send_stream.go:141-211 | after a reset or shutdown a waiting Write returns, with the number of bytes accepted and the first reason that applies |
| `SendSteps.WriteReturns` | quic-go-bbr/quic-go-master/send_stream.go:141-211 | a waiting Write of an open stream returns all its bytes once they were sent |
| `SendSteps.CloseEnds` | quic-go-bbr/quic-go-master/send_stream.go:417-441 | Close closes the stream unless it was shut down, and adds just the FIN to what has to be sent |
| `SendSteps.BoundaryCovers` | quic-go-bbr/quic-go-master/send_stream.go:447-455 | the boundary covers all that was written, except what a waiting Write has not handed over |
| `SendSteps.LostWaits` | quic-go-bbr/quic-go-master/send_stream.go:685-726 | of a lost frame exactly the bytes that have to be delivered wait to be sent again, and the FIN of an open stream |
| `SendSteps.LostBacklog` | quic-go-bbr/quic-go-master/send_stream.go:685-726 | a lost frame of an open stream adds to the backlog what it takes to send it again |
| `SendSteps.CancelResets` | quic-go-bbr/quic-go-master/send_stream.go:476-540 | CancelWrite resets the stream and queues a RESET_STREAM with the final size; of the lost bytes exactly those below the reliable offset are kept, and what is still to be sent ends there |
| `SendSteps.CancelAgain` | quic-go-bbr/quic-go-master/send_stream.go:476-495 | a second CancelWrite only notes that the user knows of the reset |
| `SendSteps.StopResets` | quic-go-bbr/quic-go-master/send_stream.go:561-591 | STOP_SENDING resets a stream that has something to deliver: a RESET_STREAM with the bytes sent as the final size is queued, and nothing is left to be sent or counted |
| `SendSteps.NothingAfterStop` | quic-go-bbr/quic-go-master/send_stream.go:240-250 | in every run after that, no STREAM frame is sent any more |
| `SendSteps.ShutdownEnds` | quic-go-bbr/quic-go-master/send_stream.go:641-650 | shutdown ends exactly the streams that were not closed |
| `SendSteps.ResetSent` | quic-go-bbr/quic-go-master/send_stream.go:593-607 | the queued RESET_STREAM is handed out once, and is in flight then |
| `SendSteps.ResetAckLands` | quic-go-bbr/quic-go-master/send_stream.go:732-751 | an acknowledged RESET_STREAM is not in flight any more, and is counted out exactly if its reliable size is the current one |
| `SendSteps.ResetLostWaits` | quic-go-bbr/quic-go-master/send_stream.go:754-768 | a lost RESET_STREAM is queued again exactly if its reliable size is the current one |
| `SendResets.CompletedIffNothingBuffered` | quic-go-bbr/quic-go-master/send_stream.go:385-411 | in every run, the step that settles a reset stream completes it exactly if nothing is buffered |
| `SendResets.SettledReset` | quic-go-bbr/quic-go-master/send_stream.go:385-411 | in every run, a reset stream that is settled is completed, or still holds data |
| `SendResets.WokenWriteSticks` | quic-go-bbr/quic-go-master/send_stream.go:135-208 | a Write that is woken up after a reset leaves data in the buffer exactly if the rest of its data fits |
| `SendResets.NeverCompleted` | quic-go-bbr/quic-go-master/send_stream.go:223-411 | such a stream is never completed in any run that follows, unless the connection is closed, or STOP_SENDING arrives while data has to be delivered |
| `SendResets.NotCompleted` | quic-go-bbr/quic-go-master/send_stream.go:135-208 | a run in which everything is acknowledged and the reset stream is not completed |
| `ReceiveStream.ReceiveStream.Dequeue` | quic-go-bbr/quic-go-master/receive_stream.go:356-365 | takes the next bytes from the sorter; calls the callback of the old frame exactly once; the frame is the last one exactly if it ends at the final offset |
| `ReceiveStream.ReceiveStream.Read` | quic-go-bbr/quic-go-master/receive_stream.go:129-233 | the bytes returned continue those returned before; each error without data is returned exactly when its condition holds, in the order of the checks; otherwise it returns bytes exactly if the next one was received, and blocks exactly if it was not and the stream does not end there |
| `ReceiveStream.ReceiveStream.ResumeRead` | quic-go-bbr/quic-go-master/receive_stream.go:186-233 | the same after Read was woken up, where shutdown is checked before cancellation |
| `ReceiveStream.ReceiveStream.Peek` | quic-go-bbr/quic-go-master/receive_stream.go:258-354 | returns the bytes that Read will return, all of them or those up to the end, and consumes nothing; blocks only if one of them was not received; each error without data is returned exactly when its condition holds, in the order of the checks |
| `ReceiveStream.ReceiveStream.UpdateHighestReceived` | quic-go-bbr/quic-go-master/internal/flowcontrol/stream_flow_controller.go:49-99 | the final size error exactly for data beyond the final size or a different final size, and the flow control error exactly for new data beyond the window |
| `ReceiveStream.ReceiveStream.HandleStreamFrame` | quic-go-bbr/quic-go-master/receive_stream.go:416-432 | each error exactly when it is due; the final offset never changes once it is known; received grows by exactly the range of the frame |
| `ReceiveStream.ReceiveStream.HandleResetStreamFrame` | quic-go-bbr/quic-go-master/receive_stream.go:446-476 | the final size error and the flow control error each exactly when they are due; otherwise the final offset, the reliable size and the cancellation are those the frame asks for, and the reliable size of a reset stream never rises |
| `ReceiveStream.ReceiveStream.CancelRead` | quic-go-bbr/quic-go-master/receive_stream.go:386-401 | cancels unless the stream was shut down |
| `ReceiveStream.ReceiveStream.ReadsArePrefix` | quic-go-bbr/quic-go-master/receive_stream.go:129-233 | if all frames are slices of one stream, what Read has returned is its prefix of length readPos |
| `Transfer.FewFrames` | quic-go-bbr/quic-go-master/frame_sorter.go:162-178 | fewer frames than gaps are allowed never hit the gap limit |
| `Transfer.LimitHit` | quic-go-bbr/quic-go-master/frame_sorter.go:162-178 | frames that carry a whole stream and its FIN, and hit the gap limit: first every other byte |
| `Transfer.Feed` | quic-go-bbr/quic-go-master/receive_stream.go:129-233 | a receiver takes all pieces of a stream, and is stopped exactly if the order of arrival makes one gap too many |
| `Transfer.Deliver` | quic-go-bbr/quic-go-master/receive_stream.go:129-233 | frames that carry a whole stream and its FIN, in any order and with duplicates, are read back as exactly this stream, followed by EOF; the one exception is an order that makes one gap too many, which takes 10000 frames and a stream of 19998 bytes |
| `Transfer.EndToEnd` | quic-go-bbr/quic-go-master/send_stream.go:385-411 | when the sender reports an unreset stream as completed, a receiver that got the acknowledged frames, among any frames ever sent, reads exactly what was written, with the same one exception |
| `OutgoingModel.WokenCanOpen` | quic-go-bbr/quic-go-master/streams_map_outgoing.go:114-125 | a call that was woken up is first in the queue and finds a stream: it never waits again |
| `OutgoingRuns.NoLostWakeUp` | quic-go-bbr/quic-go-master/streams_map_outgoing.go:81-230 | in every run, if there is a stream for the first call in the queue, that call has a token or has consumed one |
| `OutgoingRuns.Fifo` | quic-go-bbr/quic-go-master/streams_map_outgoing.go:81-127 | a call is served only after all calls that queued before it, except those cancelled |
| `OutgoingRuns.Ids` | quic-go-bbr/quic-go-master/streams_map_outgoing.go:65-134 | the IDs opened are first, first + 4, ..., and none exceeds the limit in force |
| `OutgoingRuns.BlockedFrames` | quic-go-bbr/quic-go-master/streams_map_outgoing.go:136-152 | at most one STREAMS_BLOCKED per limit, and one whenever a call waits that the limit does not allow |
| `OutgoingRuns.ChannelsOpen` | quic-go-bbr/quic-go-master/streams_map_outgoing.go:216-246 | no value is sent on a closed channel, and none is closed twice |
| `OutgoingRuns.CloseReleasesAll` | quic-go-bbr/quic-go-master/streams_map_outgoing.go:232-246 | after CloseWithError every waiting call can proceed, and returns the error |
| `OutgoingRuns.Drain` | quic-go-bbr/quic-go-master/streams_map_outgoing.go:99-126 | if the limit allows n streams, the first n calls in the queue can all proceed, and get the next n streams in order |
| `OutgoingProgress.OpenExact` | quic-go-bbr/quic-go-master/streams_map_outgoing.go:65-79 | OpenStream opens the next stream exactly if the map is open, nobody waits and the limit allows it; the other answers likewise, with their effect on the map |
| `OutgoingProgress.OpenSyncExact` | quic-go-bbr/quic-go-master/streams_map_outgoing.go:81-97 | OpenStreamSync waits at the end of the queue exactly if OpenStream would report the limit |
| `OutgoingProgress.MaxRaised` | quic-go-bbr/quic-go-master/streams_map_outgoing.go:182-195 | the limit becomes the larger of the two and nothing is opened; the first call in the queue gets a token if there is a stream for it; STREAMS_BLOCKED is queued exactly if the limit is not enough for all that wait |
| `OutgoingProgress.WakesUp` | quic-go-bbr/quic-go-master/streams_map_outgoing.go:101-112 | a call that wakes up takes the token out of its own channel only |
| `OutgoingProgress.DoneLeaves` | quic-go-bbr/quic-go-master/streams_map_outgoing.go:102-110 | a call that gives up leaves the queue, and the others keep their places |
| `OutgoingProgress.CloseCloses` | quic-go-bbr/quic-go-master/streams_map_outgoing.go:232-246 | after CloseWithError the queue is empty, whoever waited can proceed, and nothing is opened any more |
| `OutgoingProgress.StreamsExact` | quic-go-bbr/quic-go-master/streams_map_outgoing.go:129-180 | each step opens at most one stream, and the map holds exactly the streams opened and not deleted |
| `OutgoingProgress.Settle` | quic-go-bbr/quic-go-master/streams_map_outgoing.go:99-126 | from any state the calls in the queue can proceed on their own: those that have given up leave, and the first of the others, as many as the limit allows, get the next streams in order |
| `OutgoingProgress.RaiseServes` | quic-go-bbr/quic-go-master/streams_map_outgoing.go:99-195 | in every run, after SetMaxStream the waiting calls that have not given up get the next streams in their order, as many as the larger limit allows, without any further event |
| `OutgoingStreams.OutgoingStreams.OpenStream` | quic-go-bbr/quic-go-master/streams_map_outgoing.go:65-79 | opens the next stream exactly if the map is open, no call is queued and the limit allows it; otherwise at most one STREAMS_BLOCKED is queued for this limit; every branch keeps the invariant of the protocol |
| `OutgoingStreams.OutgoingStreams.OpenStreamSync` | quic-go-bbr/quic-go-master/streams_map_outgoing.go:81-97 | a closed map and a finished context come first; the call does not overtake queued calls, and otherwise waits at the end of the queue with a channel of its own; keeps the invariant |
| `OutgoingStreams.OutgoingStreams.Receive` | quic-go-bbr/quic-go-master/streams_map_outgoing.go:101-112 | the call consumes the one token sent to it, or sees its channel closed, and no other call is affected |
| `OutgoingStreams.OutgoingStreams.NoticeDone` | quic-go-bbr/quic-go-master/streams_map_outgoing.go:101-102 | the call leaves its select without consuming a token, and is still queued until it takes the mutex |
| `OutgoingStreams.OutgoingStreams.ResumeWoken` | quic-go-bbr/quic-go-master/streams_map_outgoing.go:114-125 | the call returns a stream, or the error if the map was closed |
| `OutgoingStreams.OutgoingStreams.ResumeDone` | quic-go-bbr/quic-go-master/streams_map_outgoing.go:102-110 | the call leaves the queue, and wakes up the next one if there is a stream |
| `OutgoingStreams.OutgoingStreams.SetMaxStream` | quic-go-bbr/quic-go-master/streams_map_outgoing.go:182-195 | the limit becomes the larger of the two, streams and queue stay, and the first call in the queue is woken up if there is a stream for it |
| `OutgoingStreams.OutgoingStreams.CloseWithError` | quic-go-bbr/quic-go-master/streams_map_outgoing.go:232-246 | closes the channels of all calls in the queue |
| `OutgoingStreams.OutgoingStreams.GetStream` | quic-go-bbr/quic-go-master/streams_map_outgoing.go:154-166 | an error exactly for a stream that was not opened |
| `OutgoingStreams.OutgoingStreams.DeleteStream` | quic-go-bbr/quic-go-master/streams_map_outgoing.go:168-180 | an error exactly for a stream that is not in the map |
| `IncomingModel.WithinLimit` | quic-go-bbr/quic-go-master/streams_map_incoming.go:168-199 | streams in the map and streams the peer may still open are at most the limit, and exactly the limit until IDs run out |
| `IncomingModel.StreamLimit` | quic-go-bbr/quic-go-master/streams_map_incoming.go:73-199 | the same in every run; every MAX_STREAMS frame raises the limit by one |
| `IncomingModel.AcceptedInOrder` | quic-go-bbr/quic-go-master/streams_map_incoming.go:73-199 | in every run AcceptStream returns every stream once, in the order of IDs, and the streams not yet accepted are all in the map |
| `IncomingModel.NotMissed` | quic-go-bbr/quic-go-master/streams_map_incoming.go:73-102 | a single call of AcceptStream never waits for a stream that is there |
| `IncomingModel.TwoAcceptors` | quic-go-bbr/quic-go-master/streams_map_incoming.go:73-102 | a run in which two calls of AcceptStream leave one waiting for a stream that is there |
| `IncomingModel.OpenToInv` | quic-go-bbr/quic-go-master/streams_map_incoming.go:142-150 | opening a stream opens exactly the streams up to it |
| `IncomingProgress.DeleteExact` | quic-go-bbr/quic-go-master/streams_map_incoming.go:168-199 | deleting an accepted stream removes it and no other, and raises the number of streams the peer may open by one, with one MAX_STREAMS, unless IDs run out; one that was not accepted is only marked; both errors are given exactly |
| `IncomingProgress.AcceptExact` | quic-go-bbr/quic-go-master/streams_map_incoming.go:84-112 | AcceptStream returns the next stream exactly if the peer has opened it; a marked one is removed then, with the same effect on the limit |
| `IncomingProgress.OpenExact` | quic-go-bbr/quic-go-master/streams_map_incoming.go:142-150 | a frame opens exactly the streams up to its own, marks none, and leaves a token |
| `IncomingProgress.CloseCloses` | quic-go-bbr/quic-go-master/streams_map_incoming.go:201-209 | after CloseWithError whoever waits can proceed, and gets the error |
| `IncomingProgress.TokenTaken` | quic-go-bbr/quic-go-master/streams_map_incoming.go:73-101 | a call takes the value out of the channel, and changes nothing else |
| `IncomingProgress.GoneExactly` | quic-go-bbr/quic-go-master/streams_map_incoming.go:73-199 | in every run, a stream that was opened is in the map exactly until it was both accepted and deleted, in either order; there is one MAX_STREAMS for each stream that left, exactly until IDs run out |
| `IncomingStreams.IncomingStreams.BeginAccept` | quic-go-bbr/quic-go-master/streams_map_incoming.go:73-78 | a new call discards a token left over from earlier calls, which keeps the invariant that a stream that is there is not missed |
| `IncomingStreams.IncomingStreams.ReceiveToken` | quic-go-bbr/quic-go-master/streams_map_incoming.go:96-101 | consumes the token, after which the call looks at the map again |
| `IncomingStreams.IncomingStreams.TryAccept` | quic-go-bbr/quic-go-master/streams_map_incoming.go:84-112 | returns the next stream exactly if it is there and the map is open, and deletes it if it was completed |
| `IncomingStreams.IncomingStreams.GetOrOpenStream` | quic-go-bbr/quic-go-master/streams_map_incoming.go:115-153 | the limit error exactly beyond the limit; a new stream opens all those before it; a stream to be deleted is not returned; the send on a closed channel happens exactly if a stream is opened after CloseWithError |
| `IncomingStreams.IncomingStreams.DeleteStream` | quic-go-bbr/quic-go-master/streams_map_incoming.go:155-199 | an accepted stream leaves the map, one that was not accepted is marked, and each error is given exactly; the limit never falls |
| `IncomingStreams.IncomingStreams.CloseWithError` | quic-go-bbr/quic-go-master/streams_map_incoming.go:201-209 | from then on AcceptStream returns the error; the streams and the limit stay as they are; a second call panics |
| `MtuModel.StepInv` | quic-go-bbr/quic-go-master/mtu_discoverer.go:164-253 | every probe lies between the current size and the upper bound, the current size never falls, and the upper bound never rises |
| `MtuModel.Accuracy` | quic-go-bbr/quic-go-master/mtu_discoverer.go:126-253 | on a path with a fixed MTU the size never exceeds it, and with at most two losses of probes that fit it ends at most 21 bytes below |
| `MtuModel.Termination` | quic-go-bbr/quic-go-master/mtu_discoverer.go:137-253 | every sequence of acknowledgments and losses as long as the rank of the start ends the search |
| `MtuModel.AckRank` | quic-go-bbr/quic-go-master/mtu_discoverer.go:198-233 | an acknowledgment decreases the rank |
| `MtuModel.LossRank` | quic-go-bbr/quic-go-master/mtu_discoverer.go:235-253 | a loss decreases the rank |
| `MtuModel.StartOk` | quic-go-bbr/quic-go-master/mtu_discoverer.go:126-135 | the initial state keeps the invariant, or there is nothing to search |
| `MtuBisection.Halves` | quic-go-bbr/quic-go-master/mtu_discoverer.go:164-253 | an acknowledgment leaves at most half of the interval probed above the new size, rounded up, and a loss at most half of it below the smallest size lost |
| `MtuBisection.PhaseEnds` | quic-go-bbr/quic-go-master/mtu_discoverer.go:164-253 | at most 12 probes halve the search interval, whatever their fate, and at most 6 if no size is lost that was acknowledged |
| `MtuBisection.LogTime` | quic-go-bbr/quic-go-master/mtu_discoverer.go:137-253 | an interval of 21 * 2^k bytes is searched with 12 k probes, whatever is acknowledged or lost, and with 6 k if no size is lost that was acknowledged |
| `MtuBisection.FindsMtu` | quic-go-bbr/quic-go-master/mtu_discoverer.go:126-253 | on a path that loses exactly what is too large, the search ends after 6 k probes at most 21 bytes below the MTU |
| `MtuFinder.MtuFinder.Max` | quic-go-bbr/quic-go-master/mtu_discoverer.go:141-148 | the upper bound, read from the array |
| `MtuFinder.MtuFinder.IsDone` | quic-go-bbr/quic-go-master/mtu_discoverer.go:137-139 | whether the search has ended |
| `MtuFinder.MtuFinder.ShouldSendProbe` | quic-go-bbr/quic-go-master/mtu_discoverer.go:154-162 | a probe is sent only if none is in flight and the search has not ended |
| `MtuFinder.MtuFinder.GetPing` | quic-go-bbr/quic-go-master/mtu_discoverer.go:164-177 | the probe is in the middle between the current size and the upper bound, or the smallest size lost if the last probe was lost |
| `MtuFinder.MtuFinder.Reset` | quic-go-bbr/quic-go-master/mtu_discoverer.go:183-189 | starts a new search in a new generation |
| `MtuFinder.MtuFinder.OnAcked` | quic-go-bbr/quic-go-master/mtu_discoverer.go:198-233 | updates the size and the lost probes in place so that the search invariant and the rank of the search carry over; ignores another generation; panics exactly without a probe in flight |
| `MtuFinder.MtuFinder.OnLost` | quic-go-bbr/quic-go-master/mtu_discoverer.go:235-253 | the same for a loss |
| `ConnIdModel.OnePlace` | quic-go-bbr/quic-go-master/conn_id_manager.go:74-295 | a sequence number is in one place only: queued, active, on a path, or retired |
| `ConnIdModel.RetireNowExact` | quic-go-bbr/quic-go-master/conn_id_manager.go:81-88 | retiring a late connection ID at once is right exactly if it was not received before |
| `ConnIdModel.InsertExact` | quic-go-bbr/quic-go-master/conn_id_manager.go:132-166 | queueing a connection ID is right exactly if it was not received before, or is still queued |
| `ConnIdModel.DropInv` | quic-go-bbr/quic-go-master/conn_id_manager.go:101-114 | retiring what is queued below Retire Prior To keeps the invariant |
| `ConnIdModel.UpdateInv` | quic-go-bbr/quic-go-master/conn_id_manager.go:168-186 | changing the active connection ID keeps the invariant, and the active number strictly increases |
| `ConnIdModel.TakePathInv` | quic-go-bbr/quic-go-master/conn_id_manager.go:254-277 | taking a connection ID for a path keeps the invariant |
| `ConnIdModel.RetirePathInv` | quic-go-bbr/quic-go-master/conn_id_manager.go:279-295 | retiring the connection ID of a path keeps the invariant, and removes a token that was added |
| `ConnIdModel.SetTokenExact` | quic-go-bbr/quic-go-master/conn_id_manager.go:209-217 | setting the first token is right exactly once |
| `ConnIdModel.CloseInv` | quic-go-bbr/quic-go-master/conn_id_manager.go:188-198 | after Close, every token that was added was removed |
| `ConnIdModel.RetireBelowInv` | quic-go-bbr/quic-go-master/conn_id_manager.go:90-100 | retiring the connection IDs of all paths below Retire Prior To keeps the invariant |
| `ConnIdModel.AddExact` | quic-go-bbr/quic-go-master/conn_id_manager.go:72-130 | a NEW_CONNECTION_ID frame keeps the invariant exactly if its number is new, or still queued, or active and not late |
| `ConnIdModel.AddObeys` | quic-go-bbr/quic-go-master/conn_id_manager.go:72-130 | after a frame every number in use is at least its Retire Prior To, exactly if the frame is not late or that was so before |
| `ConnIdModel.PreferredExact` | quic-go-bbr/quic-go-master/conn_id_manager.go:60-62 | the connection ID of the preferred address keeps the invariant exactly if number 1 is queued, or is new and not late |
| `ConnIdRuns.StepExact` | quic-go-bbr/quic-go-master/conn_id_manager.go:60-295 | each step keeps the invariant exactly if it is sound: no number is repeated once it is in use or retired, and the first token is set once |
| `ConnIdRuns.AddRetires` | quic-go-bbr/quic-go-master/conn_id_manager.go:74-130 | a frame retires exactly the numbers received before that are below its Retire Prior To, or just its own number if it is late; the active number changes only if it has to, and exactly the paths below lose their connection ID |
| `ConnIdRuns.AddQueues` | quic-go-bbr/quic-go-master/conn_id_manager.go:74-166 | a frame that is not late is queued with its contents, together with exactly what was queued and is not below Retire Prior To; the first of these may have become active |
| `ConnIdRuns.StepRetires` | quic-go-bbr/quic-go-master/conn_id_manager.go:60-295 | what every other step receives, retires, activates and assigns to paths |
| `ConnIdRuns.RunExact` | quic-go-bbr/quic-go-master/conn_id_manager.go:60-295 | the invariant holds all along a run exactly if every step is sound |
| `ConnIdRuns.RetiredOnce` | quic-go-bbr/quic-go-master/conn_id_manager.go:60-295 | in every sound run no number is retired twice or is in two places, every number received is accounted for, and the tokens known are those in use, none after Close |
| `ConnIdRuns.NeverReused` | quic-go-bbr/quic-go-master/conn_id_manager.go:60-295 | in a sound run, a number that was retired is never used again |
| `ConnIdRuns.RetiredTwice` | quic-go-bbr/quic-go-master/conn_id_manager.go:81-88 | a run in which a number is retired twice |
| `ConnIdRuns.QueuedInUse` | quic-go-bbr/quic-go-master/conn_id_manager.go:132-166 | a run in which a number is queued while it is in use on a path |
| `ConnIdRuns.RetirePriorIgnored` | quic-go-bbr/quic-go-master/conn_id_manager.go:81-88 | a run in which Retire Prior To is ignored |
| `ConnIdRuns.TokenLeft` | quic-go-bbr/quic-go-master/conn_id_manager.go:209-217 | a run after which a token is left |
| `ConnIdRuns.PreferredLate` | quic-go-bbr/quic-go-master/conn_id_manager.go:60-62 | a run in which a number below the active one is queued |
| `ConnIdManager.ConnIdManager.Add` | quic-go-bbr/quic-go-master/conn_id_manager.go:64-130 | for every frame the new state is that of the transition whose properties are above; each of the three errors is characterized exactly |
| `ConnIdManager.ConnIdManager.AddConnectionID` | quic-go-bbr/quic-go-master/conn_id_manager.go:132-166 | the queue stays sorted, and holds the number; conflicts are detected exactly |
| `ConnIdManager.ConnIdManager.UpdateConnectionID` | quic-go-bbr/quic-go-master/conn_id_manager.go:168-186 | the front of a queue that is not empty becomes active, and the old number and token are given up |
| `ConnIdManager.ConnIdManager.AddFromPreferredAddress` | quic-go-bbr/quic-go-master/conn_id_manager.go:60-62 | queues sequence number 1 at its place, whatever was received before; conflicts are detected exactly |
| `ConnIdManager.ConnIdManager.Get` | quic-go-bbr/quic-go-master/conn_id_manager.go:223-244 | changes the active connection ID exactly if the handshake is complete and the queue not empty, and it is the first one, or has been used long enough and two are queued; returns the active one then |
| `ConnIdManager.ConnIdManager.GetConnIDForPath` | quic-go-bbr/quic-go-master/conn_id_manager.go:254-277 | the same path gets the same connection ID, a new path the next one |
| `ConnIdManager.ConnIdManager.RetireConnIDForPath` | quic-go-bbr/quic-go-master/conn_id_manager.go:279-295 | retires the connection ID of the path |
| `ConnIdManager.ConnIdManager.SetStatelessResetToken` | quic-go-bbr/quic-go-master/conn_id_manager.go:209-217 | adds the token of the first connection ID; panics exactly after Close, or when another one is active |
| `ConnIdManager.ConnIdManager.RetirePaths` | quic-go-bbr/quic-go-master/conn_id_manager.go:90-100 | the loop over the paths, in any order, retires exactly those below Retire Prior To, with their tokens |
| `ConnIdManager.ConnIdManager.Close` | quic-go-bbr/quic-go-master/conn_id_manager.go:188-198 | removes the token of the active connection ID and those of all paths |
| `ConnIdManager.ConnIdManager.IsActiveStatelessResetToken` | quic-go-bbr/quic-go-master/conn_id_manager.go:297-311 | true exactly for the tokens of the active connection ID and of the paths |
| `RingBuffer.PushAround` | quic-go-bbr/quic-go-master/internal/utils/ringbuffer/ringbuffer.go:32-46 | writing at the tail of the ring appends to the queue |
| `RingBuffer.PopAround` | quic-go-bbr/quic-go-master/internal/utils/ringbuffer/ringbuffer.go:48-63 | clearing the head of the ring removes the front of the queue |
| `RingBuffer.RingBuffer.PushBack` | quic-go-bbr/quic-go-master/internal/utils/ringbuffer/ringbuffer.go:32-46 | appends to the queue |
| `RingBuffer.RingBuffer.PopFront` | quic-go-bbr/quic-go-master/internal/utils/ringbuffer/ringbuffer.go:48-63 | removes and returns the front of the queue |
| `RingBuffer.RingBuffer.Grow` | quic-go-bbr/quic-go-master/internal/utils/ringbuffer/ringbuffer.go:75-87 | keeps the queue |
| `RingBuffer.RingBuffer.Len` | quic-go-bbr/quic-go-master/internal/utils/ringbuffer/ringbuffer.go:16-25 | the length of the queue |
| `RingBuffer.RingBuffer.Empty` | quic-go-bbr/quic-go-master/internal/utils/ringbuffer/ringbuffer.go:27-30 | whether the queue is empty |
| `Framer.OfferedFits` | quic-go-bbr/quic-go-master/framer.go:257-261 | a frame that takes all the space it was offered still fits once it loses its length field |
| `Framer.OfferedExact` | quic-go-bbr/quic-go-master/framer.go:257-261 | a frame is within the offer exactly if it fits once it loses its length field |
| `Framer.PathTaken` | quic-go-bbr/quic-go-master/framer.go:163-173 | the first PATH_RESPONSE waits only if it does not fit |
| `Framer.GotAll` | quic-go-bbr/quic-go-master/framer.go:175-196 | every control frame that a stream hands out is taken, in the order of the requests |
| `Framer.SilentExactly` | quic-go-bbr/quic-go-master/framer.go:175-196 | exactly the streams that said so have no more control frames |
| `Framer.SendStreamFits` | quic-go-bbr/quic-go-master/framer.go:248-271 | the streams of this model do not use more space than they are offered |
| `Framer.SendStreamsFit` | quic-go-bbr/quic-go-master/framer.go:248-271 | if all streams are streams of this model, the framer can fill any packet of up to 1450 bytes with them |
| `Framer.Fair` | quic-go-bbr/quic-go-master/framer.go:248-271 | the streams that were not popped move forward by the number of pops, whatever the others do |
| `Framer.RoundRobin` | quic-go-bbr/quic-go-master/framer.go:102-129 | the streams asked are the first ones of the queue, in order; those with more data go to its end, the others are no longer active |
| `Framer.NothingDropped` | quic-go-bbr/quic-go-master/framer.go:102-129 | every STREAM frame that a stream hands out is in the packet, in order, and every STREAM_DATA_BLOCKED frame is in the packet or queued |
| `Framer.WhyStopped` | quic-go-bbr/quic-go-master/framer.go:102-129 | the loop ends only because all streams were asked, fewer than 128 bytes are left, or a blocked frame did not fit |
| `Framer.PacketFits` | quic-go-bbr/quic-go-master/framer.go:102-129 | the frames fit, once the last STREAM frame loses its length field |
| `Framer.Framer.GetNextStreamFrame` | quic-go-bbr/quic-go-master/framer.go:248-271 | pops the front of the queue, and puts it back exactly if it is active and has more data |
| `Framer.Framer.AppendControlFrames` | quic-go-bbr/quic-go-master/framer.go:157-210 | a PATH_RESPONSE if it fits, then all that the streams hand out, then queued frames; none gets lost; streams are left out only for lack of space, and queued frames because the next one does not fit |
| `Framer.Framer.AppendStreamFrames` | quic-go-bbr/quic-go-master/framer.go:102-129 | the loop over the ring buffer does what the lemmas above are about, for every queue and all answers |
| `Framer.Framer.Append` | quic-go-bbr/quic-go-master/framer.go:89-155 | the length returned is that of the frames, and at most maxLen; the first streams of the queue are served in order, until space runs out; every control frame that was queued or handed out is in the packet or queued |
| `Framer.Framer.AddActiveStream` | quic-go-bbr/quic-go-master/framer.go:221-228 | every active stream is in the queue |
| `Framer.Framer.RemoveActiveStream` | quic-go-bbr/quic-go-master/framer.go:238-246 | the stream stays in the queue |
| `SeqNumWindow.NeverMissed` | tquic-develop/tquic-develop/src/window.rs:31-62 | nothing that was inserted is reported absent |
| `SeqNumWindow.ContainsExactly` | tquic-develop/tquic-develop/src/window.rs:48-62 | an exact window reports exactly what was inserted, and everything below it |
| `SeqNumWindow.InsertExact` | tquic-develop/tquic-develop/src/window.rs:30-46 | a window stays exact, exactly unless a jump leaves stale bits |
| `SeqNumWindow.ShortJump` | tquic-develop/tquic-develop/src/window.rs:38-42 | jumps below 2^32 leave no stale bits |
| `SeqNumWindow.RunExact` | tquic-develop/tquic-develop/src/window.rs:31-48 | over any sequence of insertions, the window is exact all along exactly if none of them leaves stale bits |
| `SeqNumWindow.ShortRuns` | tquic-develop/tquic-develop/src/window.rs:31-65 | after any insertions without a jump of 2^32 or more, exactly the numbers inserted are reported, and those below the window |
| `SeqNumWindow.FalseDuplicate` | tquic-develop/tquic-develop/src/window.rs:38-42 | a jump after which a number is reported that was never inserted |
| `SeqNumWindow.InsertDefined` | tquic-develop/tquic-develop/src/window.rs:30-46 | exactly the largest 64-bit number cannot be inserted |
| `SeqNumWindow.InsertInv` | tquic-develop/tquic-develop/src/window.rs:30-46 | the lower end stays 127 below the largest number inserted |
| `SeqNumWindow.SlidingWindow.Insert` | tquic-develop/tquic-develop/src/window.rs:30-46 | inserts the number |
| `SeqNumWindow.SlidingWindow.Contains` | tquic-develop/tquic-develop/src/window.rs:48-62 | reports everything inserted, and exactly that if the window is exact |
| `VarintCodec.EncodeDecode` | quic-go-bbr/quic-go-master/quicvarint/varint.go:80-130 | decoding inverts encoding, for every number and every length it fits in, and uses exactly the bytes written |
| `VarintCodec.DecodeEncode` | quic-go-bbr/quic-go-master/quicvarint/varint.go:80-130 | whatever is decoded is the encoding of the result in that many bytes |
| `VarintCodec.AppendEncodes` | quic-go-bbr/quic-go-master/quicvarint/varint.go:112-130 | Append writes the shortest encoding |
| `VarintCodec.ParseDecodes` | quic-go-bbr/quic-go-master/quicvarint/varint.go:80-110 | Parse decodes, for every input |
| `VarintCodec.AppendWithLen` | quic-go-bbr/quic-go-master/quicvarint/varint.go:132-159 | writes the encoding in exactly the length asked for |
| `VarintCodec.Read` | quic-go-bbr/quic-go-master/quicvarint/varint.go:31-78 | reads what Parse reads, and uses as many bytes |
| `VarintCodec.TaggedEncodes` | tquic-develop/tquic-develop/src/codec.rs:148-170 | the number with its tag, for a number that fits |
| `VarintCodec.ReadBack` | tquic-develop/tquic-develop/src/codec.rs:148-170 | what is read back of any 64-bit number that was written in len bytes; the number itself exactly if it fits |
| `VarintCodec.WriteVarintWithLen` | tquic-develop/tquic-develop/src/codec.rs:148-170 | writes the same bytes as the Go code for a number that fits, and nothing exactly if the buffer is too short; the number is read back exactly if it fits |
| `VarintCodec.WriteVarint` | tquic-develop/tquic-develop/src/codec.rs:143-146 | writes the shortest encoding, the same as the Go code; panics exactly for numbers that have none |
| `VarintCodec.ReadVarintDecodes` | tquic-develop/tquic-develop/src/codec.rs:236-255 | reads what the Go code reads |
| `Settings.MeaningOfPayload` | quic-go-bbr/quic-go-master/http3/frames.go:196-247 | reading a payload reads the settings that were written, in their order |
| `Settings.RoundTrip` | quic-go-bbr/quic-go-master/http3/frames.go:181-296 | what is read is what was written, for every iteration order, exactly if no unrecognized setting uses a reserved number |
| `Settings.ParseSettings` | quic-go-bbr/quic-go-master/http3/frames.go:181-261 | the loop computes the meaning of the payload; the errors are those of the first setting that is wrong |
| `Settings.AppendSettings` | quic-go-bbr/quic-go-master/http3/frames.go:263-296 | the length field is the exact length of the payload, although the map is iterated twice, and does not depend on the order |
| `Settings.ReservedSetting` | quic-go-bbr/quic-go-master/http3/frames.go:206-246 | a frame that is not read back as it was written |
| `Settings.WriteAndRead` | quic-go-bbr/quic-go-master/http3/frames.go:181-296 | a frame that is written, followed by anything, is too long exactly above 8192 bytes of payload, and otherwise read back exactly if no other setting is reserved |

## Left out

- BBRv1 and BBRv3, acknowledgment handling and the rest of flow control: only what the components above call is a parameter of the model.
- The connection, server, transport and packet code, the operating system interface, logging, the HTTP/3 client and server, and the MoQ session and relay code: orchestration over other packages.
- Buffer pools, and the memory that frames share with the caller: frame data are values. The callbacks that return buffers are modelled.
- The order in which goroutines get the mutex, and timers: a step can happen whenever its guard allows it.
- GOAWAY, DATA and HEADERS frames of HTTP/3: one or two varints after the type and the length, read without further checks.
- tquic apart from the sliding window and the varint codec: its streams and loss recovery are a second implementation of the same protocol.
- The completion of the receiving half of a stream, and STOP_SENDING and MAX_STREAM_DATA frames: flags that are set and cleared in one place.
- The error code of a reset: it is copied and never inspected.
- What the stream does after `SetReliableBoundary` or `enableResetStreamAt` broke the count of outstanding frames: the next acknowledgment may panic.
- Any call of the connection ID manager after Close: the code asserts that there is none.
- `Handle0RTTRejection` of the framer and `UpdateSendWindow` of the stream maps: loops that apply one call to every element.
- A stream frame that the flow controller rejects, a sorter that hit the gap limit, and a conflict of connection IDs end the connection: nothing is claimed about the state after the first two.
