# pareceive: a verified model of the receiver core

pareceive listens to a capture device that may carry silence, plain PCM or
compressed audio wrapped in IEC 61937 data bursts (as an S/PDIF or HDMI
receiver delivers it). It classifies the stream, plays PCM through, and feeds
IEC 61937 bursts to FFmpeg's `spdif` demuxer and a decoder before playing the
decoded PCM. This project models the core of `pareceive.c` in Dafny and proves
properties of it:

- `Bytes.dfy` covers the capture bytes and the host-order 32- and 16-bit words
  the receiver reads from them. The host is fixed to little-endian, the byte
  order the IEC 61937 sync constant is written for.
- `Iec61937.dfy` covers the burst synchroniser `iec61937_validate`:
  - the search for a first sync word;
  - the Pd length word;
  - the search for a second sync word;
  - the verdict: need more data, invalid, or a block size.

  It has a step-by-step method (`ValidateWindow`), the function it computes
  (`Validate`), an independent description of a burst (`Burst`), and the code
  as written (`ValidateAsWritten`).
- `Accounting.dfy` covers two pieces of the capture callback:
  - the missed-frame accounting of a decode session (`prevextralength` and
    `total_missed_frames`);
  - the silence accumulator of the PCM state.
- `ByteQueues.dfy` covers the two growable byte queues, `inbuffer` and
  `outbuffer`, as a class over an array with a read index and a length. It
  models:
  - appends;
  - the all-or-nothing reads of `readFunction`;
  - the bounded writes of `do_stream_write`;
  - release when empty;
  - compaction.
- `SignalStateMachine.dfy` covers the signal state machine: `set_state`, the capture
  callback `stream_read_callback` and the playback callback
  `stream_write_callback`. The state and the queues are fields of a
  `Receiver` object. The IEC 61937 state is called `Compressed` there, to
  keep it apart from the synchroniser's module.

FFmpeg and PulseAudio are not modelled; their answers are inputs:

- a `Probe`: the reads the demuxer issues while opening, and whether opening,
  stream probing and codec opening succeed;
- a `DecodeCycle`: the reads of one decode loop, the decoded frames as PCM
  bytes, and whether a call failed;
- a `Sink`: whether the output stream is ready, how many bytes it can take,
  and whether a write succeeds;
- the duration of a capture chunk in microseconds.

## Model

| member | source | states |
|---|---|---|
| `Bytes.Word32` | pareceive.c:535 | A host-order 32-bit word is below 2^32. It is zero exactly when its four bytes are zero. |
| `Bytes.Word16` | pareceive.c:546 | A host-order 16-bit word is below 2^16. Its low byte comes first in memory. |
| `Bytes.LeadingZeroWords` | pareceive.c:592-595 | The result is the index of the first non-zero word, or the word count when every word is zero. It equals the word count exactly when the chunk is silent. |
| `Iec61937.SyncBytes` | pareceive.c:531 | The sync word 0x4E1FF872, read in host order, is the byte sequence 72 F8 1F 4E, i.e. Pa = 0xF872 then Pb = 0x4E1F. |
| `Iec61937.Scan` | pareceive.c:546-548 | The search loop stops at the first sync word at or after its start. Without one, it stops at the window's end, or at its start when that is already past the window. |
| `Iec61937.BurstWords` | pareceive.c:546 | The burst length `Pd >> 5`, in 32-bit words, is below 2048. |
| `Iec61937.Validate` | pareceive.c:529-567 | The corrected synchroniser. Need-more-data is only answered below 32768 bytes. A block size is between 8 and 16384 bytes, and the window holds at least twice that many bytes. Its lemmas below tie it to the independent description of a burst. |
| `Iec61937.ValidateAsWritten` | pareceive.c:534-566 | The synchroniser as written, with the bytes past the window as an input. A block verdict still has a sync word first, a size between 8 and 16384 bytes and a window of at least twice that size, but need not come from a burst (see Findings). |
| `Iec61937.FindSync` | pareceive.c:534-536 | The imperative search loop computes `Scan`. |
| `Iec61937.ValidateWindow` | pareceive.c:529-567 | The imperative synchroniser returns exactly the verdict of `Validate`. |
| `Iec61937.ScanFindsFirst` | pareceive.c:534-536 | If `k` is the first sync word from a start, the scan from that start returns `k`. |
| `Iec61937.ScanIsFirst` | pareceive.c:546-548 | A scan that stops inside the window has stopped at the first sync word after its start. |
| `Iec61937.NoSyncWord` | pareceive.c:538-544 | With no sync word anywhere, the verdict is need-more-data below 16384 bytes and invalid from 16384 bytes on. |
| `Iec61937.NoSecondSyncWord` | pareceive.c:546-556 | A first sync word but no second one past the announced burst gives need-more-data below 32768 bytes and invalid from there on. This includes a second search that starts past the window. |
| `Iec61937.PdPastWindow` | pareceive.c:546-556 | A first sync word whose Pd word lies past the window gives the same verdict as no second sync word. |
| `Iec61937.BurstDecides` | pareceive.c:558-566 | For two sync words forming a burst, the distance alone decides. A distance above 16384 bytes is invalid. A window shorter than twice the distance needs more data. Otherwise the result is a block of that size. |
| `Iec61937.BlockWitness` | pareceive.c:558-566 | A block verdict comes from a burst whose two sync words are at least two words apart. |
| `Iec61937.BlockIsBurst` | pareceive.c:558-566 | A block size is between 8 and 16384 bytes. The window holds at least twice that many bytes. The size is four times the word distance between the two sync words of a burst. |
| `Iec61937.VerdictCases` | pareceive.c:538-566 | Need-more-data is only answered below 32768 bytes. Invalid is only answered from 16384 bytes on, or for a burst spacing above 16384. |
| `Iec61937.AsWrittenAgreesInsideWindow` | pareceive.c:546-550 | When the Pd word and the second search's start lie inside the window, the code as written and the corrected synchroniser agree. |
| `Iec61937.PdOverreadYieldsBlock` | pareceive.c:546 | Counterexample: a window whose only sync word is its last word gives a block of 8 bytes as written. The corrected synchroniser needs more data. |
| `Iec61937.SearchPastWindowYieldsBlock` | pareceive.c:546-550 | Counterexample: a second search that starts past the window is taken as found, and a block of 12 bytes comes from a single sync word. The corrected synchroniser needs more data. |
| `Accounting.BlocksArrived` | pareceive.c:735 | The number of whole blocks in the captured bytes plus the carry: that many blocks fit, and one more does not. |
| `Accounting.MissedStep` | pareceive.c:735-757 | After a cycle the carry is below the block size and the count of missed blocks is at most 3. A short cycle that does not lose the signal adds its shortfall to the missed count. The signal is lost exactly when fewer frames than blocks were decoded and the accumulated shortfall exceeds 3. A lost signal resets both counters. A cycle that keeps up resets the missed count. |
| `Accounting.CarryIsRemainder` | pareceive.c:735-742 | The carry is the captured bytes modulo the block size, or 0 when the decoder produced more frames than blocks arrived. |
| `Accounting.StarvationLosesSignal` | pareceive.c:744-757 | A decoder that produces no frames while at least one block arrives per cycle loses the signal within 4 cycles, counting misses already recorded. |
| `Accounting.SilenceTrack` | pareceive.c:780-789 | The accumulator stays within one second. It expires exactly when a silent chunk takes it past one second. It is zero after expiry and after a chunk that is not silent. |
| `Accounting.SilenceAsWritten` | pareceive.c:780-789 | The accumulator as written expires exactly when a silent chunk takes it past one second, as the corrected one does. A chunk with sound leaves it unchanged instead of resetting it. |
| `Accounting.AccumulatorIsTrailingSilence` | pareceive.c:780-789 | While no silent stretch has passed one second, the accumulator equals the length of the current silent stretch. |
| `Accounting.ExpiresOnLongSilence` | pareceive.c:784-789 | A chunk ends the PCM state exactly when it completes a silent stretch longer than one second. |
| `Accounting.InterruptedSilenceExpiresAsWritten` | pareceive.c:780-789 | Counterexample: 0.6 s of silence, a burst of sound, then 0.6 s of silence expires as written, although no silent stretch reached one second. |
| `ByteQueues.ReadsLeave` | pareceive.c:409-416 | All-or-nothing reads never leave more bytes than were queued. |
| `ByteQueues.IndexAfter` | pareceive.c:207-221 | The read index after consuming bytes is either 0 or the old index plus the bytes consumed. It is 0 when the queue is empty, and 0 when more than 1 MiB is left past a 4 KiB index (compaction). Otherwise it moves on by the bytes consumed. `readFunction` uses the same guard (pareceive.c:418-429). |
| `ByteQueues.WriteTaken` | pareceive.c:194-206 | A playback write takes at most the request and at most the queued bytes. It takes exactly their minimum when the sink accepts. |
| `ByteQueues.ByteQueue.constructor` | pareceive.c:18-22 | A queue starts absent, with index and length 0. |
| `ByteQueues.ByteQueue.Peek` | pareceive.c:609 | The window handed to the synchroniser is exactly the queued bytes. |
| `ByteQueues.ByteQueue.Append` | pareceive.c:603-605 | The new bytes follow the queued ones, in order. The read index is kept. |
| `ByteQueues.ByteQueue.AppendFrames` | pareceive.c:708-716 | The decoded frames follow the queued bytes, concatenated in order. |
| `ByteQueues.ByteQueue.Release` | pareceive.c:210-215 | Releasing leaves no block, with index and length 0. |
| `ByteQueues.ByteQueue.Compact` | pareceive.c:217-221 | Compaction keeps the queued bytes and their order. It moves them to offset 0 and shrinks the block to them. |
| `ByteQueues.ByteQueue.Advance` | pareceive.c:207-221 | Consuming `n` bytes drops exactly the first `n`. An empty queue is released. A queue holding more than 1 MiB past a 4 KiB index is compacted. |
| `ByteQueues.ByteQueue.Write` | pareceive.c:192-222 | `do_stream_write` hands out exactly the first `min(request, length)` bytes and removes them. It does nothing without a block, with an empty queue or with a zero request. A refused write leaves the queue unchanged and reports failure. |
| `ByteQueues.ByteQueue.Read` | pareceive.c:402-432 | `readFunction` answers end of data and changes nothing without a block or with fewer bytes than asked. Otherwise it hands over exactly the first `size` bytes and removes them. |
| `ByteQueues.ByteQueue.ServeReads` | pareceive.c:402-432 | After a series of reads, the queue holds exactly the last `ReadsLeave` bytes of what it held. |
| `ByteQueues.RoundTrip` | pareceive.c:603-605 | Two appends are read back in order by reads of their sizes. The queue is then released. |
| `ByteQueues.CompactAsWritten` | pareceive.c:424-428 | The block compaction leaves as written. It has a size exactly when the index does not exceed the length, and that size is `length - index` while the queue still counts `length` bytes. |
| `ByteQueues.CompactAsWrittenLosesBytes` | pareceive.c:424-428 | Counterexample family: every compaction as written keeps fewer bytes than the queue counts, or asks for an impossible size. |
| `ByteQueues.AppendFrameAsWritten` | pareceive.c:711-713 | The queue as written after a decoded frame is appended counts `length` bytes plus the frame's. The frame lands `index` bytes too early in it. |
| `ByteQueues.AppendFrameAsWrittenAtZero` | pareceive.c:711-713 | With the read index at 0, the decoded-frame append as written is a correct append. |
| `ByteQueues.AppendFrameAsWrittenCorrupts` | pareceive.c:711-713 | Counterexample: with the read index at 1, the frame overwrites a queued byte and an unwritten byte becomes queued. |
| `SignalStateMachine.LeadingSilence` | pareceive.c:590-595 | The detection loop computes the number of leading zero words. |
| `SignalStateMachine.IsSilent` | pareceive.c:777-780 | The OR-of-words loop reports silence exactly when every whole word is zero. |
| `SignalStateMachine.Receiver.constructor` | pareceive.c:18-37 | The receiver starts without a signal, with both queues empty and the counters at 0. |
| `SignalStateMachine.Receiver.SetState` | pareceive.c:453-524 | The same state is a no-op. A change always empties the output queue, tears down the decoder and releases the input queue. Unconsumed input bytes become the output queue exactly on the way from IEC 61937 to PCM. An output stream is open afterwards exactly in PCM. Counters and silence are kept. |
| `SignalStateMachine.Receiver.Synchronise` | pareceive.c:607-622 | Need-more-data changes nothing. Invalid switches to PCM with the window as the output queue. A block size opens a decoder as `OpenedOn` describes. |
| `SignalStateMachine.Receiver.OpenDecoder` | pareceive.c:626-662 | The carry becomes the window length and the probe's reads are served. A demuxer failure switches to PCM with the rest of the window queued for playback. A codec failure ends the signal. Otherwise a decoder with that block size is open. |
| `SignalStateMachine.Receiver.Decode` | pareceive.c:693-766 | `DecodedOn`: the signal ends exactly on a decoding error or a lost signal by `MissedStep`. Otherwise the decoder stays open and the input queue keeps what the reads leave. The counters follow `MissedStep`. The played bytes are the front that `do_stream_write` hands out. They and the rest of the output queue together make the old output queue plus the decoded frames. |
| `SignalStateMachine.Receiver.Feed` | pareceive.c:696-716 | The demuxer's reads are served from the input queue, and the decoded frames are appended to the output queue. |
| `SignalStateMachine.Receiver.Settle` | pareceive.c:735-766 | The counters follow `MissedStep`, and the signal ends exactly when it is lost. Otherwise, with frames decoded and a ready sink, the front of the output queue is played. |
| `SignalStateMachine.Receiver.Play` | pareceive.c:760-763 | A ready sink receives exactly the front of the output queue that `do_stream_write` hands out. A refused write requests exit. |
| `SignalStateMachine.Receiver.PassThrough` | pareceive.c:768-791 | `PassedOn`: the chunk is queued and the front of the queue is played. The played bytes and the rest of the queue make the old queue plus the chunk. The silence accumulator follows `SilenceTrack`, and the signal ends exactly when it expires. The counters are kept. |
| `SignalStateMachine.Receiver.IecStep` | pareceive.c:601-766 | Captured bytes are queued behind the input. Without a decoder, `SynchronisedOn` the new window applies. Need-more-data keeps synchronising on the window. Invalid turns it into PCM. A block size opens a decoder as `OpenedOn` says; when the probe succeeds, the first decode cycle follows at once as `DecodedOn` says. With a decoder open, `DecodedOn` the new window applies. |
| `SignalStateMachine.Receiver.DetectSignal` | pareceive.c:590-605 | A silent chunk changes nothing. Otherwise `SynchronisedOn` applies to the chunk from its first non-zero word, with the whole chunk's length counted. |
| `SignalStateMachine.Receiver.Deliver` | pareceive.c:569-792 | The whole capture callback, with the full new state in every case. A failed peek requests exit and changes nothing else. A silent chunk without a signal changes nothing. A chunk with sound synchronises on its non-zero tail (`SynchronisedOn`). While synchronising, the chunk extends the window (`SynchronisedOn`). With a decoder open, it is decoded (`DecodedOn`). In PCM it is played through and its silence tracked (`PassedOn`). |
| `SignalStateMachine.Receiver.WriteRequested` | pareceive.c:225-234 | The output stream's request is served from the front of the output queue, with nothing else changed. A refused write requests exit. |

## Left out

- The PulseAudio plumbing is not modelled: the context and stream callbacks, `open_output_stream`, `set_instream_fragsize`, `pa_stream_drop` and `main`. It is I/O and event-loop wiring. An open output stream is a flag, `sinkOpen`, and its readiness, writable size and write outcome are inputs.
- FFmpeg is not modelled: opening, probing, reading frames, decoding and resampling. These are foreign calls. Their outcomes, the reads they issue and the decoded PCM bytes are inputs. The probe's reads are all served before its outcome is looked at.
- The demuxer's I/O buffer size is taken to be the block size it was created with (pareceive.c:629).
- `map_sample_format` and `map_channel_layout` are not modelled. They are lookup tables over library enums, and they depend on the output stream format only.
- `pa_bytes_to_usec` is not modelled. A chunk's duration in microseconds is an input.
- Logging, `print_averror` and `quit` are not modelled. A quit request is the flag `exitRequested`.
- The host byte order is fixed to little-endian.
- Allocation failure is not modelled (`pa_xrealloc` aborts the process). A reallocation is a fresh array that the surviving bytes are copied into.
- Integer widths are not modelled: the counters, lengths and the `(uint32_t)` casts in `readFunction` use unbounded integers, so no wrap-around is represented.
- The code has no transition from PCM to IEC 61937. IEC 61937 is entered only without a signal (pareceive.c:590-597), so a PCM stream that turns into IEC 61937 bursts is played as PCM until a silence ends it. The model follows the code.
- The signal is declared lost after more than 3 missed blocks (pareceive.c:750), not after tens of them. The missed count is reset only by a cycle that decodes at least as many frames as blocks arrived (pareceive.c:747), not by any cycle that produces frames. The model follows the code in both.
- The playback queue is never truncated to bound latency. It is compacted under the same 1 MiB / 4 KiB guard as the capture queue (pareceive.c:217).
- Orderly shutdown and draining belong to the PulseAudio plumbing and are not modelled.

## Findings

| source | as written | input that shows it | evidently intended | confidence | as-written member | corrected member |
|---|---|---|---|---|---|---|
| pareceive.c:546 | The Pd word of a first sync word is read without checking that it lies inside the window. | A 16-byte window of 12 zero bytes then 72 F8 1F 4E, with zero bytes after the window, is reported as a block of 8 bytes, together with the `==` test at pareceive.c:550 (the second search starts at word 5 of 4). | A Pd word outside the window means the burst is not buffered yet: need more data. | high, not executed | `Iec61937.PdOverreadYieldsBlock` | `Iec61937.PdPastWindow` |
| pareceive.c:550 | The second search counts as unsuccessful only when it stopped exactly at the window's end. | A 24-byte window of 16 zero bytes, 72 F8 1F 4E, then 00 00 20 00 (Pd = 32 bits) starts the second search at word 7 of 6 and is reported as a block of 12 bytes. | A search that ends at or past the window's end has found nothing. | high, not executed | `Iec61937.SearchPastWindowYieldsBlock` | `Iec61937.NoSecondSyncWord` |
| pareceive.c:427 | Compaction in `readFunction` moves `length` bytes to offset 0, then shrinks the block to `length - index` bytes. | Any compaction, e.g. 2 MiB queued past an index of 8 KiB: the block keeps 2 MiB - 8 KiB bytes while the queue counts 2 MiB. | Shrink the block to `length` bytes, as `do_stream_write` does (pareceive.c:219). | high, not executed | `ByteQueues.CompactAsWrittenLosesBytes` | `ByteQueues.ByteQueue.Compact` |
| pareceive.c:712 | A decoded frame is written at offset `length`, ignoring the read index. | One byte queued at index 1 and a one-byte frame [5]: the queue then holds [5, 0] instead of [9, 5]. | Write at `index + length`, like every other append. | high, not executed | `ByteQueues.AppendFrameAsWrittenCorrupts` | `ByteQueues.ByteQueue.AppendFrames` |
| pareceive.c:780-789 | The silence accumulator is never reset by a chunk with sound. | 0.6 s of silence, 10 ms of sound, 0.6 s of silence ends the PCM state. | Only contiguous silence counts, so a chunk with sound resets the accumulator. | medium, not executed | `Accounting.InterruptedSilenceExpiresAsWritten` | `Accounting.ExpiresOnLongSilence` |

The receiver uses the corrected member of each row: `Validate`, `ByteQueue.Compact`, `ByteQueue.AppendFrames` and `SilenceTrack`.
