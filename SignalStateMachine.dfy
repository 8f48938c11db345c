/** The receiver's signal state machine (`set_state`, pareceive.c:453-524) and
    the capture callback that drives it (`stream_read_callback`,
    pareceive.c:569-792), together with the playback callback
    (`stream_write_callback`, pareceive.c:225-234).

    Capture chunks arrive in one of three states. Without a signal, all-zero
    chunks are dropped and the first chunk with sound starts IEC 61937
    synchronisation. While synchronising, capture bytes collect in the input
    queue until the burst synchroniser decides; a failed synchronisation turns
    the collected bytes into PCM. With a decoder open, each chunk is decoded
    and the frames are queued for playback; decoding errors and a starved
    decoder end the signal. In the PCM state chunks are played as they are,
    and a long silence ends the signal.

    What FFmpeg and PulseAudio answer is given as input: the reads a probe or
    a decode cycle issues and its outcome, the frames decoded, and whether
    the output stream is ready, how much it can take and whether it accepts
    a write. */
module SignalStateMachine {
  import opened Bytes
  import opened Iec61937
  import opened Accounting
  import opened ByteQueues

  /** The receiver's state: NOSIGNAL, PCM, or IEC61937 (a compressed stream
      being synchronised or decoded). */
  datatype Signal = NoSignal | Pcm | Compressed

  /** Opening a decoder (pareceive.c:628-662): the reads the demuxer issues
      while probing, then whether `avformat_open_input`,
      `avformat_find_stream_info` and `avcodec_open2` succeed. */
  datatype Probe = Probe(readSizes: seq<nat>, formatOpened: bool, streamInfoFound: bool, codecOpened: bool)

  /** One decode loop (pareceive.c:696-733): the reads `av_read_frame` issues,
      the frames decoded (as interleaved PCM bytes), and whether a read,
      send or receive call failed. */
  datatype DecodeCycle = DecodeCycle(readSizes: seq<nat>, frames: seq<seq<Byte>>, failed: bool)

  /** The output stream: whether it is ready, `pa_stream_writable_size`, and
      whether `pa_stream_write` succeeds. */
  datatype Sink = Sink(ready: bool, writable: nat, accepts: bool)

  /** How many leading 32-bit words of a chunk are zero (pareceive.c:592-594). */
  method LeadingSilence(data: seq<Byte>) returns (skip: nat)
    ensures skip == LeadingZeroWords(data)
  {
    var words := |data| / 4;
    skip := 0;
    while skip < words && Word32(data, skip) == 0
      invariant skip <= words
      invariant ZeroRun(data, skip) == ZeroRun(data, 0)
    {
      skip := skip + 1;
    }
  }

  /** Whether every whole 32-bit word of a chunk is zero (pareceive.c:777-780):
      the bitwise OR of the words is non-zero exactly when one word is. */
  method IsSilent(data: seq<Byte>) returns (silent: bool)
    ensures silent <==> Silent(data)
  {
    var words := |data| / 4;
    var notSilent := false;
    var i := 0;
    while i < words
      invariant i <= words
      invariant notSilent <==> exists k :: 0 <= k < i && Word32(data, k) != 0
    {
      notSilent := notSilent || Word32(data, i) != 0;
      i := i + 1;
    }
    silent := !notSilent;
  }

  /** A sequence is its prefix followed by the rest. */
  lemma SplitJoin(q: seq<Byte>, t: nat)
    requires t <= |q|
    ensures q[..t] + q[t..] == q
  {
  }

  class Receiver {
    var state: Signal
    /** `inbuffer`: capture bytes for the IEC 61937 demuxer. */
    const input: ByteQueue
    /** `outbuffer`: PCM bytes waiting for the output stream. */
    const output: ByteQueue
    /** The open decoder's block size (`avformatcontext` and its I/O buffer). */
    var session: Option<nat>
    /** Whether an output stream exists (`outstream`). */
    var sinkOpen: bool
    /** `prevextralength` and `total_missed_frames`. */
    var counters: Counters
    /** The silence accumulator, in microseconds. */
    var silenceUs: nat
    /** Whether the callback asked the main loop to quit. */
    var exitRequested: bool

    /** The input queue exists only while synchronising or decoding, the output
        queue never without a signal, a decoder only in the IEC 61937 state and
        an output stream exactly in the PCM state and with a decoder. */
    ghost predicate Valid()
      reads this, input, output
    {
      && input != output
      && input.Valid() && output.Valid()
      && (state != Compressed ==> input.buf == null && session == None)
      && (state == NoSignal ==> output.buf == null)
      && (state == Compressed && session == None ==> output.buf == null)
      && sinkOpen == (state == Pcm || session.Some?)
      && (session.Some? ==> session.value > 0)
      && counters.missed <= MissedLimit
      && silenceUs <= SilenceLimitUs
    }

    constructor ()
      ensures Valid() && fresh(input) && fresh(output)
      ensures state == NoSignal && input.Contents() == [] && output.Contents() == []
      ensures counters == Counters(0, 0) && silenceUs == 0 && !exitRequested
    {
      state := NoSignal;
      input := new ByteQueue();
      output := new ByteQueue();
      session := None;
      sinkOpen := false;
      counters := Counters(0, 0);
      silenceUs := 0;
      exitRequested := false;
    }

    /** `set_state` (pareceive.c:453-524). A change of state closes the output
        stream, drops the playback queue and tears down the decoder; leaving
        the IEC 61937 state drops the input queue, except that on the way to
        PCM its bytes become the playback queue. Entering PCM opens an output
        stream. The counters and the silence accumulator are kept. */
    method SetState(newState: Signal)
      requires Valid()
      modifies this, input, output
      ensures Valid() && state == newState
      ensures counters == old(counters) && silenceUs == old(silenceUs) && exitRequested == old(exitRequested)
      ensures old(state) == newState ==> unchanged(this, input, output)
      ensures old(state) != newState ==>
        && session == None && sinkOpen == (newState == Pcm)
        && input.Contents() == []
        && output.Contents() == (if old(state) == Compressed && newState == Pcm then old(input.Contents()) else [])
    {
      if state == newState {
        return;
      }
      output.Release();
      if state == Compressed && input.buf != null {
        if newState == Pcm {
          var tail := input.Peek();
          output.Append(tail);
        }
        input.Release();
      }
      state, session, sinkOpen := newState, None, newState == Pcm;
    }

    /** The synchronisation step of pareceive.c:607-622, run while no decoder
        is open: ask the burst synchroniser about the queued capture bytes;
        wait for more, fall back to PCM, or open a decoder on a block size.
        Returns whether a decoder is now open. */
    method Synchronise(probe: Probe) returns (proceed: bool)
      requires Valid() && state == Compressed && session == None
      modifies this, input, output
      ensures Valid()
      ensures counters.missed == old(counters.missed) && silenceUs == old(silenceUs)
      ensures exitRequested == old(exitRequested)
      ensures proceed <==> state == Compressed && session.Some?
      ensures var window := old(input.Contents());
        match Validate(window)
        case NeedMoreData => unchanged(this, input, output)
        case Invalid => state == Pcm && output.Contents() == window && counters == old(counters)
        case Block(n) => OpenedOn(old(input.Contents()), n, probe, old(counters))
    {
      ghost var window := input.Contents();
      var view := input.Peek();
      var verdict := ValidateWindow(view);
      match verdict {
        case NeedMoreData =>
          return false;
        case Invalid =>
          SetState(Pcm);
          return false;
        case Block(n) =>
          BlockIsBurst(window);
          proceed := OpenDecoder(n, probe);
      }
    }

    /** What opening a decoder on `window` with block size `n` leaves: the
        carry is the window's length, and the probe's reads are served; on a
        demuxer failure the rest of the window becomes PCM, on a codec failure
        the signal ends, and otherwise the decoder is open. */
    ghost predicate OpenedOn(window: seq<Byte>, n: nat, probe: Probe, before: Counters)
      reads this, input, output, input.buf, output.buf
      requires Valid()
    {
      var rest := window[|window| - ReadsLeave(|window|, probe.readSizes)..];
      && counters == before.(carry := |window|)
      && (if !probe.formatOpened || !probe.streamInfoFound then state == Pcm && output.Contents() == rest
          else if !probe.codecOpened then state == NoSignal
          else state == Compressed && session == Some(n) && input.Contents() == rest && output.Contents() == [])
    }

    /** Opening a decoder on a block size (pareceive.c:626-689). */
    method OpenDecoder(n: nat, probe: Probe) returns (proceed: bool)
      requires Valid() && state == Compressed && session == None && n > 0
      modifies this, input, output
      ensures Valid()
      ensures silenceUs == old(silenceUs) && exitRequested == old(exitRequested)
      ensures proceed <==> state == Compressed && session.Some?
      ensures OpenedOn(old(input.Contents()), n, probe, old(counters))
    {
      counters := counters.(carry := input.length);
      input.ServeReads(probe.readSizes);
      ghost var rest := input.Contents();
      if !probe.formatOpened || !probe.streamInfoFound {
        SetState(Pcm);
        assert output.Contents() == rest;
        return false;
      }
      if !probe.codecOpened {
        SetState(NoSignal);
        return false;
      }
      session, sinkOpen := Some(n), true;
      return true;
    }

    /** What a decode cycle on a decoder with block size `n` leaves, when the
        input queue held `window`, the output queue `queued` and the counters
        were `before`, for a chunk of `length` bytes: a decoding error or a
        starved decoder ends the signal; otherwise the demuxer's reads are
        served from the window, the counters follow the missed-frame
        accounting, the frames are queued and the sink gets the front of the
        queue when frames were decoded. */
    ghost predicate DecodedOn(window: seq<Byte>, n: nat, length: nat, cycle: DecodeCycle, sink: Sink,
                              before: Counters, queued: seq<Byte>, exitBefore: bool, played: seq<Byte>)
      reads this, input, output, input.buf, output.buf
      requires Valid() && n > 0
    {
      var outcome := MissedStep(before, length, n, |cycle.frames|);
      var all := queued + Flatten(cycle.frames);
      var taken := if cycle.frames != [] && sink.ready then WriteTaken(|all|, sink.writable, sink.accepts) else 0;
      && (state == Compressed || state == NoSignal)
      && (state == NoSignal <==> cycle.failed || outcome.lost)
      && (state == NoSignal ==> played == [] && exitRequested == exitBefore
                                && counters == if cycle.failed then before else outcome.counters)
      && (state == Compressed ==>
            && session == Some(n)
            && counters == outcome.counters
            && input.Contents() == window[|window| - ReadsLeave(|window|, cycle.readSizes)..]
            && played == all[..taken]
            && played + output.Contents() == all
            && exitRequested == (exitBefore || (cycle.frames != [] && sink.ready && !sink.accepts && Min(sink.writable, |all|) > 0)))
    }

    /** The decode step of pareceive.c:691-766, run with a decoder open on a
        chunk of `length` bytes: serve the demuxer's reads, queue the decoded
        frames, end the signal on a decoding error, and otherwise settle the
        cycle's accounting. */
    method Decode(length: nat, cycle: DecodeCycle, sink: Sink) returns (played: seq<Byte>)
      requires Valid() && state == Compressed && session.Some?
      modifies this, input, output
      ensures Valid()
      ensures silenceUs == old(silenceUs)
      ensures DecodedOn(old(input.Contents()), old(session).value, length, cycle, sink,
                        old(counters), old(output.Contents()), old(exitRequested), played)
    {
      played := [];
      Feed(cycle);
      if cycle.failed {
        SetState(NoSignal);
        return;
      }
      ghost var queued := output.Contents();
      played := Settle(length, |cycle.frames|, sink);
      if state == Compressed {
        SplitJoin(queued, |played|);
      }
    }

    /** The demuxer's reads of one decode cycle are served from the input
        queue and its decoded frames appended to the output queue. */
    method Feed(cycle: DecodeCycle)
      requires Valid() && state == Compressed && session.Some?
      modifies input, output
      ensures Valid()
      ensures input.Contents() == old(input.Contents())[|old(input.Contents())| - ReadsLeave(|old(input.Contents())|, cycle.readSizes)..]
      ensures output.Contents() == old(output.Contents()) + Flatten(cycle.frames)
    {
      input.ServeReads(cycle.readSizes);
      output.AppendFrames(cycle.frames);
    }

    /** The end of a decode cycle (pareceive.c:735-766): the missed-frame
        accounting, which may end the signal, then playback if frames were
        decoded. */
    method Settle(length: nat, decoded: nat, sink: Sink) returns (played: seq<Byte>)
      requires Valid() && state == Compressed && session.Some?
      modifies this, input, output
      ensures Valid()
      ensures silenceUs == old(silenceUs)
      ensures var outcome := MissedStep(old(counters), length, old(session).value, decoded);
        && counters == outcome.counters
        && (state == NoSignal <==> outcome.lost)
        && (outcome.lost ==> played == [] && exitRequested == old(exitRequested))
        && (!outcome.lost ==>
              var taken := if decoded > 0 && sink.ready then WriteTaken(old(output.length), sink.writable, sink.accepts) else 0;
              && state == Compressed && session == old(session) && unchanged(input)
              && played == old(output.Contents())[..taken]
              && output.Contents() == old(output.Contents())[taken..]
              && exitRequested == (old(exitRequested) || (decoded > 0 && sink.ready && !sink.accepts && Min(sink.writable, old(output.length)) > 0)))
    {
      played := [];
      var outcome := MissedStep(counters, length, session.value, decoded);
      counters := outcome.counters;
      if outcome.lost {
        SetState(NoSignal);
        return;
      }
      if decoded > 0 {
        played := Play(sink);
      }
    }

    /** `do_stream_write` on the output stream when it is ready
        (pareceive.c:762-763 and 774-775); a refused write asks the main loop
        to quit (pareceive.c:200-205). */
    method Play(sink: Sink) returns (played: seq<Byte>)
      requires Valid()
      modifies this, output
      ensures Valid()
      ensures state == old(state) && session == old(session) && sinkOpen == old(sinkOpen)
      ensures counters == old(counters) && silenceUs == old(silenceUs)
      ensures var taken := if sink.ready then WriteTaken(old(output.length), sink.writable, sink.accepts) else 0;
        && played == old(output.Contents())[..taken]
        && output.Contents() == old(output.Contents())[taken..]
        && exitRequested == (old(exitRequested) || (sink.ready && !sink.accepts && Min(sink.writable, old(output.length)) > 0))
    {
      played := [];
      if sink.ready {
        var ok;
        played, ok := output.Write(sink.writable, sink.accepts);
        if !ok {
          exitRequested := true;
        }
      }
    }

    /** What a PCM chunk `data` lasting `durationUs` leaves, when the output
        queue held `queued` and the silence accumulator stood at `silenceBefore`:
        the sink gets the front of the queue with the chunk appended, the
        accumulator takes the chunk's silence, and a silent stretch longer than
        a second ends the signal. */
    ghost predicate PassedOn(queued: seq<Byte>, data: seq<Byte>, sink: Sink, durationUs: nat,
                             silenceBefore: nat, exitBefore: bool, played: seq<Byte>)
      reads this, input, output, input.buf, output.buf
      requires Valid()
    {
      var all := queued + data;
      var taken := if sink.ready then WriteTaken(|all|, sink.writable, sink.accepts) else 0;
      var step := SilenceTrack(silenceBefore, Silent(data), durationUs);
      && played == all[..taken]
      && silenceUs == step.accumulatedUs
      && (state == Pcm || state == NoSignal)
      && (state == NoSignal <==> step.expired)
      && (state == Pcm ==> output.Contents() == all[taken..] && played + output.Contents() == all)
      && exitRequested == (exitBefore || (sink.ready && !sink.accepts && Min(sink.writable, |all|) > 0))
    }

    /** The PCM step of pareceive.c:768-790: queue the chunk and hand the
        output stream what it can take, then track silence; a silent stretch
        longer than a second ends the signal. */
    method PassThrough(data: seq<Byte>, sink: Sink, durationUs: nat) returns (played: seq<Byte>)
      requires Valid() && state == Pcm
      modifies this, input, output
      ensures Valid()
      ensures counters == old(counters)
      ensures PassedOn(old(output.Contents()), data, sink, durationUs, old(silenceUs), old(exitRequested), played)
    {
      output.Append(data);
      ghost var queued := output.Contents();
      played := Play(sink);
      SplitJoin(queued, |played|);
      var silent := IsSilent(data);
      var step := SilenceTrack(silenceUs, silent, durationUs);
      silenceUs := step.accumulatedUs;
      if step.expired {
        SetState(NoSignal);
      }
    }

    /** What a chunk of `length` bytes leaves while no decoder is open, when
        the input queue then holds `window`: the synchroniser's verdict on the
        window decides between waiting, PCM and opening a decoder; a decoder
        that opens decodes its first cycle at once. */
    ghost predicate SynchronisedOn(window: seq<Byte>, length: nat, probe: Probe, cycle: DecodeCycle, sink: Sink,
                                   before: Counters, exitBefore: bool, played: seq<Byte>)
      reads this, input, output, input.buf, output.buf
      requires Valid()
    {
      match Validate(window)
      case NeedMoreData =>
        state == Compressed && session == None && input.Contents() == window
        && counters == before && exitRequested == exitBefore && played == []
      case Invalid =>
        state == Pcm && output.Contents() == window
        && counters == before && exitRequested == exitBefore && played == []
      case Block(n) =>
        if probe.formatOpened && probe.streamInfoFound && probe.codecOpened then
          && n > 0
          && DecodedOn(window[|window| - ReadsLeave(|window|, probe.readSizes)..], n, length, cycle, sink,
                       before.(carry := |window|), [], exitBefore, played)
        else
          OpenedOn(window, n, probe, before) && exitRequested == exitBefore && played == []
    }

    /** The IEC 61937 part of pareceive.c:600-766: queue the `captured` bytes
        of a chunk of `length` bytes, synchronise while no decoder is open,
        and decode once one is. */
    method IecStep(captured: seq<Byte>, length: nat, probe: Probe, cycle: DecodeCycle, sink: Sink)
      returns (played: seq<Byte>)
      requires Valid() && state == Compressed
      modifies this, input, output
      ensures Valid()
      ensures silenceUs == old(silenceUs)
      ensures old(session) == None ==>
        SynchronisedOn(old(input.Contents()) + captured, length, probe, cycle, sink, old(counters), old(exitRequested), played)
      ensures old(session).Some? ==>
        DecodedOn(old(input.Contents()) + captured, old(session).value, length, cycle, sink,
                  old(counters), old(output.Contents()), old(exitRequested), played)
      ensures state == Compressed && session == None ==>
        input.Contents() == old(input.Contents()) + captured && Validate(input.Contents()) == NeedMoreData
      ensures old(session).Some? ==> state != Pcm
      ensures state == Compressed && session.Some? ==>
        played + output.Contents() == old(output.Contents()) + Flatten(cycle.frames)
      ensures old(session) == None ==>
        var window := old(input.Contents()) + captured;
        && (Validate(window) == NeedMoreData ==> state == Compressed && session == None && input.Contents() == window && played == [])
        && (Validate(window) == Invalid ==> state == Pcm && output.Contents() == window && played == [])
    {
      played := [];
      input.Append(captured);
      if session == None {
        var proceed := Synchronise(probe);
        if !proceed {
          return;
        }
      }
      played := Decode(length, cycle, sink);
    }

    /** The part of pareceive.c:590-605 without a signal: a chunk with a
        non-zero word starts IEC 61937 synchronisation from that word on. */
    method DetectSignal(data: seq<Byte>, probe: Probe, cycle: DecodeCycle, sink: Sink) returns (played: seq<Byte>)
      requires Valid() && state == NoSignal
      modifies this, input, output
      ensures Valid()
      ensures silenceUs == old(silenceUs)
      ensures Silent(data) ==> unchanged(this, input, output) && played == []
      ensures !Silent(data) ==>
        SynchronisedOn(data[4 * LeadingZeroWords(data)..], |data|, probe, cycle, sink, old(counters), old(exitRequested), played)
      ensures !Silent(data) && state == Compressed && session == None ==>
        input.Contents() == data[4 * LeadingZeroWords(data)..] && Validate(input.Contents()) == NeedMoreData
      ensures state == Compressed && session.Some? ==> played + output.Contents() == Flatten(cycle.frames)
      ensures !Silent(data) ==>
        var tail := data[4 * LeadingZeroWords(data)..];
        && (Validate(tail) == NeedMoreData ==> state == Compressed && session == None && input.Contents() == tail)
        && (Validate(tail) == Invalid ==> state == Pcm && output.Contents() == tail)
    {
      played := [];
      var skip := LeadingSilence(data);
      if skip < |data| / 4 {
        SetState(Compressed);
        var tail := data[4 * skip..];
        assert input.Contents() + tail == tail;
        played := IecStep(tail, |data|, probe, cycle, sink);
      }
    }

    /** `stream_read_callback` (pareceive.c:569-792): one capture chunk, or a
        failed peek, which asks the main loop to quit. */
    method Deliver(peeked: bool, data: seq<Byte>, probe: Probe, cycle: DecodeCycle, sink: Sink, durationUs: nat)
      returns (played: seq<Byte>)
      requires Valid() && |data| > 0
      modifies this, input, output
      ensures Valid()
      ensures !peeked ==>
        && exitRequested && played == [] && unchanged(input, output) && state == old(state)
        && session == old(session) && counters == old(counters) && silenceUs == old(silenceUs)
      ensures old(state) != Pcm ==> silenceUs == old(silenceUs)
      ensures peeked && old(state) == NoSignal && !Silent(data) ==>
        SynchronisedOn(data[4 * LeadingZeroWords(data)..], |data|, probe, cycle, sink, old(counters), old(exitRequested), played)
      ensures peeked && old(state) == Compressed && old(session) == None ==>
        SynchronisedOn(old(input.Contents()) + data, |data|, probe, cycle, sink, old(counters), old(exitRequested), played)
      ensures peeked && old(state) == Compressed && old(session).Some? ==>
        DecodedOn(old(input.Contents()) + data, old(session).value, |data|, cycle, sink,
                  old(counters), old(output.Contents()), old(exitRequested), played)
      ensures peeked && old(state) == Pcm ==>
        && counters == old(counters)
        && PassedOn(old(output.Contents()), data, sink, durationUs, old(silenceUs), old(exitRequested), played)
      ensures peeked && old(state) == NoSignal && Silent(data) ==> unchanged(this, input, output) && played == []
      ensures peeked && state == Compressed && session == None ==>
        Validate(input.Contents()) == NeedMoreData
      ensures peeked && old(state) == NoSignal && !Silent(data) ==>
        var tail := data[4 * LeadingZeroWords(data)..];
        && (Validate(tail) == NeedMoreData ==> state == Compressed && session == None && input.Contents() == tail)
        && (Validate(tail) == Invalid ==> state == Pcm && output.Contents() == tail)
      ensures peeked && old(state) == Compressed && old(session) == None ==>
        var window := old(input.Contents()) + data;
        && (Validate(window) == NeedMoreData ==> state == Compressed && session == None && input.Contents() == window)
        && (Validate(window) == Invalid ==> state == Pcm && output.Contents() == window)
      ensures old(state) == Pcm ==> state == Pcm || state == NoSignal
      ensures peeked && old(state) == Pcm && state == Pcm ==> played + output.Contents() == old(output.Contents()) + data
      ensures old(session).Some? ==> state != Pcm
      ensures peeked && state == Compressed && session.Some? ==>
        played + output.Contents() == old(output.Contents()) + Flatten(cycle.frames)
    {
      played := [];
      if !peeked {
        exitRequested := true;
        return;
      }
      match state {
        case NoSignal =>
          played := DetectSignal(data, probe, cycle, sink);
        case Compressed =>
          played := IecStep(data, |data|, probe, cycle, sink);
        case Pcm =>
          played := PassThrough(data, sink, durationUs);
      }
    }

    /** `stream_write_callback` (pareceive.c:225-234): the output stream asks
        for up to `request` bytes; a refused write asks the main loop to quit. */
    method WriteRequested(request: nat, accepts: bool) returns (played: seq<Byte>)
      requires Valid() && request > 0
      modifies this, output
      ensures Valid()
      ensures state == old(state) && session == old(session) && sinkOpen == old(sinkOpen)
      ensures counters == old(counters) && silenceUs == old(silenceUs)
      ensures played == old(output.Contents())[..WriteTaken(old(output.length), request, accepts)]
      ensures output.Contents() == old(output.Contents())[|played|..]
      ensures exitRequested == (old(exitRequested) || (!accepts && Min(request, old(output.length)) > 0))
    {
      played := Play(Sink(true, request, accepts));
    }
  }
}
