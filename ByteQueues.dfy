/** The two growable byte queues of the receiver: the capture queue
    (`inbuffer`, `inbuffer_index`, `inbuffer_length`, pareceive.c:18-19) that
    feeds the IEC 61937 demuxer, and the playback queue (`outbuffer`,
    `outbuffer_index`, `outbuffer_length`, pareceive.c:21-22) that feeds the
    output stream. A queue is a heap block (absent when NULL), a read index
    and a count of valid bytes; the block always ends right after the valid
    bytes. Reallocation and memmove are modelled as a fresh block that the
    surviving bytes are copied into, so a block is never written once the
    queue holds it. */
module ByteQueues {
  import opened Bytes

  /** Compaction needs more than this many valid bytes ... */
  const CompactLength: nat := 1024 * 1024
  /** ... and a read index beyond this. */
  const CompactIndex: nat := 4 * 1024

  datatype Option<T> = None | Some(value: T)

  /** What `readFunction` gives the demuxer: AVERROR_EOF, or exactly the bytes asked for. */
  datatype ReadResult = Eof | Filled(bytes: seq<Byte>)

  /** Bytes left of `available` queued bytes after all-or-nothing reads of
      `sizes`, issued in order. */
  function ReadsLeave(available: nat, sizes: seq<nat>): (left: nat)
    ensures left <= available
  {
    if sizes == [] then available
    else
      var before := ReadsLeave(available, sizes[..|sizes| - 1]);
      var size := sizes[|sizes| - 1];
      if size <= before then before - size else before
  }

  /** Helper for the loop in `ServeReads`: `ReadsLeave` unfolded by one more
      read, issued after the reads of `sizes[..i]`. */
  lemma ReadsLeaveStep(available: nat, sizes: seq<nat>, i: nat)
    requires i < |sizes|
    ensures var before := ReadsLeave(available, sizes[..i]);
      ReadsLeave(available, sizes[..i + 1]) == if sizes[i] <= before then before - sizes[i] else before
  {
    assert sizes[..i + 1][..i] == sizes[..i];
  }

  /** The decoded frames of one cycle, concatenated in order. */
  function Flatten(frames: seq<seq<Byte>>): (pcm: seq<Byte>)
    ensures frames == [] ==> pcm == []
  {
    if frames == [] then [] else Flatten(frames[..|frames| - 1]) + frames[|frames| - 1]
  }

  /** Bytes a playback write of at most `request` bytes takes from `queued`
      bytes when the sink does or does not accept them. */
  function WriteTaken(queued: nat, request: nat, accepted: bool): (n: nat)
    ensures n <= queued && n <= request
    ensures accepted ==> n == Min(request, queued)
  {
    if accepted then Min(request, queued) else 0
  }

  /** The read index after consuming `n` bytes leaves `remaining` valid bytes:
      the block is compacted to offset 0 when it is large and mostly consumed. */
  function IndexAfter(oldIndex: nat, n: nat, remaining: nat): (i: nat)
    ensures i == 0 || i == oldIndex + n
    ensures remaining == 0 ==> i == 0
    ensures remaining > CompactLength && oldIndex + n > CompactIndex ==> i == 0
    ensures 0 < remaining <= CompactLength || oldIndex + n <= CompactIndex ==> i == (if remaining == 0 then 0 else oldIndex + n)
  {
    if remaining == 0 || (remaining > CompactLength && oldIndex + n > CompactIndex) then 0
    else oldIndex + n
  }

  class ByteQueue {
    var buf: array?<Byte>
    var index: nat
    var length: nat

    /** No block means nothing queued; a block ends right after its valid bytes. */
    ghost predicate Valid()
      reads this
    {
      if buf == null then index == 0 && length == 0 else buf.Length == index + length
    }

    /** The queued bytes, oldest first. */
    ghost function Contents(): (s: seq<Byte>)
      reads this, buf
      requires Valid()
      ensures |s| == length
    {
      if buf == null then [] else buf[index..]
    }

    constructor ()
      ensures Valid() && buf == null && Contents() == []
    {
      buf := null;
      index, length := 0, 0;
    }

    /** A read-only view of the queued bytes (the window handed to the synchroniser). */
    method Peek() returns (window: seq<Byte>)
      requires Valid()
      ensures window == Contents()
    {
      window := if buf == null then [] else buf[index..index + length];
    }

    /** Append at the tail: grow the block to `index + length + |bytes|` and
      copy the new bytes after the valid ones (pareceive.c:603-605, 770-772,
      498-500). */
    method Append(bytes: seq<Byte>)
      requires Valid()
      modifies this
      ensures Valid() && buf != null && fresh(buf)
      ensures Contents() == old(Contents()) + bytes
      ensures index == old(index)
    {
      var grown := new Byte[index + length + |bytes|];
      if buf != null {
        forall i | 0 <= i < index + length {
          grown[i] := buf[i];
        }
      }
      forall i | 0 <= i < |bytes| {
        grown[index + length + i] := bytes[i];
      }
      assert grown[index..] == old(Contents()) + bytes;
      buf, length := grown, length + |bytes|;
    }

    /** The decode loop's appends (pareceive.c:708-716): each decoded frame is
      appended at the tail, in order. */
    method AppendFrames(frames: seq<seq<Byte>>)
      requires Valid()
      modifies this
      ensures Valid()
      ensures Contents() == old(Contents()) + Flatten(frames)
      ensures frames == [] ==> unchanged(this)
    {
      ghost var before := Contents();
      var i := 0;
      while i < |frames|
        invariant i <= |frames|
        invariant Valid()
        invariant Contents() == before + Flatten(frames[..i])
        invariant i == 0 ==> unchanged(this)
      {
        assert frames[..i + 1][..i] == frames[..i];
        Append(frames[i]);
        i := i + 1;
      }
      assert frames[..i] == frames;
    }

    /** Free the block and reset index and length. */
    method Release()
      modifies this
      ensures Valid() && buf == null && index == 0 && length == 0 && Contents() == []
    {
      buf := null;
      index, length := 0, 0;
    }

    /** Move the valid bytes to offset 0 and shrink the block to them. */
    method Compact()
      requires Valid() && buf != null
      modifies this
      ensures Valid() && buf != null && fresh(buf)
      ensures Contents() == old(Contents())
      ensures index == 0 && buf.Length == length
    {
      var moved := new Byte[length];
      forall i | 0 <= i < length {
        moved[i] := buf[index + i];
      }
      assert moved[..] == old(Contents());
      buf, index := moved, 0;
    }

    /** Consume `n` bytes from the front; release the block when nothing is
      left, compact it when more than 1 MiB remains past a 4 KiB index
      (pareceive.c:207-221 and 415-429). */
    method Advance(n: nat)
      requires Valid() && buf != null && n <= length
      modifies this
      ensures Valid()
      ensures Contents() == old(Contents())[n..]
      ensures length == 0 ==> buf == null
      ensures index == IndexAfter(old(index), n, length)
    {
      length, index := length - n, index + n;
      if length == 0 {
        Release();
      } else if length > CompactLength && index > CompactIndex {
        Compact();
      }
    }

    /** `do_stream_write` (pareceive.c:192-222): hand the sink at most
      `request` bytes from the front. Nothing happens without a block, with an
      empty queue or a zero request; a write the sink refuses leaves the queue
      as it was and reports failure (the source then asks the process to quit). */
    method Write(request: nat, accepted: bool) returns (written: seq<Byte>, ok: bool)
      requires Valid()
      modifies this
      ensures Valid()
      ensures ok <==> accepted || Min(request, old(length)) == 0
      ensures written == old(Contents())[..WriteTaken(old(length), request, accepted)]
      ensures Contents() == old(Contents())[|written|..]
      ensures written == [] ==> unchanged(this)
      ensures written != [] ==> index == IndexAfter(old(index), |written|, length)
      ensures written != [] && length == 0 ==> buf == null
    {
      var l := if request < length then request else length;
      if buf == null || length == 0 || l == 0 {
        return [], true;
      }
      if !accepted {
        return [], false;
      }
      written, ok := buf[index..index + l], true;
      Advance(l);
    }

    /** `readFunction` (pareceive.c:402-432): all or nothing. Without a block or
      with fewer than `size` bytes queued it answers end of data and changes
      nothing; otherwise it hands over exactly the first `size` bytes. */
    method Read(size: nat) returns (r: ReadResult)
      requires Valid()
      modifies this
      ensures Valid()
      ensures r == Eof <==> old(buf) == null || old(length) < size
      ensures r == Eof ==> unchanged(this)
      ensures length == if size <= old(length) then old(length) - size else old(length)
      ensures Contents() == if r == Eof then old(Contents()) else old(Contents())[size..]
      ensures r != Eof ==> r == Filled(old(Contents())[..size])
                           && Contents() == old(Contents())[size..]
                           && index == IndexAfter(old(index), size, length)
                           && (length == 0 ==> buf == null)
    {
      if buf == null || length < size {
        return Eof;
      }
      r := Filled(buf[index..index + size]);
      Advance(size);
    }

    /** The demuxer pulling through `readFunction`: one all-or-nothing read per
      requested size, in order. */
    method ServeReads(sizes: seq<nat>)
      requires Valid()
      modifies this
      ensures Valid()
      ensures Contents() == old(Contents())[|old(Contents())| - ReadsLeave(|old(Contents())|, sizes)..]
    {
      ghost var before := Contents();
      var i := 0;
      while i < |sizes|
        invariant i <= |sizes|
        invariant Valid()
        invariant length == ReadsLeave(|before|, sizes[..i])
        invariant Contents() == before[|before| - length..]
      {
        ReadsLeaveStep(|before|, sizes, i);
        ghost var pre := Contents();
        var r := Read(sizes[i]);
        if r != Eof {
          assert pre[sizes[i]..] == before[|before| - length..];
        }
        i := i + 1;
      }
      assert sizes[..i] == sizes;
    }
  }

  /** FIFO round trip: two appends read back, in order, by two reads of their
      sizes; the queue is released afterwards. A read of 0 bytes from a
      released queue answers end of data. */
  method RoundTrip(a: seq<Byte>, b: seq<Byte>) returns (first: ReadResult, second: ReadResult, released: bool)
    ensures first == Filled(a)
    ensures second == if b == [] then Eof else Filled(b)
    ensures released
  {
    var q := new ByteQueue();
    q.Append(a);
    q.Append(b);
    first := q.Read(|a|);
    assert a + b == (a + b)[..|a|] + b;
    second := q.Read(|b|);
    released := q.buf == null && q.length == 0;
  }

  // ---------------------------------------------------------------------
  // The code as written

  /** The block `readFunction` leaves after compacting as written
      (pareceive.c:426-427): `length` bytes are moved from `index` to offset 0,
      then the block is resized to `length - index` bytes. `mem` is the block
      before, with its `length` valid bytes at `index`; `None` stands for a
      size that wraps around below zero, which no allocation can meet. */
  function CompactAsWritten(mem: seq<Byte>, index: nat, length: nat): (kept: Option<seq<Byte>>)
    requires |mem| == index + length
    requires length > CompactLength && index > CompactIndex
    ensures kept.Some? <==> index <= length
    ensures kept.Some? ==> |kept.value| == length - index
  {
    var moved := mem[index..] + mem[length..];
    if length < index then None else Some(moved[..length - index])
  }

  /** Every compaction as written loses the last `index` queued bytes from the
      block while the queue still counts them, or asks for an impossible size. */
  lemma CompactAsWrittenLosesBytes(mem: seq<Byte>, index: nat, length: nat)
    requires |mem| == index + length
    requires length > CompactLength && index > CompactIndex
    ensures var kept := CompactAsWritten(mem, index, length);
      kept == None || (|kept.value| < length && kept.value == mem[index..][..length - index])
  {
  }

  /** The valid bytes after a decoded frame is appended as written
      (pareceive.c:711-713). `grown` is the block after it was grown to
      `index + length + |pcm|` bytes (its bytes past the old valid ones are
      whatever the allocator left there); the frame is copied to offset
      `length` instead of `index + length`, and the queue then counts the
      `length + |pcm|` bytes from `index`. */
  function AppendFrameAsWritten(grown: seq<Byte>, index: nat, length: nat, pcm: seq<Byte>): (live: seq<Byte>)
    requires |grown| == index + length + |pcm|
    ensures |live| == length + |pcm|
    ensures index <= length ==> live[length - index..length - index + |pcm|] == pcm
  {
    (grown[..length] + pcm + grown[length + |pcm|..])[index..]
  }

  /** With the read index at 0 the as-written append is a correct append. */
  lemma AppendFrameAsWrittenAtZero(grown: seq<Byte>, length: nat, pcm: seq<Byte>)
    requires |grown| == length + |pcm|
    ensures AppendFrameAsWritten(grown, 0, length, pcm) == grown[..length] + pcm
  {
  }

  /** One byte queued at index 1 and a one-byte frame: the frame overwrites the
      queued byte and an unwritten byte becomes queued instead. */
  lemma AppendFrameAsWrittenCorrupts()
    ensures var grown: seq<Byte> := [7, 9, 0];
      AppendFrameAsWritten(grown, 1, 1, [5]) == [5, 0] != grown[1..2] + [5]
  {
    var grown: seq<Byte> := [7, 9, 0];
    assert grown[..1] + [5] + grown[2..] == [7, 5, 0];
    assert (grown[1..2] + [5])[0] == 9;
  }
}
