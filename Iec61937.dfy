/** The IEC 61937 burst synchroniser (`iec61937_validate`, pareceive.c:526-567).
    A data burst of IEC 61937-1 starts with the preamble words Pa, Pb, Pc, Pd.
    Pa = 0xF872 and Pb = 0x4E1F form the sync word; Pd holds the burst length
    in bits, so `Pd >> 5` is that length in 32-bit words. The synchroniser looks
    for a first sync word, skips the burst the first Pd announces, looks for the
    next sync word and reports the byte distance between the two. */
module Iec61937 {
  import opened Bytes

  /** Pa and Pb read as one host-order 32-bit word. */
  const SyncWord: nat := 0x4E1F_F872
  /** SPDIF_MAX_OFFSET: the largest burst spacing, in bytes, the synchroniser accepts. */
  const MaxOffset: nat := 16384

  /** The verdict on a window: wait for more bytes, give up on IEC 61937, or the
      burst spacing in bytes (returned as 0, 1 and the spacing in the source). */
  datatype Sync = NeedMoreData | Invalid | Block(size: nat)

  predicate IsSync(data: seq<Byte>, k: nat)
  {
    k < Words(data) && Word32(data, k) == SyncWord
  }

  /** The sync word occupies bytes 72 F8 1F 4E, i.e. Pa = 0xF872 then Pb = 0x4E1F. */
  lemma SyncBytes(data: seq<Byte>, k: nat)
    requires k < Words(data)
    ensures IsSync(data, k) <==> data[4 * k .. 4 * k + 4] == [0x72, 0xF8, 0x1F, 0x4E]
  {
    var b0, b1, b2, b3: int := data[4 * k], data[4 * k + 1], data[4 * k + 2], data[4 * k + 3];
    assert Word32(data, k) == b0 + 0x100 * b1 + 0x1_0000 * b2 + 0x100_0000 * b3;
    if data[4 * k .. 4 * k + 4] == [0x72, 0xF8, 0x1F, 0x4E] {
      assert b0 == 0x72 && b1 == 0xF8 && b2 == 0x1F && b3 == 0x4E;
    }
    if IsSync(data, k) {
      assert b3 == 0x4E;
      assert b2 == 0x1F;
      assert b1 == 0xF8;
      assert b0 == 0x72;
      assert data[4 * k .. 4 * k + 4] == [b0, b1, b2, b3];
    }
  }

  /** The word index where a `for` loop that starts at `from` and stops at the
      first sync word ends: that sync word, `Words(data)` when the rest of the
      window has none, or `from` itself when `from` is already past the window. */
  function Scan(data: seq<Byte>, from: nat): (k: nat)
    ensures from <= k
    ensures from <= Words(data) ==> k <= Words(data)
    ensures Words(data) <= from ==> k == from
    ensures k < Words(data) ==> IsSync(data, k)
    ensures forall j :: from <= j < k && j < Words(data) ==> !IsSync(data, j)
    decreases Words(data) - from
  {
    if from >= Words(data) || IsSync(data, from) then from else Scan(data, from + 1)
  }

  /** The burst length announced by the Pd word of the preamble starting at
      word `first`, in 32-bit words (`Pd >> 5`). */
  function BurstWords(data: seq<Byte>, first: nat): (n: nat)
    requires 4 * first + 8 <= |data|
    ensures n < 0x800
  {
    Word16(data, 2 * first + 3) / 32
  }

  /** The verdict when no sync word was found at all. */
  function NoFirst(length: nat): Sync
  {
    if length < MaxOffset then NeedMoreData else Invalid
  }

  /** The verdict when a first sync word was found but no second one. */
  function NoSecond(length: nat): Sync
  {
    if length < 2 * MaxOffset then NeedMoreData else Invalid
  }

  /** The verdict on two sync words `size` bytes apart in a window of `length` bytes:
      too far apart, fewer than two bursts buffered, or a block size. */
  function Spacing(length: nat, size: nat): Sync
  {
    if size > MaxOffset then Invalid
    else if length < 2 * size then NeedMoreData
    else Block(size)
  }

  /** `iec61937_validate` with the two out-of-window cases handled: a Pd word
      that lies past the window, and a second search that starts past it, both
      mean that no second sync word is buffered yet. */
  function Validate(data: seq<Byte>): (r: Sync)
    ensures r == NeedMoreData ==> |data| < 2 * MaxOffset
    ensures r.Block? ==> 8 <= r.size <= MaxOffset && 2 * r.size <= |data|
  {
    var first := Scan(data, 0);
    if first == Words(data) then NoFirst(|data|)
    else if |data| < 4 * first + 8 then NoSecond(|data|)
    else
      var second := Scan(data, first + BurstWords(data, first) + 2);
      if second >= Words(data) then NoSecond(|data|)
      else Spacing(|data|, 4 * (second - first))
  }

  /** `iec61937_validate` as written (pareceive.c:534-566). The Pd word is read
      without a bounds check, so when it lies past the window its value is
      whatever the memory there holds, given here as `overread`; and the second
      search is declared unsuccessful only when it stopped exactly at the
      window's end. */
  function ValidateAsWritten(data: seq<Byte>, overread: nat): (r: Sync)
    requires overread < 0x1_0000
    ensures r == NeedMoreData ==> |data| < 2 * MaxOffset
    ensures r.Block? ==> 8 <= r.size <= MaxOffset && 2 * r.size <= |data|
    ensures r.Block? ==> IsSync(data, Scan(data, 0))
  {
    var first := Scan(data, 0);
    if first == Words(data) then NoFirst(|data|)
    else
      var pd := if 4 * first + 8 <= |data| then Word16(data, 2 * first + 3) else overread;
      var second := Scan(data, first + pd / 32 + 2);
      if second == Words(data) then NoSecond(|data|)
      else Spacing(|data|, 4 * (second - first))
  }

  /** One of the two search loops of pareceive.c:534-566: step word by word
      from `from` until a sync word or the window's end. */
  method FindSync(data: seq<Byte>, from: nat) returns (k: nat)
    ensures k == Scan(data, from)
  {
    var words := |data| / 4;
    k := from;
    while k < words && Word32(data, k) != SyncWord
      invariant from <= k
      invariant Scan(data, k) == Scan(data, from)
    {
      k := k + 1;
    }
  }

  /** `iec61937_validate` (pareceive.c:526-567), step by step, with the
      corrected out-of-window tests; it computes `Validate`. */
  method ValidateWindow(data: seq<Byte>) returns (r: Sync)
    ensures r == Validate(data)
  {
    var words := |data| / 4;
    var first := FindSync(data, 0);
    if first == words {
      return if |data| < MaxOffset then NeedMoreData else Invalid;
    }
    if |data| < 4 * first + 8 {
      return if |data| < 2 * MaxOffset then NeedMoreData else Invalid;
    }
    var burst := Word16(data, 2 * first + 3) / 32;
    assert burst == BurstWords(data, first);
    var second := FindSync(data, first + burst + 2);
    if second >= words {
      return if |data| < 2 * MaxOffset then NeedMoreData else Invalid;
    }
    var size := 4 * (second - first);
    assert Validate(data) == Spacing(|data|, size);
    if size > MaxOffset {
      return Invalid;
    }
    if |data| < 2 * size {
      return NeedMoreData;
    }
    return Block(size);
  }

  // ---------------------------------------------------------------------
  // A reference description of a burst, independent of the scan

  /** `k` is the first sync word at or after word `from`. */
  ghost predicate FirstSyncFrom(data: seq<Byte>, from: nat, k: nat)
  {
    from <= k && IsSync(data, k) && forall j :: from <= j < k ==> !IsSync(data, j)
  }

  /** The window's first sync word is `f`, its Pd word is buffered, and `s` is
      the first sync word past the burst that Pd announces. */
  ghost predicate Burst(data: seq<Byte>, f: nat, s: nat)
  {
    FirstSyncFrom(data, 0, f) && 4 * f + 8 <= |data| && FirstSyncFrom(data, f + BurstWords(data, f) + 2, s)
  }

  lemma ScanFindsFirst(data: seq<Byte>, from: nat, k: nat)
    requires FirstSyncFrom(data, from, k)
    ensures Scan(data, from) == k
  {
  }

  /** No sync word anywhere: wait below SPDIF_MAX_OFFSET bytes, give up from there on. */
  lemma NoSyncWord(data: seq<Byte>)
    requires forall k :: 0 <= k < Words(data) ==> !IsSync(data, k)
    ensures Validate(data) == (if |data| < MaxOffset then NeedMoreData else Invalid)
  {
    assert Scan(data, 0) == Words(data);
  }

  /** A first sync word but no second one past the burst its Pd word
      announces: wait below twice SPDIF_MAX_OFFSET bytes, give up from there on.
      A second search that starts past the window finds nothing either. */
  lemma NoSecondSyncWord(data: seq<Byte>, f: nat)
    requires FirstSyncFrom(data, 0, f) && 4 * f + 8 <= |data|
    requires forall k :: f + BurstWords(data, f) + 2 <= k < Words(data) ==> !IsSync(data, k)
    ensures Validate(data) == (if |data| < 2 * MaxOffset then NeedMoreData else Invalid)
  {
    ScanFindsFirst(data, 0, f);
  }

  /** A first sync word whose Pd word lies past the window counts as no second
      sync word yet. */
  lemma PdPastWindow(data: seq<Byte>, f: nat)
    requires FirstSyncFrom(data, 0, f) && |data| < 4 * f + 8
    ensures Validate(data) == (if |data| < 2 * MaxOffset then NeedMoreData else Invalid)
  {
    ScanFindsFirst(data, 0, f);
  }

  /** Two correctly spaced sync words decide the verdict by their distance alone:
      a block size once two bursts are buffered, more data before that, and
      failure when they lie more than SPDIF_MAX_OFFSET bytes apart. */
  lemma BurstDecides(data: seq<Byte>, f: nat, s: nat)
    requires Burst(data, f, s)
    ensures Validate(data) == Spacing(|data|, 4 * (s - f))
  {
    ScanFindsFirst(data, 0, f);
    ScanFindsFirst(data, f + BurstWords(data, f) + 2, s);
  }

  /** The two sync words behind a block verdict. */
  lemma BlockWitness(data: seq<Byte>) returns (f: nat, s: nat)
    ensures Validate(data).Block? ==>
      Burst(data, f, s) && f + 2 <= s && Validate(data) == Spacing(|data|, 4 * (s - f))
  {
    f, s := 0, 0;
    if Validate(data).Block? {
      f := Scan(data, 0);
      assert f < Words(data) && 4 * f + 8 <= |data|;
      var from := f + BurstWords(data, f) + 2;
      s := Scan(data, from);
      assert s < Words(data);
      ScanIsFirst(data, 0);
      ScanIsFirst(data, from);
    }
  }

  /** A block size is always the distance between two sync words that form a
      burst (so a whole number of 32-bit words), at least 8 bytes, at most
      SPDIF_MAX_OFFSET, and at most half the window. */
  lemma BlockIsBurst(data: seq<Byte>)
    ensures Validate(data).Block? ==>
      var n := Validate(data).size;
      8 <= n <= MaxOffset && 2 * n <= |data|
      && exists f: nat, s: nat :: Burst(data, f, s) && n == 4 * (s - f)
  {
    var f, s := BlockWitness(data);
    if Validate(data).Block? {
      var d := s - f;
      assert Validate(data) == Block(4 * d);
    }
  }

  /** A scan that stops inside the window stops at the first sync word. */
  lemma ScanIsFirst(data: seq<Byte>, from: nat)
    requires Scan(data, from) < Words(data)
    ensures FirstSyncFrom(data, from, Scan(data, from))
  {
  }

  /** The result is exactly one of: NeedMoreData, Invalid, or a burst spacing. */
  lemma VerdictCases(data: seq<Byte>)
    ensures Validate(data) == NeedMoreData ==> |data| < 2 * MaxOffset
    ensures Validate(data) == Invalid ==> |data| >= MaxOffset || exists f: nat, s: nat :: Burst(data, f, s) && 4 * (s - f) > MaxOffset
  {
    var f := Scan(data, 0);
    if f < Words(data) && 4 * f + 8 <= |data| {
      var s := Scan(data, f + BurstWords(data, f) + 2);
      if s < Words(data) {
        assert Burst(data, f, s);
        if Validate(data) == NeedMoreData {
          assert |data| < 2 * (4 * (s - f)) <= 2 * MaxOffset;
        }
      }
    }
  }

  // ---------------------------------------------------------------------
  // The code as written

  /** Whenever the Pd word is buffered and the second search starts inside the
      window, the code as written and the corrected synchroniser agree. */
  lemma AsWrittenAgreesInsideWindow(data: seq<Byte>, overread: nat)
    requires overread < 0x1_0000
    requires var f := Scan(data, 0);
      f < Words(data) ==> 4 * f + 8 <= |data| && f + BurstWords(data, f) + 2 <= Words(data)
    ensures ValidateAsWritten(data, overread) == Validate(data)
  {
  }

  /** A 16-byte window whose only sync word is its last word: Pd is read from
      past the window and, if that memory holds 0, the second search starts at
      word 5 of 4; together with the `== length/4` test that lets this pass as
      a found sync word, the code as written reports a block of 8 bytes
      although no second sync word exists. */
  lemma PdOverreadYieldsBlock()
    ensures var data: seq<Byte> := [0, 0, 0, 0, 0, 0, 0, 0, 0, 0, 0, 0, 0x72, 0xF8, 0x1F, 0x4E];
      && (forall k :: 0 <= k < 3 ==> !IsSync(data, k))
      && IsSync(data, 3)
      && ValidateAsWritten(data, 0) == Block(8)
      && Validate(data) == NeedMoreData
  {
    var data: seq<Byte> := [0, 0, 0, 0, 0, 0, 0, 0, 0, 0, 0, 0, 0x72, 0xF8, 0x1F, 0x4E];
    assert Words(data) == 4;
    assert IsSync(data, 3);
    assert Scan(data, 5) == 5;
    assert Scan(data, 2) == 3;
    assert Scan(data, 0) == 3;
  }

  /** A 24-byte window with one sync word at word 4 whose Pd announces one
      word: the second search starts at word 7, past the window's 6 words, so
      the loop never runs, the `== length/4` test misses, and the code as
      written reports a block of 12 bytes built from a single sync word. */
  lemma SearchPastWindowYieldsBlock(overread: nat)
    requires overread < 0x1_0000
    ensures var data: seq<Byte> := [0, 0, 0, 0, 0, 0, 0, 0, 0, 0, 0, 0, 0, 0, 0, 0, 0x72, 0xF8, 0x1F, 0x4E, 0, 0, 0x20, 0];
      && (forall k :: 0 <= k < Words(data) && k != 4 ==> !IsSync(data, k))
      && BurstWords(data, 4) == 1
      && ValidateAsWritten(data, overread) == Block(12)
      && Validate(data) == NeedMoreData
  {
    var data: seq<Byte> := [0, 0, 0, 0, 0, 0, 0, 0, 0, 0, 0, 0, 0, 0, 0, 0, 0x72, 0xF8, 0x1F, 0x4E, 0, 0, 0x20, 0];
    assert Words(data) == 6;
    assert IsSync(data, 4);
    assert !IsSync(data, 5);
    assert Scan(data, 3) == 4;
    assert Scan(data, 1) == 4;
    assert Scan(data, 0) == 4;
    assert Word16(data, 11) == 0x20;
    assert Scan(data, 7) == 7;
  }
}
