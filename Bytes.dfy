/** Capture bytes and the 32- and 16-bit words the receiver reads from them.
    The receiver casts its byte windows to `uint32_t*` and `uint16_t*`; this
    model fixes the host to little-endian, the byte order the IEC 61937 sync
    constant is written for. */
module Bytes {

  /** One octet of sample data. */
  type Byte = b: int | 0 <= b < 0x100

  /** Number of whole 32-bit words in a window; trailing bytes are never examined. */
  function Words(data: seq<Byte>): (n: nat)
    ensures 4 * n <= |data| < 4 * n + 4
  {
    |data| / 4
  }

  /** The k-th 32-bit word of a window, in little-endian host order. */
  function Word32(data: seq<Byte>, k: nat): (w: nat)
    requires k < Words(data)
    ensures w < 0x1_0000_0000
    ensures w == 0 <==> data[4 * k] == 0 && data[4 * k + 1] == 0 && data[4 * k + 2] == 0 && data[4 * k + 3] == 0
  {
    var b0, b1, b2, b3: int := data[4 * k], data[4 * k + 1], data[4 * k + 2], data[4 * k + 3];
    b0 + 0x100 * b1 + 0x1_0000 * b2 + 0x100_0000 * b3
  }

  /** The j-th 16-bit word of a window, in little-endian host order. */
  function Word16(data: seq<Byte>, j: nat): (h: nat)
    requires 2 * j + 2 <= |data|
    ensures h < 0x1_0000
    ensures h / 0x100 == data[2 * j + 1] && h % 0x100 == data[2 * j]
  {
    var lo, hi: int := data[2 * j], data[2 * j + 1];
    lo + 0x100 * hi
  }

  /** A window whose every whole 32-bit word is zero (what the receiver treats as silence). */
  ghost predicate Silent(data: seq<Byte>)
  {
    forall k :: 0 <= k < Words(data) ==> Word32(data, k) == 0
  }

  /** The number of leading all-zero 32-bit words of a window, starting the count at word `from`. */
  function ZeroRun(data: seq<Byte>, from: nat): (i: nat)
    requires from <= Words(data)
    ensures from <= i <= Words(data)
    ensures forall k :: from <= k < i ==> Word32(data, k) == 0
    ensures i < Words(data) ==> Word32(data, i) != 0
    decreases Words(data) - from
  {
    if from == Words(data) || Word32(data, from) != 0 then from else ZeroRun(data, from + 1)
  }

  /** Index of the first non-zero 32-bit word, or `Words(data)` when there is none. */
  function LeadingZeroWords(data: seq<Byte>): (i: nat)
    ensures i <= Words(data)
    ensures i == Words(data) <==> Silent(data)
    ensures forall k :: 0 <= k < i ==> Word32(data, k) == 0
    ensures i < Words(data) ==> Word32(data, i) != 0
  {
    ZeroRun(data, 0)
  }

  function Min(a: nat, b: nat): (m: nat)
    ensures m <= a && m <= b && (m == a || m == b)
  {
    if a < b then a else b
  }
}
