/**
 * Raw bytes as the backend's buffers hold them, and the native layout of a
 * C++ `int`, which the row encoder copies verbatim with memcpy.
 */
module Bytes {

  /** One `char` of a buffer. */
  newtype byte = b: int | 0 <= b < 256

  /** A `std::string` or blob payload: a sequence of raw bytes. */
  type Str = seq<byte>

  datatype Option<T> = None | Some(value: T)

  /**
   * The exceptions the backend raises: `IOError` with its message and the
   * `std::length_error` of an impossible `resize`.
   */
  datatype Error = IOError(msg: string) | LengthError

  datatype Result<T> = Ok(value: T) | Err(error: Error)

  const TWO_31: int := 0x8000_0000
  const TWO_32: int := 0x1_0000_0000

  /** The range of a 32-bit C++ `int`. */
  predicate IsInt32(x: int) {
    -TWO_31 <= x < TWO_31
  }

  /**
   * The four bytes memcpy copies out of an `int`: two's complement, least
   * significant byte first (the little-endian machines the code runs on).
   */
  function EncodeInt32(x: int): (r: seq<byte>)
    requires IsInt32(x)
    ensures |r| == 4
  {
    var u0 := if x < 0 then x + TWO_32 else x;
    var u1 := u0 / 256;
    var u2 := u1 / 256;
    var u3 := u2 / 256;
    [(u0 % 256) as byte, (u1 % 256) as byte, (u2 % 256) as byte, u3 as byte]
  }

  /** The `int` that `*reinterpret_cast<int*>` reads back from four bytes. */
  function DecodeInt32(b: seq<byte>): (x: int)
    requires |b| == 4
    ensures IsInt32(x)
  {
    var u := b[0] as int + 256 * (b[1] as int + 256 * (b[2] as int + 256 * b[3] as int));
    if u < TWO_31 then u else u - TWO_32
  }

  /** Reading back what was written gives the same integer. */
  lemma Int32RoundTrip(x: int)
    requires IsInt32(x)
    ensures DecodeInt32(EncodeInt32(x)) == x
  {
    var u0 := if x < 0 then x + TWO_32 else x;
    var u1 := u0 / 256;
    var u2 := u1 / 256;
    var u3 := u2 / 256;
    DigitSplit(u0 % 256, u1);
    DigitSplit(u1 % 256, u2);
    DigitSplit(u2 % 256, u3);
    assert u0 == u0 % 256 + 256 * (u1 % 256 + 256 * (u2 % 256 + 256 * u3));
  }

  /** Every four-byte pattern is the encoding of exactly the integer it decodes to. */
  lemma Int32BytesRoundTrip(b: seq<byte>)
    requires |b| == 4
    ensures EncodeInt32(DecodeInt32(b)) == b
  {
    var b0, b1, b2, b3 := b[0] as int, b[1] as int, b[2] as int, b[3] as int;
    var q2 := b2 + 256 * b3;
    var q1 := b1 + 256 * q2;
    var u := b0 + 256 * q1;
    DigitSplit(b0, q1);
    DigitSplit(b1, q2);
    DigitSplit(b2, b3);
  }

  /** Splitting off the low byte of a non-negative number. */
  lemma DigitSplit(low: int, high: int)
    requires 0 <= low < 256 && 0 <= high
    ensures (low + 256 * high) / 256 == high && (low + 256 * high) % 256 == low
  {
  }

  /** `n` NUL bytes, as memset writes them. */
  function Zeros(n: nat): (r: seq<byte>)
    ensures |r| == n && forall i :: 0 <= i < n ==> r[i] == 0
  {
    seq(n, _ => 0)
  }

  /** A non-empty sequence is its prefix followed by its last element. */
  lemma LastSplit<T>(s: seq<T>)
    requires s != []
    ensures s == s[..|s| - 1] + [s[|s| - 1]]
  {
  }
}
