/** Types every other module uses, and Go's clock arithmetic. */
module Prelude {

  const MAX_UINT: int := 0xFFFF_FFFF_FFFF_FFFF

  /** Go's 64-bit `uint`, the type of every identifier. */
  type Uint = x: int | 0 <= x <= MAX_UINT

  datatype Option<+T> = None | Some(value: T)

  datatype Result<+T, +E> = Ok(value: T) | Err(error: E)

  /** Nanoseconds since Go's zero time; locations are not modelled. */
  type Time = int

  const ZERO_TIME: Time := 0
  const MINUTE: int := 60_000_000_000
  const MAX_DURATION: int := 0x7FFF_FFFF_FFFF_FFFF
  const MIN_DURATION: int := -0x8000_0000_0000_0000

  /** Go's `Time.Sub` saturates at the ends of the 64-bit duration range. */
  function Sub(a: Time, b: Time): int {
    if a - b > MAX_DURATION then MAX_DURATION else if a - b < MIN_DURATION then MIN_DURATION else a - b
  }

  /** Go's `len` of a string counts the bytes of its UTF-8 encoding. */
  function ByteLength(s: string): nat {
    if s == "" then 0
    else
      var c := s[|s| - 1] as int;
      ByteLength(s[..|s| - 1]) + if c < 0x80 then 1 else if c < 0x800 then 2 else if c < 0x1_0000 then 3 else 4
  }

  lemma {:induction false} AsciiLength(s: string)
    requires forall i | 0 <= i < |s| :: s[i] as int < 0x80
    ensures ByteLength(s) == |s|
  {
    if s != "" {
      AsciiLength(s[..|s| - 1]);
    }
  }

  /** Each character takes one to four bytes, by its code point. */
  lemma {:induction false} ByteLengthConcatenates(s: string, t: string)
    ensures ByteLength(s + t) == ByteLength(s) + ByteLength(t)
  {
    if t == "" {
      assert s + t == s;
    } else {
      assert (s + t)[..|s + t| - 1] == s + t[..|t| - 1];
      ByteLengthConcatenates(s, t[..|t| - 1]);
    }
  }

  lemma BytesOfCharacter(c: char)
    ensures ByteLength([c]) <= 1 <==> c <= '\U{007F}'
    ensures ByteLength([c]) <= 2 <==> c <= '\U{07FF}'
    ensures ByteLength([c]) <= 3 <==> c <= '\U{FFFF}'
    ensures 1 <= ByteLength([c]) <= 4
  {
    assert [c][..0] == "";
  }
}
