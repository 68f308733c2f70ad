/** Machine integer widths, 2-D vectors and the optional result shared by
    every other module of the model. */
module Common {

  const U8_LIMIT: int := 0x100
  const U32_LIMIT: int := 0x1_0000_0000
  const I32_MIN: int := -0x8000_0000
  const I32_MAX: int := 0x7FFF_FFFF

  type u8 = x: int | 0 <= x < 0x100
  type u32 = x: int | 0 <= x < 0x1_0000_0000
  type i32 = x: int | -0x8000_0000 <= x < 0x8000_0000

  datatype Option<T> = None | Some(value: T)

  /** vec2f, with f32 modelled as a mathematical real (no rounding). */
  datatype Vec = Vec(x: real, y: real)

  function Scale(v: Vec, s: real): (r: Vec)
    ensures r.x == v.x * s && r.y == v.y * s
  {
    Vec(v.x * s, v.y * s)
  }

  function Add(v: Vec, w: Vec): Vec { Vec(v.x + w.x, v.y + w.y) }

  function Sub(v: Vec, w: Vec): Vec { Vec(v.x - w.x, v.y - w.y) }

  function Length2(v: Vec): real { v.x * v.x + v.y * v.y }

  /** signf: +1 for every non-negative value (a real 0 stands for +0.0). */
  function Sign(x: real): (r: real)
    ensures r == 1.0 || r == -1.0
    ensures (r == 1.0) <==> x >= 0.0
  {
    if x >= 0.0 then 1.0 else -1.0
  }

  /** absf, as the mathematical absolute value. */
  function Abs(x: real): (r: real)
    ensures r >= 0.0 && (r == x || r == -x)
  {
    if x >= 0.0 then x else -x
  }

  /** The C conversion (i32)x of a float: truncation toward zero. */
  function Trunc(x: real): (r: int)
    ensures x >= 0.0 ==> r as real <= x < r as real + 1.0
    ensures x < 0.0 ==> r as real - 1.0 < x <= r as real
  {
    if x >= 0.0 then x.Floor else -((-x).Floor)
  }

  /** Reinterprets a 32-bit pattern as a two's-complement i32. */
  function ToI32(w: u32): (r: i32)
    ensures r as int % U32_LIMIT == w
  {
    if w < 0x8000_0000 then w else w - U32_LIMIT
  }

  /** Little-endian u32 read of four bytes at offset `off`. */
  function LeU32(b: seq<u8>, off: nat): (r: u32)
    requires off + 4 <= |b|
    ensures r % 0x100 == b[off]
  {
    b[off] as int + 0x100 * b[off + 1] as int + 0x1_0000 * b[off + 2] as int
      + 0x100_0000 * b[off + 3] as int
  }

  /** Little-endian encoding of a u32 as four bytes. */
  function LeBytes(w: u32): (r: seq<u8>)
    ensures |r| == 4
  {
    [w % 0x100, (w / 0x100) % 0x100, (w / 0x1_0000) % 0x100, w / 0x100_0000]
  }

  lemma LeRoundTrip(w: u32)
    ensures LeU32(LeBytes(w), 0) == w
  {
  }

  /** Multiplying both sides of a <= b by a non-negative c. */
  lemma MulLe(a: int, b: int, c: int)
    requires 0 <= a <= b && 0 <= c
    ensures a * c <= b * c
  {
  }

  /** The base-256 digit split of `lo + 256 * hi` is `lo` and `hi`. */
  lemma DivMod256(lo: int, hi: int)
    requires 0 <= lo < 0x100 && 0 <= hi
    ensures (lo + 0x100 * hi) % 0x100 == lo && (lo + 0x100 * hi) / 0x100 == hi
  {
  }

  lemma LeBytesOfRead(b: seq<u8>, off: nat)
    requires off + 4 <= |b|
    ensures LeBytes(LeU32(b, off)) == b[off..off + 4]
  {
    var b0, b1, b2, b3 := b[off] as int, b[off + 1] as int, b[off + 2] as int, b[off + 3] as int;
    var w := LeU32(b, off);
    assert w == b0 + 0x100 * (b1 + 0x100 * (b2 + 0x100 * b3));
    DivMod256(b0, b1 + 0x100 * (b2 + 0x100 * b3));
    DivMod256(b1, b2 + 0x100 * b3);
    DivMod256(b2, b3);
    assert w / 0x1_0000 == (w / 0x100) / 0x100;
    assert w / 0x100_0000 == ((w / 0x100) / 0x100) / 0x100;
  }
}
