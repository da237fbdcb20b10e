/** Java's 32-bit `int`, its wrap-around addition, the `(byte)` cast, and the
    `AtomicInteger` cell that holds the stream's write position. */
module JavaInts {

  const MIN_INT: int := -0x8000_0000
  const MAX_INT: int := 0x7fff_ffff
  /** 2^32: Java int arithmetic is exact modulo this number. */
  const MODULUS: int := 0x1_0000_0000

  newtype int32 = x: int | -0x8000_0000 <= x < 0x8000_0000

  /** Java's signed 8-bit `byte`. */
  newtype Byte = x: int | -0x80 <= x < 0x80

  /** The two's-complement reduction of an exact integer into the int range. */
  function Wrap(x: int): (r: int32)
    ensures (x - r as int) % MODULUS == 0
    ensures MIN_INT <= x <= MAX_INT ==> r as int == x
  {
    var k := (x - MIN_INT) % MODULUS;
    assert x - (k + MIN_INT) == MODULUS * ((x - MIN_INT) / MODULUS);
    (k + MIN_INT) as int32
  }

  /** Wrapping an intermediate sum does not change the wrapped total. */
  lemma WrapAbsorbs(x: int, y: int)
    ensures Wrap(Wrap(x) as int + y) == Wrap(x + y)
  {
  }

  /** Java's `a + b` on int. */
  function Add(a: int32, b: int32): (r: int32)
    ensures (a as int + b as int - r as int) % MODULUS == 0
    ensures MIN_INT <= a as int + b as int <= MAX_INT ==> r as int == a as int + b as int
  {
    Wrap(a as int + b as int)
  }

  /** Java's narrowing cast `(byte) b`: keeps the low eight bits, read as signed. */
  function ToByte(b: int32): (r: Byte)
    ensures (b as int - r as int) % 256 == 0
    ensures -0x80 <= b as int < 0x80 ==> r as int == b as int
  {
    var k := (b as int + 0x80) % 256;
    assert b as int - (k - 0x80) == 256 * ((b as int + 0x80) / 256);
    (k - 0x80) as Byte
  }

  /** `java.util.concurrent.atomic.AtomicInteger`, without its concurrency. */
  class AtomicInteger {
    var value: int32

    constructor (initial: int32)
      ensures value == initial
    {
      value := initial;
    }

    method Get() returns (v: int32)
      ensures v == value
    {
      v := value;
    }

    method AddAndGet(delta: int32) returns (v: int32)
      modifies this
      ensures value == Add(old(value), delta) && v == value
    {
      value := Add(value, delta);
      v := value;
    }
  }
}
