/** The machine integers the tracer computes with. */
module Words {
  const TWO32 := 0x1_0000_0000
  const TWO63 := 0x8000_0000_0000_0000
  const TWO64 := 0x1_0000_0000_0000_0000

  /** unsigned long long */
  type U64 = x: int | 0 <= x < TWO64

  /** ssize_t and long */
  type S64 = x: int | -TWO63 <= x < TWO63

  /** Conversion to an unsigned 64-bit number. */
  function Wrap(x: int): U64 {
    x % TWO64
  }

  /** Unsigned addition wraps around. */
  function Add64(a: int, b: int): U64 {
    Wrap(a + b)
  }

  /** The low 32 bits read as a signed int: what a conversion to int keeps,
      and the only part of a key that g_int_hash and g_int_equal look at. */
  function Low32(x: int): int {
    var u := x % TWO32;
    if u < 0x8000_0000 then u else u - TWO32
  }

  predicate FitsInt(x: int) {
    -0x8000_0000 <= x < 0x8000_0000
  }

  /** Whether the bit of the given weight is set in the two's complement
      representation of x; / rounds towards minus infinity here. */
  predicate HasBit(x: int, weight: int)
    requires weight > 0
  {
    (x / weight) % 2 == 1
  }

  lemma WrapShift(x: int, q: int)
    ensures Wrap(x + q * TWO64) == Wrap(x)
  {}

  lemma WrapSmall(x: int)
    requires 0 <= x < TWO64
    ensures Wrap(x) == x
  {}

  /** Wrapping early makes no difference. */
  lemma WrapAdd(x: int, y: int)
    ensures Wrap(Wrap(x) + y) == Wrap(x + y)
  {
    var q := x / TWO64;
    assert Wrap(x) + y + q * TWO64 == x + y;
    WrapShift(Wrap(x) + y, q);
  }

  lemma Add64Associates(a: int, b: int, c: int)
    ensures Add64(a, Add64(b, c)) == Add64(Add64(a, b), c)
  {
    WrapAdd(a + b, c);
    WrapAdd(b + c, a);
  }

  /** Two small amounts can be told apart after wrapping. */
  lemma WrapCancel(x: int, p: nat, q: nat)
    requires p < TWO63 && q < TWO63
    ensures Wrap(x + p) == Wrap(x + q) <==> p == q
  {
    if Wrap(x + p) == Wrap(x + q) {
      var k := (x + p) / TWO64 - (x + q) / TWO64;
      assert p - q == k * TWO64;
    }
  }

  /** The int that is kept is the only one that differs by a multiple of 2^32. */
  lemma Low32IsCongruent(x: int, y: int)
    ensures Low32(x) == y <==> -0x8000_0000 <= y < 0x8000_0000 && (x - y) % 0x1_0000_0000 == 0
  {}

  lemma Low32Idempotent(x: int)
    ensures FitsInt(Low32(x)) && Low32(Low32(x)) == Low32(x)
    ensures FitsInt(x) ==> Low32(x) == x
  {}
}
