/** Machine words as the C sources use them: 8-, 16- and 32-bit unsigned values modelled on
    unbounded integers, with wrap-around written out, and the serial-number comparisons that
    TCP builds from a signed 32-bit difference. */
module Words {

  type byte = b: int | 0 <= b < 0x100

  function U16(x: int): int {
    x % 0x1_0000
  }

  function U32(x: int): int {
    x % 0x1_0000_0000
  }

  /** The cast of a 32-bit difference to a signed 32-bit value. The first branch is the value
      the second one computes for a difference that is already in range. */
  function S32(d: int): int {
    if -0x8000_0000 <= d < 0x8000_0000 then d
    else (d + 0x8000_0000) % 0x1_0000_0000 - 0x8000_0000
  }

  predicate SeqLt(a: int, b: int) {
    S32(a - b) < 0
  }

  predicate SeqLeq(a: int, b: int) {
    S32(a - b) <= 0
  }

  predicate SeqGt(a: int, b: int) {
    S32(a - b) > 0
  }

  predicate SeqGeq(a: int, b: int) {
    S32(a - b) >= 0
  }

  predicate SeqEq(a: int, b: int) {
    S32(a - b) == 0
  }

  predicate SeqBetween(a: int, b: int, c: int) {
    SeqGeq(a, b) && SeqLeq(a, c)
  }

  /** The comparisons see only the 32-bit residues of their arguments: a model that keeps
      sequence numbers unwrapped takes the same branches as one that stores them in 32 bits. */
  lemma {:induction false} SerialComparisonSeesResidues(a: int, b: int)
    ensures S32(a - b) == S32(U32(a) - U32(b))
    ensures SeqEq(a, b) <==> U32(a) == U32(b)
  {
    var k := a / 0x1_0000_0000 - b / 0x1_0000_0000;
    assert a - b == U32(a) - U32(b) + k * 0x1_0000_0000;
    S32Shift(U32(a) - U32(b), k);
  }

  lemma {:induction false} S32Shift(d: int, k: int)
    ensures S32(d + k * 0x1_0000_0000) == S32(d)
  {
    var e := d + 0x8000_0000;
    assert (e + k * 0x1_0000_0000) % 0x1_0000_0000 == e % 0x1_0000_0000 by {
      ModShift(e, k);
    }
    S32AsResidue(d);
    S32AsResidue(d + k * 0x1_0000_0000);
  }

  lemma {:induction false} S32AsResidue(d: int)
    ensures S32(d) == (d + 0x8000_0000) % 0x1_0000_0000 - 0x8000_0000
  {
  }

  lemma {:induction false} ModShift(e: int, k: int)
    ensures (e + k * 0x1_0000_0000) % 0x1_0000_0000 == e % 0x1_0000_0000
  {
    var m := 0x1_0000_0000;
    var q, r := e / m, e % m;
    assert e + k * m == (q + k) * m + r;
  }

  lemma {:induction false} SmallWord(x: int)
    requires 0 <= x < 0x1_0000
    ensures U16(U32(x)) == U32(x) == x
  {
  }
}
