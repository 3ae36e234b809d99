/** The Internet checksum: three flat algorithms, sums over pbuf chains with and without a pseudo
    header, and the incremental and on-the-fly updates in ip.c and icmp.c. 16-bit words are read
    from memory in little-endian order. */
module Checksum {
  import opened Words
  import opened PbufCopy

  const M: nat := 0xFFFF

  /** A byte in the high half of a word. */
  function High(x: byte): nat {
    0x100 * (x as nat)
  }

  /** Two bytes as a word. */
  function Word(low: byte, high: byte): nat {
    low as nat + High(high)
  }

  /** The sum of the little-endian 16-bit words of b; an odd last byte counts as a low byte. */
  function WordSum(b: seq<byte>): nat {
    if b == [] then 0
    else if |b| == 1 then b[0]
    else Word(b[0], b[1]) + WordSum(b[2..])
  }

  /** The one's complement sum that n stands for: n modulo 65535, but never 0 for a positive n. */
  function Fold(n: nat): (r: nat)
    ensures r <= M && (r == 0 <==> n == 0) && r % M == n % M
  {
    if n == 0 then 0 else 1 + (n - 1) % M
  }

  /** The checksum of b by definition. */
  function Sum(b: seq<byte>): nat {
    Fold(WordSum(b))
  }

  /** The complement that is stored in a header. */
  function Complement(n: nat): (r: nat)
    requires n <= M
    ensures r <= M
  {
    M - n
  }

  /** FOLD_U32T */
  function FoldOnce(n: nat): nat {
    n / 0x1_0000 + n % 0x1_0000
  }

  /** SWAP_BYTES_IN_WORD */
  function Swap(w: nat): nat {
    w % 0x100 * 0x100 + w / 0x100 % 0x100
  }

  /** Two sums that fold to the same value. */
  predicate Same(a: nat, b: nat) {
    a % M == b % M && (a == 0 <==> b == 0)
  }

  lemma {:induction false} FoldIs(a: nat, n: nat)
    requires Same(a, n) && a <= M
    ensures a == Fold(n)
  {
  }

  lemma {:induction false} Quotient(a: nat, b: nat, k: int)
    requires a == b + k * M
    ensures a % M == b % M
    decreases if k < 0 then -k else k
  {
    if k > 0 {
      Quotient(a, b + M, k - 1);
      assert (b + M) % M == b % M;
    } else if k < 0 {
      Quotient(a, b - M, k + 1);
      assert (b - M) % M == b % M;
    }
  }

  lemma {:induction false} Witness(a: nat, b: nat) returns (k: int)
    requires a % M == b % M
    ensures a == b + k * M
  {
    k := a / M - b / M;
  }

  lemma {:induction false} SameAdd(a: nat, b: nat, c: nat)
    requires Same(a, b)
    ensures Same(a + c, b + c)
  {
    var k := Witness(a, b);
    Quotient(a + c, b + c, k);
  }

  lemma {:induction false} SameScaled(a: nat, b: nat)
    requires Same(a, b)
    ensures Same(0x100 * a, 0x100 * b)
  {
    var k := Witness(a, b);
    Quotient(0x100 * a, 0x100 * b, 0x100 * k);
  }

  /** 65536 is 1. */
  lemma {:induction false} SameUnit(n: nat)
    ensures Same(0x1_0000 * n, n)
  {
    Quotient(0x1_0000 * n, n, n);
  }

  lemma {:induction false} FoldOnceSame(n: nat)
    ensures Same(FoldOnce(n), n)
    ensures n <= 0x1_FFFE ==> FoldOnce(n) <= M
    ensures n <= 0xFFFF_FFFF ==> FoldOnce(n) <= 0x1_FFFE
  {
    Quotient(n, FoldOnce(n), n / 0x1_0000);
  }

  /** Swapping the bytes of a word multiplies it by 256. */
  lemma {:induction false} SwapSame(w: nat)
    requires w <= M
    ensures Swap(w) <= M && Same(Swap(w), 0x100 * w)
  {
    var h, l := w / 0x100, w % 0x100;
    assert Swap(w) == l * 0x100 + h;
    assert 0x100 * w == Swap(w) + h * M;
    Quotient(0x100 * w, Swap(w), h);
  }

  // -------------------------------------------------------------------- words

  lemma {:induction false} WordSumZero(b: seq<byte>)
    ensures WordSum(b) == 0 <==> forall i | 0 <= i < |b| :: b[i] == 0
  {
    if |b| > 1 {
      WordSumZero(b[2..]);
      if WordSum(b) == 0 {
        forall i | 0 <= i < |b| ensures b[i] == 0 {
          if i > 1 {
            assert b[2..][i - 2] == 0;
          }
        }
      }
      if forall i | 0 <= i < |b| :: b[i] == 0 {
        forall i | 0 <= i < |b[2..]| ensures b[2..][i] == 0 {
          assert b[i + 2] == 0;
        }
      }
    }
  }

  /** Reading the words one byte later multiplies the sum by 256. */
  lemma {:induction false} Shifted(b: seq<byte>)
    requires b != []
    ensures Same(WordSum(b), b[0] as nat + 0x100 * WordSum(b[1..]))
  {
    if |b| > 1 {
      var t := b[1..];
      Shifted(t);
      assert t[1..] == b[2..] && t[0] == b[1];
      // WordSum(t) ~ b[1] + 256 * WordSum(b[2..])
      SameScaled(WordSum(t), b[1] as nat + 0x100 * WordSum(b[2..]));
      SameUnit(WordSum(b[2..]));
      SameAdd(0x1_0000 * WordSum(b[2..]), WordSum(b[2..]), High(b[1]));
      SameAdd(0x100 * WordSum(t), High(b[1]) + WordSum(b[2..]), b[0]);
    }
  }

  lemma {:induction false} WordSumEven(a: seq<byte>, b: seq<byte>)
    requires |a| % 2 == 0
    ensures WordSum(a + b) == WordSum(a) + WordSum(b)
    decreases |a|
  {
    if a == [] {
      assert a + b == b;
    } else {
      assert (a + b)[2..] == a[2..] + b;
      WordSumEven(a[2..], b);
    }
  }

  lemma {:induction false} WordSumConcat(a: seq<byte>, b: seq<byte>)
    ensures |a| % 2 == 0 ==> WordSum(a + b) == WordSum(a) + WordSum(b)
    ensures |a| % 2 == 1 ==> Same(WordSum(a + b), WordSum(a) + 0x100 * WordSum(b))
  {
    if |a| % 2 == 0 {
      WordSumEven(a, b);
    } else {
      var n := |a| - 1;
      var e, x := a[..n], [a[n]];
      assert a == e + x && a + b == e + (x + b) && (x + b)[1..] == b;
      WordSumEven(e, x);
      WordSumEven(e, x + b);
      Shifted(x + b);
      SameAdd(WordSum(x + b), a[n] as nat + 0x100 * WordSum(b), WordSum(e));
    }
  }

  lemma {:induction false} WordSumBound(b: seq<byte>)
    ensures WordSum(b) <= (|b| + 1) / 2 * M
  {
    if |b| > 1 {
      WordSumBound(b[2..]);
    }
  }

  /** The same words read with the most significant byte first. */
  function BigSum(b: seq<byte>): nat {
    if b == [] then 0
    else if |b| == 1 then High(b[0])
    else Word(b[1], b[0]) + BigSum(b[2..])
  }

  lemma {:induction false} BigSumSame(b: seq<byte>)
    ensures Same(BigSum(b), 0x100 * WordSum(b)) && BigSum(b) <= (|b| + 1) / 2 * M
  {
    if |b| > 1 {
      BigSumSame(b[2..]);
      SameUnit(b[1]);
      SameAdd(BigSum(b[2..]), 0x100 * WordSum(b[2..]), Word(b[1], b[0]));
      SameAdd(b[1], 0x1_0000 * (b[1] as nat), High(b[0]) + 0x100 * WordSum(b[2..]));
    }
  }

  // --------------------------------------------------------------- algorithms

  lemma {:induction false} SplitWord(b: seq<byte>, i: nat)
    requires i + 1 < |b|
    ensures b[i..] == [b[i], b[i + 1]] + b[i + 2..]
    ensures WordSum(b[i..]) == Word(b[i], b[i + 1]) + WordSum(b[i + 2..])
    ensures BigSum(b[i..]) == Word(b[i + 1], b[i]) + BigSum(b[i + 2..])
  {
    assert b[i..][2..] == b[i + 2..];
  }

  /** lwip_standard_chksum, version 1. */
  method Version1(b: seq<byte>) returns (r: nat)
    requires |b| <= 0xFFFF
    ensures r == Sum(b)
  {
    var acc: nat, i: nat := 0, 0;
    assert b[0..] == b;
    while |b| - i > 1
      invariant i <= |b| && acc + BigSum(b[i..]) == BigSum(b)
      decreases |b| - i
    {
      SplitWord(b, i);
      var src: nat := High(b[i]);
      src := src + b[i + 1];
      acc := acc + src;
      i := i + 2;
    }
    if |b| - i > 0 {
      acc := acc + High(b[i]);
    }
    r := FoldBig(b, acc);
  }

  /** The end of version 1: fold, and turn the byte order around. */
  method FoldBig(b: seq<byte>, sum: nat) returns (r: nat)
    requires sum == BigSum(b) && |b| <= 0xFFFF
    ensures r == Sum(b)
  {
    BigBound(b);
    var acc := FoldOnce(sum);
    FoldOnceSame(sum);
    if acc / 0x1_0000 != 0 {
      FoldOnceSame(acc);
      acc := FoldOnce(acc);
    }
    r := Swap(acc);
    Swapped(b, acc);
  }

  lemma {:induction false} BigBound(b: seq<byte>)
    requires |b| <= 0xFFFF
    ensures BigSum(b) <= 0xFFFF_FFFF
  {
    BigSumSame(b);
  }

  lemma {:induction false} Swapped(b: seq<byte>, acc: nat)
    requires acc <= M && Same(acc, BigSum(b))
    ensures Swap(acc) == Sum(b)
  {
    BigSumSame(b);
    SwapSame(acc);
    SameScaled(acc, 0x100 * WordSum(b));
    SameUnit(WordSum(b));
    FoldIs(Swap(acc), WordSum(b));
  }

  /** What a sum started at an odd address stands for: its first byte is a high byte. */
  lemma {:induction false} OddStart(b: seq<byte>, sum: nat, r: nat)
    requires b != [] && Same(sum, High(b[0]) + WordSum(b[1..])) && Same(r, 0x100 * sum)
    ensures Same(r, WordSum(b))
  {
    SameScaled(sum, High(b[0]) + WordSum(b[1..]));
    SameUnit(b[0]);
    SameAdd(0x1_0000 * (b[0] as nat), b[0], 0x100 * WordSum(b[1..]));
    Shifted(b);
  }

  /** The end of versions 2 and 3: fold twice, and swap if the buffer started at an odd address. */
  method Finish(b: seq<byte>, odd: bool, acc: nat) returns (r: nat)
    requires acc <= 0xFFFF_FFFF
    requires Same(acc, if odd && b != [] then High(b[0]) + WordSum(b[1..]) else WordSum(b))
    ensures r == Sum(b)
  {
    var sum := FoldOnce(acc);
    sum := FoldOnce(sum);
    FoldOnceSame(acc);
    FoldOnceSame(FoldOnce(acc));
    ghost var folded := sum;
    if odd {
      SwapSame(sum);
      sum := Swap(sum);
      if b != [] {
        OddStart(b, folded, sum);
      }
    }
    r := sum;
    FoldIs(r, WordSum(b));
  }

  /** lwip_standard_chksum, version 2: no step leaves 32 bits for any length it is meant for. */
  method Version2(b: seq<byte>, odd: bool) returns (r: nat)
    requires |b| <= 0x2_0000
    ensures r == Sum(b)
  {
    var t: nat, sum: nat, i: nat := 0, 0, 0;
    if odd && |b| > 0 {
      t, i := High(b[0]), 1;
    }
    ghost var start, high := i, t;
    WordSumBound(b[start..]);
    while |b| - i > 1
      invariant start <= i <= |b| && sum + WordSum(b[i..]) == WordSum(b[start..]) && sum <= 0xFFFF_FFFF
      decreases |b| - i
    {
      SplitWord(b, i);
      sum := sum + Word(b[i], b[i + 1]);
      i := i + 2;
    }
    if |b| - i > 0 {
      t := t + b[i];
    }
    sum := sum + t;
    assert b[0..] == b;
    assert sum == high + WordSum(b[start..]);
    TotalBound(b, start, high);
    r := Finish(b, odd, sum);
  }

  lemma {:induction false} TotalBound(b: seq<byte>, start: nat, high: nat)
    requires |b| <= 0x2_0000 && start <= |b| && (start == 0 ==> high == 0)
    requires start == 0 || (start == 1 && high <= 0xFF00)
    ensures high + WordSum(b[start..]) <= 0xFFFF_FFFF
  {
    WordSumBound(b[start..]);
  }

  /** A 32-bit addition with the carry added back. */
  function AddCarry(a: nat, w: nat): (r: nat)
    requires a <= 0xFFFF_FFFF && w <= 0xFFFF_FFFF
    ensures r <= 0xFFFF_FFFF
  {
    var tmp := U32(a + w);
    if tmp < a then tmp + 1 else tmp
  }

  lemma {:induction false} AddCarrySame(a: nat, w: nat)
    requires a <= 0xFFFF_FFFF && w <= 0xFFFF_FFFF
    ensures Same(AddCarry(a, w), a + w)
  {
    if a + w > 0xFFFF_FFFF {
      assert U32(a + w) == a + w - 0x1_0000_0000;
      Quotient(a + w, a + w - 0xFFFF_FFFF, 0x1_0001);
    }
  }

  function Long(b: seq<byte>, i: nat): (r: nat)
    requires i + 3 < |b|
    ensures r <= 0xFFFF_FFFF
  {
    Word(b[i], b[i + 1]) + 0x1_0000 * Word(b[i + 2], b[i + 3])
  }

  lemma {:induction false} LongSame(b: seq<byte>, i: nat)
    requires i + 3 < |b|
    ensures Same(Long(b, i) + WordSum(b[i + 4..]), WordSum(b[i..]))
  {
    SplitWord(b, i);
    SplitWord(b, i + 2);
    var w := Word(b[i + 2], b[i + 3]);
    SameUnit(w);
    SameAdd(0x1_0000 * w, w, Word(b[i], b[i + 1]) + WordSum(b[i + 4..]));
  }

  /** One of the two additions in the unrolled loop. */
  lemma {:induction false} PingPong(b: seq<byte>, i: nat, sum: nat, total: nat)
    requires i + 3 < |b| && sum <= 0xFFFF_FFFF && Same(sum + WordSum(b[i..]), total)
    ensures Same(AddCarry(sum, Long(b, i)) + WordSum(b[i + 4..]), total)
  {
    AddCarrySame(sum, Long(b, i));
    LongSame(b, i);
    SameAdd(AddCarry(sum, Long(b, i)), sum + Long(b, i), WordSum(b[i + 4..]));
    SameAdd(Long(b, i) + WordSum(b[i + 4..]), WordSum(b[i..]), sum);
  }

  /** The unrolled loop of version 3 and the fold behind it. */
  method EightAtATime(b: seq<byte>, start: nat, first: nat, ghost total: nat) returns (i: nat, sum: nat)
    requires start <= |b| && first <= M && Same(first + WordSum(b[start..]), total)
    ensures start <= i <= |b| && |b| - i <= 7 && sum <= 0x1_FFFE
    ensures Same(sum + WordSum(b[i..]), total)
  {
    i, sum := start, first;
    while |b| - i > 7
      invariant start <= i <= |b| && sum <= 0xFFFF_FFFF && Same(sum + WordSum(b[i..]), total)
      decreases |b| - i
    {
      PingPong(b, i, sum, total);
      var tmp := AddCarry(sum, Long(b, i));
      PingPong(b, i + 4, tmp, total);
      sum := AddCarry(tmp, Long(b, i + 4));
      i := i + 8;
    }
    FoldOnceSame(sum);
    SameAdd(FoldOnce(sum), sum, WordSum(b[i..]));
    sum := FoldOnce(sum);
  }

  /** lwip_standard_chksum, version 3, for a buffer at the given address modulo 4. */
  method Version3(b: seq<byte>, address: nat) returns (r: nat)
    requires address < 4
    ensures r == Sum(b)
  {
    var odd := address % 2 == 1;
    var t: nat, sum: nat, i: nat := 0, 0, 0;
    if odd && |b| > 0 {
      t, i := High(b[0]), 1;
    }
    ghost var high, total := t, WordSum(b[i..]);
    if (address + i) % 4 != 0 && |b| - i > 1 {
      SplitWord(b, i);
      sum := Word(b[i], b[i + 1]);
      i := i + 2;
    }
    i, sum := EightAtATime(b, i, sum, total);
    sum := LastWords(b, i, sum, t, total);
    assert b[0..] == b;
    r := Finish(b, odd, sum);
  }

  /** The end of the buffer, word by word, and the end bytes. */
  method LastWords(b: seq<byte>, start: nat, first: nat, high: nat, ghost total: nat) returns (sum: nat)
    requires start <= |b| && |b| - start <= 7 && first <= 0x1_FFFE && high <= 0xFF00
    requires Same(first + WordSum(b[start..]), total)
    ensures sum <= 0xFFFF_FFFF && Same(sum, high + total)
  {
    sum := first;
    var i: nat, t: nat := start, high;
    WordSumBound(b[start..]);
    while |b| - i > 1
      invariant start <= i <= |b| && sum + WordSum(b[i..]) == first + WordSum(b[start..])
      decreases |b| - i
    {
      SplitWord(b, i);
      sum := sum + Word(b[i], b[i + 1]);
      i := i + 2;
    }
    if |b| - i > 0 {
      t := t + b[i];
    }
    sum := sum + t;
    assert sum == high + (first + WordSum(b[start..]));
    SameAdd(first + WordSum(b[start..]), total, high);
  }

  // ------------------------------------------------------------------- chains

  /** The accumulator after the bytes `done`: their sum, byte-swapped while their number is odd. */
  predicate Running(acc: nat, swapped: bool, done: seq<byte>) {
    && acc <= M && (swapped <==> |done| % 2 == 1)
    && Same(acc, if swapped then 0x100 * WordSum(done) else WordSum(done))
  }

  /** One more link, whatever the parity of what came before and of its own length. */
  lemma {:induction false} RunningStep(acc: nat, swapped: bool, done: seq<byte>, link: seq<byte>)
    requires Running(acc, swapped, done)
    ensures var r := FoldOnce(acc + Sum(link));
      && r <= M && Same(r, if swapped then 0x100 * WordSum(done + link) else WordSum(done + link))
      && (|link| % 2 == 0 ==> Running(r, swapped, done + link))
      && (|link| % 2 == 1 ==> Running(Swap(r), !swapped, done + link))
  {
    var r := FoldOnce(acc + Sum(link));
    LinkAdded(acc, swapped, done, link);
    FoldOnceSame(acc + Sum(link));
    Turn(r, swapped, WordSum(done + link));
    Parity(|done|, |link|);
    assert |done + link| == |done| + |link|;
  }

  lemma {:induction false} Parity(m: nat, n: nat)
    ensures n % 2 == 0 ==> ((m + n) % 2 == 1 <==> m % 2 == 1)
    ensures n % 2 == 1 ==> ((m + n) % 2 == 1 <==> m % 2 == 0)
  {
  }

  /** Swapping the accumulator changes the side it is on. */
  lemma {:induction false} Turn(r: nat, swapped: bool, w: nat)
    requires r <= M && Same(r, if swapped then 0x100 * w else w)
    ensures Swap(r) <= M && Same(Swap(r), if swapped then w else 0x100 * w)
  {
    SwapSame(r);
    SameScaled(r, if swapped then 0x100 * w else w);
    SameUnit(w);
  }

  lemma {:induction false} LinkAdded(acc: nat, swapped: bool, done: seq<byte>, link: seq<byte>)
    requires Running(acc, swapped, done)
    ensures Same(acc + Sum(link), if swapped then 0x100 * WordSum(done + link) else WordSum(done + link))
  {
    var d, l := WordSum(done), WordSum(link);
    WordSumConcat(done, link);
    SameAdd(Sum(link), l, acc);
    if swapped {
      SameAdd(acc, 0x100 * d, l);
      SameUnit(l);
      SameAdd(0x1_0000 * l, l, 0x100 * d);
      SameScaled(WordSum(done + link), d + 0x100 * l);
    } else {
      SameAdd(acc, d, l);
    }
  }

  /** The last swap. */
  lemma {:induction false} RunningEnd(acc: nat, swapped: bool, done: seq<byte>)
    requires Running(acc, swapped, done)
    ensures (if swapped then Swap(acc) else acc) == Sum(done)
  {
    Turn(acc, swapped, WordSum(done));
    FoldIs(if swapped then Swap(acc) else acc, WordSum(done));
  }

  lemma {:induction false} SwapTwice(w: nat)
    requires w <= M
    ensures Swap(w) <= M && Swap(Swap(w)) == w
  {
    var h, l := w / 0x100, w % 0x100;
    assert Swap(w) == l * 0x100 + h;
  }

  /** The parity that decides about the last swap does not matter. */
  lemma {:induction false} LastStep(r: nat, swapped: bool, w: nat)
    requires r <= M && Same(r, if swapped then 0x100 * w else w)
    ensures (if swapped then Swap(r) else r) == Fold(w)
    ensures (if !swapped then Swap(Swap(r)) else Swap(r)) == Fold(w)
  {
    Turn(r, swapped, w);
    SwapTwice(r);
    FoldIs(if swapped then Swap(r) else r, w);
  }

  /** The loop over the links that inet_chksum_pbuf and inet_chksum_pseudo share: however the
      bytes are cut into links, the sum is that of the flat bytes. */
  method SumChain(p: Chain) returns (acc: nat)
    ensures acc == Sum(Flat(p))
  {
    acc := 0;
    var swapped, i := false, 0;
    while i < |p|
      invariant i <= |p| && Running(acc, swapped, Flat(p[..i]))
    {
      FlatSplit(p, i);
      RunningStep(acc, swapped, Flat(p[..i]), p[i]);
      acc := acc + Sum(p[i]);
      acc := FoldOnce(acc);
      if |p[i]| % 2 != 0 {
        swapped := !swapped;
        acc := Swap(acc);
      }
      i := i + 1;
    }
    assert p[..|p|] == p;
    RunningEnd(acc, swapped, Flat(p));
    if swapped {
      acc := Swap(acc);
    }
  }

  /** inet_chksum */
  function Flattened(b: seq<byte>): (r: nat)
    ensures r <= M
  {
    Complement(Sum(b))
  }

  /** inet_chksum_pbuf */
  method ChecksumPbuf(p: Chain) returns (r: nat)
    ensures r == Flattened(Flat(p))
  {
    var acc := SumChain(p);
    r := Complement(acc);
  }

  /** The pseudo header of UDP and TCP: addresses, a zero, the protocol and the length. */
  function PseudoHeader(src: seq<byte>, dst: seq<byte>, proto: byte, length: nat): (r: seq<byte>)
    requires |src| == 4 && |dst| == 4 && length <= 0xFFFF
    ensures |r| == 12
  {
    src + dst + [0, proto, length / 0x100, length % 0x100]
  }

  lemma {:induction false} FourBytes(b: seq<byte>, rest: seq<byte>)
    requires |b| == 4
    ensures WordSum(b + rest) == Word(b[0], b[1]) + Word(b[2], b[3]) + WordSum(rest)
  {
    assert (b + rest)[2..] == b[2..] + rest && (b[2..] + rest)[2..] == rest;
    assert WordSum(b[2..] + rest) == Word(b[2], b[3]) + WordSum(rest);
  }

  lemma {:induction false} PseudoSum(src: seq<byte>, dst: seq<byte>, proto: byte, length: nat, b: seq<byte>)
    requires |src| == 4 && |dst| == 4 && length <= 0xFFFF
    ensures WordSum(PseudoHeader(src, dst, proto, length) + b) ==
      Word(src[0], src[1]) + Word(src[2], src[3]) + Word(dst[0], dst[1]) + Word(dst[2], dst[3])
      + Word(0, proto) + Word(length / 0x100, length % 0x100) + WordSum(b)
  {
    var last := [0, proto, length / 0x100, length % 0x100];
    assert PseudoHeader(src, dst, proto, length) + b == src + (dst + (last + b));
    FourBytes(src, dst + (last + b));
    FourBytes(dst, last + b);
    FourBytes(last, b);
  }

  /** The pseudo header words added to the sum of the data, and the complement taken. */
  method AddPseudo(sum: nat, src: seq<byte>, dst: seq<byte>, proto: byte, length: nat, ghost b: seq<byte>)
    returns (r: nat)
    requires |src| == 4 && |dst| == 4 && length <= 0xFFFF && sum == Sum(b)
    ensures r == Flattened(PseudoHeader(src, dst, proto, length) + b)
  {
    var acc := sum;
    acc := acc + Word(src[0], src[1]);
    acc := acc + Word(src[2], src[3]);
    acc := acc + Word(dst[0], dst[1]);
    acc := acc + Word(dst[2], dst[3]);
    acc := acc + Swap(proto);
    acc := acc + Swap(length);
    PseudoSame(src, dst, proto, length, b, sum, acc);
    acc := FoldTwice(acc);
    FoldIs(acc, WordSum(PseudoHeader(src, dst, proto, length) + b));
    r := Complement(acc);
  }

  /** The words of the pseudo header. */
  function PseudoWords(src: seq<byte>, dst: seq<byte>, proto: byte, length: nat): (r: nat)
    requires |src| == 4 && |dst| == 4 && length <= 0xFFFF
    ensures r <= 6 * M
  {
    Word(src[0], src[1]) + Word(src[2], src[3]) + Word(dst[0], dst[1]) + Word(dst[2], dst[3]) + Swap(proto) + Swap(length)
  }

  lemma {:induction false} PseudoWordsSum(src: seq<byte>, dst: seq<byte>, proto: byte, length: nat, b: seq<byte>)
    requires |src| == 4 && |dst| == 4 && length <= 0xFFFF
    ensures WordSum(PseudoHeader(src, dst, proto, length) + b) == WordSum(b) + PseudoWords(src, dst, proto, length)
  {
    PseudoSum(src, dst, proto, length, b);
    SwapIsWord(proto);
    SwapIsWord(length);
  }

  /** The words of the pseudo header and the folded sum of the rest fold to the sum of both. */
  lemma {:induction false} PseudoSame(src: seq<byte>, dst: seq<byte>, proto: byte, length: nat, b: seq<byte>, sum: nat, acc: nat)
    requires |src| == 4 && |dst| == 4 && length <= 0xFFFF && sum == Sum(b)
    requires acc == sum + PseudoWords(src, dst, proto, length)
    ensures Same(acc, WordSum(PseudoHeader(src, dst, proto, length) + b)) && acc <= 0xFFFF_FFFF
  {
    PseudoWordsSum(src, dst, proto, length, b);
    SameAdd(sum, WordSum(b), PseudoWords(src, dst, proto, length));
  }

  lemma {:induction false} SwapIsWord(w: nat)
    requires w <= M
    ensures Swap(w) == Word(w / 0x100, w % 0x100)
  {
  }

  function FoldTwice(n: nat): (r: nat)
    requires n <= 0xFFFF_FFFF
    ensures r <= M && Same(r, n)
  {
    FoldOnceSame(n);
    FoldOnceSame(FoldOnce(n));
    FoldOnce(FoldOnce(n))
  }

  /** inet_chksum_pseudo */
  method ChecksumPseudo(p: Chain, src: seq<byte>, dst: seq<byte>, proto: byte, length: nat) returns (r: nat)
    requires |src| == 4 && |dst| == 4 && length <= 0xFFFF
    ensures r == Flattened(PseudoHeader(src, dst, proto, length) + Flat(p))
  {
    var acc := SumChain(p);
    r := AddPseudo(acc, src, dst, proto, length, Flat(p));
  }

  /** At most n bytes from the front. */
  function Prefix(b: seq<byte>, n: nat): seq<byte> {
    if n < |b| then b[..n] else b
  }

  lemma {:induction false} PrefixMore(p: Chain, i: nat, n: nat, left: nat)
    requires i < |p| && |Flat(p[..i])| + left == n
    ensures var k := if |p[i]| > left then left else |p[i]|;
      Prefix(Flat(p[..i + 1]), n) == Flat(p[..i]) + p[i][..k]
  {
    FlatSplit(p, i);
  }

  /** inet_chksum_pseudo_partial sums the first `partial` bytes. It decides about swapping by the
      whole length of a link even where only a part is summed; that is the last link, and the
      final swap undoes it. */
  method ChecksumPartial(p: Chain, src: seq<byte>, dst: seq<byte>, proto: byte, length: nat, partial: nat)
    returns (r: nat)
    requires |src| == 4 && |dst| == 4 && length <= 0xFFFF
    ensures r == Flattened(PseudoHeader(src, dst, proto, length) + Prefix(Flat(p), partial))
  {
    var acc: nat, swapped, i, left: nat := 0, false, 0, partial;
    while i < |p| && left > 0
      invariant 0 <= i <= |p| && 0 <= left <= partial
      invariant left > 0 ==> Running(acc, swapped, Flat(p[..i])) && |Flat(p[..i])| + left == partial
      invariant acc <= M
      invariant left == 0 ==> (if swapped then Swap(acc) else acc) == Sum(Prefix(Flat(p[..i]), partial))
      invariant left == 0 ==> |Flat(p[..i])| >= partial
    {
      acc, swapped, left := PartialLink(p, i, acc, swapped, left, partial);
      i := i + 1;
    }
    PartialEnd(p, i, acc, swapped, left, partial);
    if swapped {
      acc := Swap(acc);
    }
    r := AddPseudo(acc, src, dst, proto, length, Prefix(Flat(p), partial));
  }

  lemma {:induction false} PartialEnd(p: Chain, i: nat, acc: nat, swapped: bool, left: nat, partial: nat)
    requires i <= |p| && (i == |p| || left == 0)
    requires left > 0 ==> Running(acc, swapped, Flat(p[..i])) && |Flat(p[..i])| + left == partial
    requires left == 0 ==> (if swapped then Swap(acc) else acc) == Sum(Prefix(Flat(p[..i]), partial))
    requires left == 0 ==> |Flat(p[..i])| >= partial
    ensures (if swapped then Swap(acc) else acc) == Sum(Prefix(Flat(p), partial))
  {
    assert p == p[..i] + p[i..];
    FlatConcat(p[..i], p[i..]);
    assert p[..|p|] == p;
    if left > 0 {
      RunningEnd(acc, swapped, Flat(p));
    } else {
      assert Prefix(Flat(p), partial) == Prefix(Flat(p[..i]), partial);
    }
  }

  /** One link of inet_chksum_pseudo_partial. */
  method PartialLink(p: Chain, i: nat, acc: nat, swapped: bool, left: nat, ghost partial: nat)
    returns (acc': nat, swapped': bool, left': nat)
    requires i < |p| && left > 0 && Running(acc, swapped, Flat(p[..i])) && |Flat(p[..i])| + left == partial
    ensures left' <= partial && acc' <= M
    ensures left' > 0 ==> Running(acc', swapped', Flat(p[..i + 1])) && |Flat(p[..i + 1])| + left' == partial
    ensures left' == 0 ==> (if swapped' then Swap(acc') else acc') == Sum(Prefix(Flat(p[..i + 1]), partial))
    ensures left' == 0 ==> |Flat(p[..i + 1])| >= partial
  {
    var chklen := |p[i]|;
    if chklen > left {
      chklen := left;
    }
    FlatSplit(p, i);
    PrefixMore(p, i, partial, left);
    RunningStep(acc, swapped, Flat(p[..i]), p[i][..chklen]);
    acc' := acc + Sum(p[i][..chklen]);
    left' := left - chklen;
    acc' := FoldOnce(acc');
    LastStep(acc', swapped, WordSum(Flat(p[..i]) + p[i][..chklen]));
    SwapTwice(acc');
    swapped' := swapped;
    if |p[i]| % 2 != 0 {
      swapped' := !swapped';
      acc' := Swap(acc');
    }
    assert left' > 0 ==> p[i][..chklen] == p[i];
  }

  // ----------------------------------------------------------- checksum fields

  /** The 16-bit field at offset k, as it lies in memory. */
  function Field(b: seq<byte>, k: nat): nat
    requires k + 1 < |b|
  {
    Word(b[k], b[k + 1])
  }

  function SetField(b: seq<byte>, k: nat, w: nat): (r: seq<byte>)
    requires k + 1 < |b| && w <= M
    ensures |r| == |b| && Field(r, k) == w
    ensures forall i | 0 <= i < |b| && i != k && i != k + 1 :: r[i] == b[i]
  {
    b[k := w % 0x100][k + 1 := w / 0x100]
  }

  /** Writing an aligned field changes the word sum by the difference. */
  lemma {:induction false} FieldSum(b: seq<byte>, k: nat, w: nat)
    requires k + 1 < |b| && w <= M && k % 2 == 0
    ensures WordSum(SetField(b, k, w)) == WordSum(b) - Field(b, k) + w
  {
    var r := SetField(b, k, w);
    if k > 0 {
      assert b[2..][k - 2] == b[k] && b[2..][k - 1] == b[k + 1];
      FieldSum(b[2..], k - 2, w);
      assert r[2..] == SetField(b[2..], k - 2, w);
    } else {
      assert r[2..] == b[2..];
    }
  }

  /** A packet whose aligned checksum field was zero and holds the checksum now sums to zero, with
      any even-length header of other bytes in front. */
  lemma {:induction false} StampedSumsToZero(head: seq<byte>, b: seq<byte>, k: nat)
    requires |head| % 2 == 0 && k + 1 < |b| && k % 2 == 0 && Field(b, k) == 0
    ensures Flattened(head + SetField(b, k, Flattened(head + b))) == 0
  {
    var w := WordSum(head + b);
    var c := Flattened(head + b);
    WordSumConcat(head, b);
    WordSumConcat(head, SetField(b, k, c));
    FieldSum(b, k, c);
    assert c == M - Fold(w);
    Quotient(w + c, M, w / M - Fold(w) / M);
  }

  /** A stored checksum that the receiver's test accepts. */
  predicate Accepted(b: seq<byte>) {
    Flattened(b) == 0
  }

  const TTL_AT: nat := 8
  const IP_CHKSUM_AT: nat := 10

  /** The incremental update both places use, in the byte order of the wire. */
  function Bumped(c: nat, step: nat): (r: nat)
    requires step <= M
    ensures r <= M
  {
    if c >= Swap(0xFFFF - step) then U16(c + Swap(step) + 1) else U16(c + Swap(step))
  }

  lemma {:induction false} BumpedIs(c: nat, d: nat)
    requires 0 < d < 0x100
    ensures Bumped(c, d * 0x100) == if c >= M - d then U16(c + d + 1) else U16(c + d)
  {
    SwapOf(d, 0);
    assert Swap(d * 0x100) == d;
    SwapOf(0xFF - d, 0xFF);
    assert 0xFFFF - d * 0x100 == (0xFF - d) * 0x100 + 0xFF;
    assert Swap(0xFFFF - d * 0x100) == M - d;
  }

  lemma {:induction false} SwapOf(hi: nat, lo: nat)
    requires hi < 0x100 && lo < 0x100
    ensures Swap(hi * 0x100 + lo) == lo * 0x100 + hi
  {
    var w := hi * 0x100 + lo;
    assert w / 0x100 == hi && w % 0x100 == lo;
  }

  /** ip_forward: the time to live decremented in eight bits, and the checksum of an accepted header
      updated incrementally. That is the recomputed checksum exactly if the time to live was not
      zero already; the code forwards such a header with 255. */
  method Forward(hdr: seq<byte>) returns (r: seq<byte>, expired: bool)
    requires |hdr| >= 20
    ensures |r| == |hdr| && r[TTL_AT] == if hdr[TTL_AT] == 0 then 0xFF else hdr[TTL_AT] - 1
    ensures expired <==> hdr[TTL_AT] == 1
    ensures !expired && Accepted(hdr) ==>
      (r == SetField(r, IP_CHKSUM_AT, Flattened(SetField(r, IP_CHKSUM_AT, 0))) <==> hdr[TTL_AT] > 0)
    ensures forall i | 0 <= i < |hdr| && i != TTL_AT && i != IP_CHKSUM_AT && i != IP_CHKSUM_AT + 1 :: r[i] == hdr[i]
  {
    var ttl: byte := if hdr[TTL_AT] == 0 then 0xFF else hdr[TTL_AT] - 1;
    r := hdr[TTL_AT := ttl];
    expired := r[TTL_AT] == 0;
    if expired {
      return;
    }
    ghost var dec := r;
    r := SetField(r, IP_CHKSUM_AT, Bumped(Field(r, IP_CHKSUM_AT), 0x100));
    if Accepted(hdr) {
      BumpedIs(Field(dec, IP_CHKSUM_AT), 1);
      if hdr[TTL_AT] > 0 {
        ForwardExact(hdr, dec, r);
      } else {
        WrappedTtl(hdr, dec, r);
      }
    }
  }

  /** Subtracting from a time to live of zero adds 255, and the update does not know. */
  lemma {:induction false} WrappedTtl(hdr: seq<byte>, dec: seq<byte>, r: seq<byte>)
    requires |hdr| >= 20 && hdr[TTL_AT] == 0 && dec == hdr[TTL_AT := 0xFF] && Accepted(hdr) && |r| == |hdr|
    requires var c := Field(dec, IP_CHKSUM_AT);
      r == SetField(dec, IP_CHKSUM_AT, if c >= M - 1 then U16(c + 1 + 1) else U16(c + 1))
    ensures r != SetField(r, IP_CHKSUM_AT, Flattened(SetField(r, IP_CHKSUM_AT, 0)))
  {
    var c, zero := Field(dec, IP_CHKSUM_AT), SetField(r, IP_CHKSUM_AT, 0);
    assert dec[TTL_AT := dec[TTL_AT] - 0xFF] == hdr;
    LowByteDown(dec, TTL_AT, 0xFF);
    FieldSum(dec, IP_CHKSUM_AT, 0);
    assert zero == SetField(dec, IP_CHKSUM_AT, 0);
    NotCongruent(WordSum(zero), c);
    assert Field(r, IP_CHKSUM_AT) != Flattened(zero);
  }

  lemma {:induction false} NotCongruent(w: nat, c: nat)
    requires c <= M && w + c >= 0xFF && Fold(w + c - 0xFF) == M
    ensures (if c >= M - 1 then U16(c + 1 + 1) else U16(c + 1)) != Complement(Fold(w))
  {
    var k := Witness(w + c - 0xFF, 0);
    var j := Witness(w, Fold(w));
  }

  lemma {:induction false} FoldSplit(n: nat, q: nat, f: nat)
    requires n == q * M + f && 0 < f <= M
    ensures Fold(n) == f
  {
    Quotient(n, f, q);
  }

  /** The words w and the checksum c were accepted. Making a word smaller by d, and the checksum
      larger by d the way the code does, gives the checksum of the new words, unless nothing but d
      was in them. */
  lemma {:induction false} Updated(w: nat, c: nat, d: nat)
    requires c <= M && 0 < d < 0x100 && Fold(w + c) == M && w >= d
    ensures var u := if c >= M - d then U16(c + d + 1) else U16(c + d);
      u <= M && (u == Complement(Fold(w - d)) <==> w != d)
  {
    var k := Witness(w + c, 0);
    assert w + c == k * M && k >= 1;
    if c < M - d {
      assert w - d == (k - 1) * M + (M - c - d);
      FoldSplit(w - d, k - 1, M - c - d);
    } else if w > d {
      assert w - d == (k - 2) * M + (M - (c + d - M));
      assert k >= 2;
      FoldSplit(w - d, k - 2, M - (c + d - M));
    }
  }

  /** Taking d off the low byte of an aligned word. */
  lemma {:induction false} LowByteDown(b: seq<byte>, k: nat, d: nat)
    requires k + 1 < |b| && k % 2 == 0 && d <= b[k]
    ensures WordSum(b[k := b[k] - d]) == WordSum(b) - d
  {
    var w := Field(b, k) - d;
    assert b[k := b[k] - d] == SetField(b, k, w);
    FieldSum(b, k, w);
  }

  lemma {:induction false} FieldIsPart(b: seq<byte>, k: nat)
    requires k + 1 < |b| && k % 2 == 0
    ensures WordSum(b) >= Field(b, k)
  {
    FieldSum(b, k, 0);
  }

  /** The updated header carries the checksum a recomputation would give, if `dec` is the accepted
      header with d taken off a low byte. */
  lemma {:induction false} UpdateExact(b: seq<byte>, dec: seq<byte>, r: seq<byte>, at: nat, k: nat, d: nat)
    requires |b| == |dec| == |r| && at % 2 == 0 && k % 2 == 0 && at != k && at + 1 < |b| && k + 1 < |b|
    requires 0 < d < 0x100 && d <= b[at] && dec == b[at := b[at] - d] && Accepted(b)
    requires var c := Field(dec, k);
      r == SetField(dec, k, if c >= M - d then U16(c + d + 1) else U16(c + d))
    ensures Field(r, k) == Flattened(SetField(r, k, 0)) <==> WordSum(SetField(r, k, 0)) != 0
  {
    var c, zero := Field(dec, k), SetField(r, k, 0);
    LowByteDown(b, at, d);
    FieldSum(dec, k, 0);
    assert zero == SetField(dec, k, 0);
    var w := WordSum(zero) + d;
    assert w + c == WordSum(b);
    Updated(w, c, d);
  }

  lemma {:induction false} ForwardExact(hdr: seq<byte>, dec: seq<byte>, r: seq<byte>)
    requires |hdr| >= 20 && hdr[TTL_AT] > 1 && dec == hdr[TTL_AT := hdr[TTL_AT] - 1] && Accepted(hdr) && |r| == |hdr|
    requires var c := Field(dec, IP_CHKSUM_AT);
      r == SetField(dec, IP_CHKSUM_AT, if c >= M - 1 then U16(c + 1 + 1) else U16(c + 1))
    ensures r == SetField(r, IP_CHKSUM_AT, Flattened(SetField(r, IP_CHKSUM_AT, 0)))
  {
    UpdateExact(hdr, dec, r, TTL_AT, IP_CHKSUM_AT, 1);
    var zero := SetField(r, IP_CHKSUM_AT, 0);
    FieldIsPart(zero, TTL_AT);
    assert zero[TTL_AT] > 0;
    assert Field(r, IP_CHKSUM_AT) == Flattened(zero);
  }

  const ICMP_ECHO: nat := 8
  const ICMP_CHKSUM_AT: nat := 2

  /** icmp_input: an echo request turned into the reply. The incremental checksum is the
      recomputed one exactly when some other byte of the message is not zero. */
  method EchoReply(msg: seq<byte>) returns (r: seq<byte>)
    requires |msg| >= 8 && msg[0] == ICMP_ECHO
    ensures |r| == |msg| && r[0] == 0 && r[1] == msg[1] && r[4..] == msg[4..]
    ensures Accepted(msg) ==>
      (Field(r, ICMP_CHKSUM_AT) == Flattened(SetField(r, ICMP_CHKSUM_AT, 0))
       <==> exists i :: 0 <= i < |msg| && i != 0 && i != 2 && i != 3 && msg[i] != 0)
  {
    r := msg[0 := 0];
    ghost var dec := r;
    r := SetField(r, ICMP_CHKSUM_AT, Bumped(Field(r, ICMP_CHKSUM_AT), ICMP_ECHO * 0x100));
    if Accepted(msg) {
      BumpedIs(Field(dec, ICMP_CHKSUM_AT), ICMP_ECHO);
      EchoExact(msg, dec, r);
    }
  }

  lemma {:induction false} EchoExact(msg: seq<byte>, dec: seq<byte>, r: seq<byte>)
    requires |msg| >= 8 && msg[0] == ICMP_ECHO && dec == msg[0 := 0] && Accepted(msg) && |r| == |msg|
    requires var c := Field(dec, ICMP_CHKSUM_AT);
      r == SetField(dec, ICMP_CHKSUM_AT, if c >= M - 8 then U16(c + 8 + 1) else U16(c + 8))
    ensures Field(r, ICMP_CHKSUM_AT) == Flattened(SetField(r, ICMP_CHKSUM_AT, 0))
      <==> exists i :: 0 <= i < |msg| && i != 0 && i != 2 && i != 3 && msg[i] != 0
  {
    UpdateExact(msg, dec, r, 0, ICMP_CHKSUM_AT, 8);
    var zero := SetField(r, ICMP_CHKSUM_AT, 0);
    WordSumZero(zero);
    assert forall i | 0 <= i < |msg| && i != 0 && i != 2 && i != 3 :: zero[i] == msg[i];
    assert zero[0] == 0 && zero[2] == 0 && zero[3] == 0;
  }

  // --------------------------------------------------------- ip_output_if_opt

  /** The IP header that ip_output_if_opt writes, its checksum field still zero. */
  function Header(tos: byte, total: nat, id: nat, ttl: byte, proto: byte, src: seq<byte>, dst: seq<byte>, opts: seq<byte>): (r: seq<byte>)
    requires |src| == 4 && |dst| == 4 && |opts| % 4 == 0 && |opts| <= 40 && total <= M && id <= M
    ensures |r| == 20 + |opts|
  {
    [0x40 + (20 + |opts|) / 4, tos, total / 0x100, total % 0x100]
    + ([id / 0x100, id % 0x100, 0, 0] + ([ttl, proto, 0, 0] + (src + (dst + opts))))
  }

  function Padded(opts: seq<byte>): (r: seq<byte>)
    ensures |r| == (|opts| + 3) / 4 * 4 && r[..|opts|] == opts
  {
    if |opts| % 4 == 0 then opts
    else if |opts| % 4 == 1 then opts + [0, 0, 0]
    else if |opts| % 4 == 2 then opts + [0, 0]
    else opts + [0]
  }

  lemma {:induction false} HeaderSum(tos: byte, total: nat, id: nat, ttl: byte, proto: byte, src: seq<byte>, dst: seq<byte>, opts: seq<byte>)
    requires |src| == 4 && |dst| == 4 && |opts| % 4 == 0 && |opts| <= 40 && total <= M && id <= M
    ensures WordSum(Header(tos, total, id, ttl, proto, src, dst, opts)) ==
      Word(0x40 + (20 + |opts|) / 4, tos) + Word(total / 0x100, total % 0x100) + Word(id / 0x100, id % 0x100)
      + Word(ttl, proto) + Word(src[0], src[1]) + Word(src[2], src[3]) + Word(dst[0], dst[1]) + Word(dst[2], dst[3])
      + WordSum(opts)
  {
    var c, b := src + (dst + opts), dst + opts;
    FourBytes(dst, opts);
    FourBytes(src, b);
    FourBytes([ttl, proto, 0, 0], c);
    FourBytes([id / 0x100, id % 0x100, 0, 0], [ttl, proto, 0, 0] + c);
    FourBytes([0x40 + (20 + |opts|) / 4, tos, total / 0x100, total % 0x100],
              [id / 0x100, id % 0x100, 0, 0] + ([ttl, proto, 0, 0] + c));
  }

  /** ip_output_if_opt with the checksum summed up while the header is written. */
  method OutputHeader(tos: byte, total: nat, id: nat, ttl: byte, proto: byte, src: seq<byte>, dst: seq<byte>, options: seq<byte>)
    returns (hdr: seq<byte>)
    requires |src| == 4 && |dst| == 4 && |options| <= 40 && total <= M && id <= M
    ensures var plain := Header(tos, total, id, ttl, proto, src, dst, Padded(options));
      hdr == SetField(plain, IP_CHKSUM_AT, Flattened(plain))
  {
    var opts := Padded(options);
    var sum := 0;
    var i := 0;
    assert opts[0..] == opts;
    WordSumBound(opts);
    while i < |opts| / 2
      invariant i <= |opts| / 2 && sum + WordSum(opts[2 * i..]) == WordSum(opts) && sum >= 0
    {
      SplitWord(opts, 2 * i);
      sum := sum + Word(opts[2 * i], opts[2 * i + 1]);
      i := i + 1;
    }
    assert opts[2 * i..] == [];
    sum := sum + Word(ttl, proto);
    sum := sum + Word(dst[0], dst[1]);
    sum := sum + Word(dst[2], dst[3]);
    sum := sum + Word(0x40 + (20 + |opts|) / 4, tos);
    sum := sum + Swap(total);
    sum := sum + Swap(id);
    sum := sum + Word(src[0], src[1]);
    sum := sum + Word(src[2], src[3]);
    var plain := Header(tos, total, id, ttl, proto, src, dst, opts);
    HeaderSum(tos, total, id, ttl, proto, src, dst, opts);
    SwapIsWord(total);
    SwapIsWord(id);
    var c := InlineFold(plain, sum);
    hdr := SetField(plain, IP_CHKSUM_AT, c);
  }

  /** The fold of the inline sum, which masks only once and leaves the rest to the 16-bit store. */
  method InlineFold(plain: seq<byte>, sum: nat) returns (c: nat)
    requires sum == WordSum(plain) && sum <= 0xFFFF_FFFF
    ensures c == Flattened(plain)
  {
    var folded := sum / 0x1_0000 + sum % 0x1_0000;
    InlineExact(sum);
    folded := folded / 0x1_0000 + folded;
    c := U16(0xFFFF_FFFF - folded);
  }

  lemma {:induction false} InlineExact(sum: nat)
    requires sum <= 0xFFFF_FFFF
    ensures var f := FoldOnce(sum); U16(0xFFFF_FFFF - (f / 0x1_0000 + f)) == Complement(Fold(sum))
  {
    var f := FoldOnce(sum);
    FoldOnceSame(sum);
    FoldOnceSame(f);
    FoldIs(FoldOnce(f), sum);
    UnmaskedFold(f);
  }

  lemma {:induction false} UnmaskedFold(n: nat)
    requires n <= 0x1_FFFE
    ensures U16(n / 0x1_0000 + n) == FoldOnce(n)
    ensures U16(0xFFFF_FFFF - (n / 0x1_0000 + n)) == M - FoldOnce(n)
  {
    if n >= 0x1_0000 {
      assert n / 0x1_0000 == 1;
    }
  }

  /** Every header sent this way passes the receiver's test. */
  lemma {:induction false} OutputAccepted(plain: seq<byte>)
    requires |plain| >= 20 && Field(plain, IP_CHKSUM_AT) == 0
    ensures Accepted(SetField(plain, IP_CHKSUM_AT, Flattened(plain)))
  {
    assert [] + plain == plain;
    var h := SetField(plain, IP_CHKSUM_AT, Flattened(plain));
    assert [] + h == h;
    StampedSumsToZero([], plain, IP_CHKSUM_AT);
  }
}
