/** The heap of mem.c without pools: block headers inside one array, first fit from the lowest
    free block, splitting, coalescing on both sides and shrinking in place. Offsets into the
    array stand for pointers. */
module Heap {
  import opened Words

  const ALIGNMENT: nat := 4
  const HEADER: nat := 8          // SIZEOF_STRUCT_MEM: two 16-bit indices and a flag, aligned
  const MIN_SIZE: nat := 12       // MIN_SIZE_ALIGNED

  /** struct mem */
  datatype Header = Header(next: nat, prev: nat, used: bool)

  /** A pointer into the heap, as an offset from `ram`. */
  datatype Ptr = Null | At(off: int)

  /** A block of the heap: its length, header included, and whether it is allocated. */
  datatype Block = Block(len: nat, used: bool)

  /** LWIP_MEM_ALIGN_SIZE stored into the 16-bit mem_size_t, then raised to the minimum. */
  function Rounded(size: nat): nat {
    var aligned := U16((size + 3) / 4 * 4);
    if aligned < MIN_SIZE then MIN_SIZE else aligned
  }

  /** The rounded size is aligned; it covers the request exactly when aligning the request does
      not wrap mem_size_t around to zero. */
  lemma {:induction false} RoundedCovers(size: nat)
    requires size <= 0xFFFF
    ensures Rounded(size) % ALIGNMENT == 0 && MIN_SIZE <= Rounded(size) <= 0xFFFC
    ensures Rounded(size) >= size <==> size <= 0xFFFC
    ensures size <= 0xFFFC ==> Rounded(size) < size + ALIGNMENT || Rounded(size) == MIN_SIZE
  {
    if size > 0xFFFC {
      assert (size + 3) / 4 * 4 == 0x1_0000;
    }
  }

  /** A request longer than a block of `room` bytes is refused by the size test of mem_trim, as its
      comment promises, exactly when aligning the request does not wrap around; the last three
      16-bit values pass for a request of MIN_SIZE bytes. */
  lemma {:induction false} OversizeRefused(request: nat, room: nat)
    requires request <= 0xFFFF && MIN_SIZE <= room <= 64000 && room % ALIGNMENT == 0
    ensures (request > room ==> Rounded(request) > room) <==> request <= 0xFFFC
    ensures request <= room ==> Rounded(request) <= room
    ensures Rounded(0xFFFD) == MIN_SIZE
  {
    RoundedCovers(request);
  }

  function Len(b: seq<Block>): nat {
    if b == [] then 0 else b[0].len + Len(b[1..])
  }

  /** Blocks are big enough for their data and aligned. */
  predicate Sized(b: seq<Block>) {
    b == [] || (b[0].len >= HEADER + MIN_SIZE && b[0].len % ALIGNMENT == 0 && Sized(b[1..]))
  }

  /** No two neighbours are both free. */
  predicate Coalesced(b: seq<Block>) {
    |b| <= 1 || ((b[0].used || b[1].used) && Coalesced(b[1..]))
  }

  /** The offset of the first free block of b, laid out from offset o, or its end. */
  function FirstFree(b: seq<Block>, o: nat): nat {
    if b == [] || !b[0].used then o else FirstFree(b[1..], o + b[0].len)
  }

  /** The index of the first free block with room for `size` bytes, or |b|. */
  function FirstFit(b: seq<Block>, size: nat): (k: nat)
    ensures k <= |b|
    ensures k < |b| ==> !b[k].used && size + HEADER <= b[k].len
    ensures forall i | 0 <= i < k :: b[i].used || b[i].len < size + HEADER
  {
    if b == [] then 0
    else if !b[0].used && size + HEADER <= b[0].len then 0
    else 1 + FirstFit(b[1..], size)
  }

  /** The live allocations: offset of the data and its room. */
  function Live(b: seq<Block>, o: nat): set<(int, int)>
    decreases b
  {
    if b == [] then {}
    else (if b[0].used then {(o + HEADER, b[0].len - HEADER)} else {}) + Live(b[1..], o + b[0].len)
  }

  /** The headers from offset o on describe the blocks b, linked both ways. */
  predicate Linked(ram: seq<Header>, o: nat, p: nat, b: seq<Block>)
    decreases b
  {
    b == []
    || (o < |ram| && ram[o] == Header(o + b[0].len, p, b[0].used) && Linked(ram, o + b[0].len, o, b[1..]))
  }

  /** The offset of the last block of b. */
  function Last(o: nat, p: nat, b: seq<Block>): nat
    decreases b
  {
    if b == [] then p else Last(o + b[0].len, o, b[1..])
  }

  lemma {:induction false} LenConcat(a: seq<Block>, b: seq<Block>)
    ensures Len(a + b) == Len(a) + Len(b)
  {
    if a == [] {
      assert a + b == b;
    } else {
      assert (a + b)[1..] == a[1..] + b;
      LenConcat(a[1..], b);
    }
  }

  lemma {:induction false} LinkedConcat(ram: seq<Header>, o: nat, p: nat, a: seq<Block>, b: seq<Block>)
    ensures Linked(ram, o, p, a + b) <==> Linked(ram, o, p, a) && Linked(ram, o + Len(a), Last(o, p, a), b)
    decreases a
  {
    if a == [] {
      assert a + b == b;
    } else {
      assert (a + b)[1..] == a[1..] + b;
      LinkedConcat(ram, o + a[0].len, o, a[1..], b);
    }
  }

  /** Headers outside the blocks do not matter. */
  lemma {:induction false} LinkedFrame(ram: seq<Header>, ram': seq<Header>, o: nat, p: nat, b: seq<Block>)
    requires Linked(ram, o, p, b) && Sized(b) && |ram'| == |ram|
    requires forall x | o <= x < o + Len(b) && x < |ram| :: ram'[x] == ram[x]
    ensures Linked(ram', o, p, b)
    decreases b
  {
    if b != [] {
      LinkedFrame(ram, ram', o + b[0].len, o, b[1..]);
    }
  }

  lemma {:induction false} LiveConcat(a: seq<Block>, b: seq<Block>, o: nat)
    ensures Live(a + b, o) == Live(a, o) + Live(b, o + Len(a))
    decreases a
  {
    if a == [] {
      assert a + b == b;
    } else {
      assert (a + b)[1..] == a[1..] + b;
      LiveConcat(a[1..], b, o + a[0].len);
    }
  }

  lemma {:induction false} LiveBounds(b: seq<Block>, o: nat)
    requires Sized(b)
    ensures forall q | q in Live(b, o) :: o + HEADER <= q.0 && q.0 + q.1 <= o + Len(b) && q.1 >= MIN_SIZE
    decreases b
  {
    if b != [] {
      LiveBounds(b[1..], o + b[0].len);
    }
  }

  lemma {:induction false} SizedConcat(a: seq<Block>, b: seq<Block>)
    ensures Sized(a + b) <==> Sized(a) && Sized(b)
  {
    if a == [] {
      assert a + b == b;
    } else {
      assert (a + b)[1..] == a[1..] + b;
      SizedConcat(a[1..], b);
    }
  }

  lemma {:induction false} CoalescedConcat(a: seq<Block>, b: seq<Block>)
    ensures Coalesced(a + b) <==>
      Coalesced(a) && Coalesced(b) && (a != [] && b != [] ==> a[|a| - 1].used || b[0].used)
  {
    if a == [] {
      assert a + b == b;
    } else {
      assert (a + b)[1..] == a[1..] + b;
      CoalescedConcat(a[1..], b);
    }
  }

  lemma {:induction false} FirstFreeConcat(a: seq<Block>, b: seq<Block>, o: nat)
    requires Sized(a)
    ensures o <= FirstFree(a, o) <= o + Len(a)
    ensures FirstFree(a + b, o) == if FirstFree(a, o) < o + Len(a) then FirstFree(a, o) else FirstFree(b, o + Len(a))
    decreases a
  {
    if a == [] {
      assert a + b == b;
    } else {
      assert (a + b)[1..] == a[1..] + b;
      FirstFreeConcat(a[1..], b, o + a[0].len);
    }
  }

  lemma {:induction false} LastConcat(a: seq<Block>, b: seq<Block>, o: nat, p: nat)
    ensures Last(o, p, a + b) == Last(o + Len(a), Last(o, p, a), b)
    decreases a
  {
    if a == [] {
      assert a + b == b;
    } else {
      assert (a + b)[1..] == a[1..] + b;
      LastConcat(a[1..], b, o + a[0].len, o);
    }
  }

  /** The blocks m between a and c are replaced by m'; only their headers and the back link of
      the block behind them are written. */
  lemma {:induction false} Relinked(ram: seq<Header>, ram': seq<Header>, a: seq<Block>, m: seq<Block>, m': seq<Block>, c: seq<Block>)
    requires Linked(ram, 0, 0, a + m + c) && Sized(a) && Sized(m) && Sized(c)
    requires |ram'| == |ram| && Len(m) == Len(m') && m != [] && m' != []
    requires var s, e := Len(a), Len(a) + Len(m);
      && Linked(ram', s, Last(0, 0, a), m')
      && (forall x | 0 <= x < s && x < |ram| :: ram'[x] == ram[x])
      && (forall x | e < x < |ram| :: ram'[x] == ram[x])
      && (c != [] && e < |ram| ==> ram'[e] == ram[e].(prev := Last(s, Last(0, 0, a), m')))
    ensures Linked(ram', 0, 0, a + m' + c)
  {
    var s, e := Len(a), Len(a) + Len(m);
    Linked3(ram, a, m, c);
    LinkedFrame(ram, ram', 0, 0, a);
    if c != [] {
      LinkedFrame(ram, ram', e + c[0].len, e, c[1..]);
    }
    Linked3(ram', a, m', c);
  }

  lemma {:induction false} Linked3(ram: seq<Header>, a: seq<Block>, m: seq<Block>, c: seq<Block>)
    ensures Linked(ram, 0, 0, a + m + c) <==>
      && Linked(ram, 0, 0, a) && Linked(ram, Len(a), Last(0, 0, a), m)
      && Linked(ram, Len(a) + Len(m), Last(Len(a), Last(0, 0, a), m), c)
  {
    LinkedConcat(ram, 0, 0, a + m, c);
    LinkedConcat(ram, 0, 0, a, m);
    LenConcat(a, m);
    LastConcat(a, m, 0, 0);
  }

  /** The heap apart from the cached lowest free block, and with neighbours perhaps both free. */
  ghost predicate Shaped(ram: seq<Header>, memSize: nat, b: seq<Block>) {
    && HEADER + MIN_SIZE <= memSize <= 64000 && memSize % ALIGNMENT == 0
    && |ram| == memSize + 1 && ram[memSize].used && ram[memSize].next == memSize
    && Len(b) == memSize && Sized(b) && Linked(ram, 0, 0, b)
  }

  /** The heap between two calls. */
  ghost predicate HeapOk(ram: seq<Header>, lfree: nat, memSize: nat, b: seq<Block>) {
    Shaped(ram, memSize, b) && Coalesced(b) && lfree == FirstFree(b, 0)
  }

  lemma {:induction false} Live3(a: seq<Block>, m: seq<Block>, c: seq<Block>)
    ensures Live(a + m + c, 0) == Live(a, 0) + Live(m, Len(a)) + Live(c, Len(a) + Len(m))
  {
    LiveConcat(a + m, c, 0);
    LiveConcat(a, m, 0);
    LenConcat(a, m);
    var x, y, z := Live(a, 0), Live(m, 0 + Len(a)), Live(c, 0 + Len(a + m));
    assert Live(a + m + c, 0) == (x + y) + z;
  }

  /** Three parts laid out one behind the other. */
  lemma {:induction false} Join3(a: seq<Block>, m: seq<Block>, c: seq<Block>)
    ensures Sized(a + m + c) <==> Sized(a) && Sized(m) && Sized(c)
    ensures Len(a + m + c) == Len(a) + Len(m) + Len(c)
    ensures m != [] ==> (Coalesced(a + m + c) <==>
      && Coalesced(a) && Coalesced(m) && Coalesced(c)
      && (a != [] ==> a[|a| - 1].used || m[0].used)
      && (c != [] ==> m[|m| - 1].used || c[0].used))
  {
    SizedConcat(a + m, c);
    SizedConcat(a, m);
    LenConcat(a + m, c);
    LenConcat(a, m);
    CoalescedConcat(a + m, c);
    CoalescedConcat(a, m);
  }

  /** A block in the middle: its header and what its neighbours say of it. */
  lemma {:induction false} BlockAt(ram: seq<Header>, memSize: nat, b: seq<Block>, k: nat)
    requires Shaped(ram, memSize, b) && k < |b|
    ensures var o := Len(b[..k]);
      && o + b[k].len <= memSize && o % ALIGNMENT == 0
      && ram[o] == Header(o + b[k].len, Last(0, 0, b[..k]), b[k].used)
      && b[k].len >= HEADER + MIN_SIZE && b[k].len % ALIGNMENT == 0
      && Len(b[..k + 1]) == o + b[k].len
      && (k + 1 < |b| <==> o + b[k].len < memSize)
      && (k + 1 < |b| ==> ram[o + b[k].len].prev == o && ram[o + b[k].len].used == b[k + 1].used)
      && (k > 0 <==> Last(0, 0, b[..k]) != o)
      && (k > 0 ==> Last(0, 0, b[..k]) == Len(b[..k - 1]))
  {
    SplitAt(b, k);
    Linked3(ram, b[..k], [b[k]], b[k + 1..]);
    Join3(b[..k], [b[k]], b[k + 1..]);
    assert b[..k + 1] == b[..k] + [b[k]];
    LenConcat(b[..k], [b[k]]);
    Aligned(b[..k]);
    if k > 0 {
      assert b[..k] == b[..k - 1] + [b[k - 1]];
      LastConcat(b[..k - 1], [b[k - 1]], 0, 0);
      LenConcat(b[..k - 1], [b[k - 1]]);
      SizedConcat(b[..k - 1], [b[k - 1]]);
    }
  }

  lemma {:induction false} Aligned(b: seq<Block>)
    requires Sized(b)
    ensures Len(b) % ALIGNMENT == 0
  {
    if b != [] {
      Aligned(b[1..]);
    }
  }

  /** The blocks m, in the middle of the heap, are replaced by m'. */
  lemma {:induction false} Reshaped(ram: seq<Header>, ram': seq<Header>, memSize: nat,
                                    a: seq<Block>, m: seq<Block>, m': seq<Block>, c: seq<Block>)
    requires Shaped(ram, memSize, a + m + c)
    requires |ram'| == |ram| && Len(m) == Len(m') && m != [] && m' != [] && Sized(m')
    requires var s, e := Len(a), Len(a) + Len(m);
      && Linked(ram', s, Last(0, 0, a), m')
      && (forall x | 0 <= x < s && x < |ram| :: ram'[x] == ram[x])
      && (forall x | e < x < |ram| :: ram'[x] == ram[x])
      && (c != [] && e < |ram| ==> ram'[e] == ram[e].(prev := Last(s, Last(0, 0, a), m')))
      && ram'[memSize].used && ram'[memSize].next == memSize
    ensures Shaped(ram', memSize, a + m' + c)
  {
    Join3(a, m, c);
    Join3(a, m', c);
    Relinked(ram, ram', a, m, m', c);
  }

  lemma {:induction false} SplitAt(b: seq<Block>, k: nat)
    requires k < |b|
    ensures b == b[..k] + [b[k]] + b[k + 1..]
  {
  }

  // ---------------------------------------------------------------- allocation

  /** A used block with the given room in front of a free block that takes the rest. */
  function Pair(room: nat, rest: nat): (r: seq<Block>)
    ensures |r| == 2 && r[0] == Block(room + HEADER, true) && r[1] == Block(rest, false)
  {
    [Block(room + HEADER, true), Block(rest, false)]
  }

  lemma {:induction false} PairHolds(room: nat, rest: nat, o: nat, p: nat)
    requires room >= MIN_SIZE && room % ALIGNMENT == 0
    requires rest >= HEADER + MIN_SIZE && rest % ALIGNMENT == 0
    ensures var r := Pair(room, rest);
      && Len(r) == room + HEADER + rest && Sized(r) && Coalesced(r)
      && Live(r, o) == {(o + HEADER, room)} && Last(o, p, r) == o + HEADER + room
  {
    var r := Pair(room, rest);
    var t := r[1..];
    assert t == [r[1]] && t[1..] == [];
    assert Len(t) == rest;
    assert Live(t, o + r[0].len) == {};
    assert Last(o + r[0].len, o, t) == Last(o + r[0].len + rest, o + r[0].len, t[1..]);
  }

  lemma {:induction false} PairLinked(ram: seq<Header>, room: nat, rest: nat, o: nat, p: nat)
    requires o + HEADER + room < |ram|
    requires ram[o] == Header(o + HEADER + room, p, true)
    requires ram[o + HEADER + room] == Header(o + HEADER + room + rest, o, false)
    ensures Linked(ram, o, p, Pair(room, rest))
  {
    var r := Pair(room, rest);
    var t := r[1..];
    assert t == [r[1]] && t[1..] == [];
    assert Linked(ram, o + r[0].len, o, t);
  }

  /** The block k after `size` bytes have been taken from it. */
  function Carved(k: Block, size: nat): (r: seq<Block>)
    requires size + HEADER <= k.len
    ensures r != []
  {
    if k.len - HEADER >= size + HEADER + MIN_SIZE then
      Pair(size, k.len - size - HEADER)
    else
      [Block(k.len, true)]
  }

  /** The blocks after an allocation of `size` bytes from block k. */
  function Taken(b: seq<Block>, k: nat, size: nat): seq<Block>
    requires k < |b| && size + HEADER <= b[k].len
  {
    b[..k] + Carved(b[k], size) + b[k + 1..]
  }

  /** The room the new allocation gets. */
  function RoomTaken(k: Block, size: nat): (r: nat)
    requires size + HEADER <= k.len
    ensures size <= r <= k.len - HEADER
    ensures r < size + HEADER + MIN_SIZE
  {
    if k.len - HEADER >= size + HEADER + MIN_SIZE then size else k.len - HEADER
  }

  lemma {:induction false} CarvedHolds(k: Block, size: nat, o: nat)
    requires size + HEADER <= k.len && size >= MIN_SIZE && size % ALIGNMENT == 0 && k.len % ALIGNMENT == 0
    ensures var r := Carved(k, size);
      && Len(r) == k.len && Sized(r) && Coalesced(r) && r[0].used
      && Live(r, o) == {(o + HEADER, RoomTaken(k, size))}
  {
    if k.len - HEADER >= size + HEADER + MIN_SIZE {
      PairHolds(size, k.len - size - HEADER, o, 0);
    } else {
      var r := Carved(k, size);
      assert r[1..] == [];
    }
  }

  lemma {:induction false} TakenShape(b: seq<Block>, k: nat, size: nat)
    requires k < |b| && !b[k].used && size + HEADER <= b[k].len
    requires Sized(b) && Coalesced(b) && size >= MIN_SIZE && size % ALIGNMENT == 0
    ensures var r := Taken(b, k, size); Sized(r) && Coalesced(r) && Len(r) == Len(b)
  {
    var a, m, c := b[..k], Carved(b[k], size), b[k + 1..];
    SplitAt(b, k);
    Join3(a, [b[k]], c);
    CarvedHolds(b[k], size, Len(a));
    Join3(a, m, c);
  }

  /** An allocation adds one live block that overlaps no other. */
  lemma {:induction false} TakenLive(b: seq<Block>, k: nat, size: nat)
    requires k < |b| && !b[k].used && size + HEADER <= b[k].len
    requires Sized(b) && size >= MIN_SIZE && size % ALIGNMENT == 0
    ensures var r, off := Taken(b, k, size), Len(b[..k]) + HEADER;
      && Live(r, 0) == Live(b, 0) + {(off, RoomTaken(b[k], size))}
      && (forall q | q in Live(b, 0) :: q.0 + q.1 <= off - HEADER || off + RoomTaken(b[k], size) <= q.0 - HEADER)
  {
    var a, m, c := b[..k], Carved(b[k], size), b[k + 1..];
    SplitAt(b, k);
    Join3(a, [b[k]], c);
    CarvedHolds(b[k], size, Len(a));
    Live3(a, [b[k]], c);
    Live3(a, m, c);
    LiveBounds(a, 0);
    LiveBounds(c, Len(a) + b[k].len);
    assert Live([b[k]], Len(a)) == {};
  }

  /** First fit never passes a free block that is big enough: scanning from any block before
      which nothing is free finds the same block as scanning from the start. */
  lemma {:induction false} FirstFitConcat(a: seq<Block>, b: seq<Block>, size: nat)
    requires FirstFit(a, size) == |a|
    ensures FirstFit(a + b, size) == |a| + FirstFit(b, size)
  {
    if a == [] {
      assert a + b == b;
    } else {
      assert (a + b)[1..] == a[1..] + b;
      FirstFitConcat(a[1..], b, size);
    }
  }

  /** Blocks that all end within `size` bytes of their start offset cannot hold them. */
  lemma {:induction false} TooShort(b: seq<Block>, size: nat)
    requires Len(b) <= size
    ensures FirstFit(b, size) == |b|
  {
    if b != [] {
      TooShort(b[1..], size);
    }
  }

  /** Everything in front of the lowest free block is skipped by first fit. */
  lemma {:induction false} LowestFree(b: seq<Block>, o: nat) returns (k: nat)
    requires Sized(b)
    ensures k <= |b| && FirstFree(b, o) == o + Len(b[..k])
    ensures k < |b| ==> !b[k].used
    ensures forall size :: FirstFit(b[..k], size) == k
    decreases b
  {
    if b == [] || !b[0].used {
      k := 0;
    } else {
      var j := LowestFree(b[1..], o + b[0].len);
      k := j + 1;
      assert b[..k][1..] == b[1..][..j];
      forall size ensures FirstFit(b[..k], size) == k {
        assert FirstFit(b[1..][..j], size) == j;
      }
    }
  }

  lemma {:induction false} FirstFree3(a: seq<Block>, m: seq<Block>, c: seq<Block>)
    requires Sized(a) && Sized(m)
    ensures FirstFree(a, 0) <= Len(a) && FirstFree(m, Len(a)) <= Len(a) + Len(m)
    ensures FirstFree(a + m + c, 0) ==
      if FirstFree(a, 0) < Len(a) then FirstFree(a, 0)
      else if FirstFree(m, Len(a)) < Len(a) + Len(m) then FirstFree(m, Len(a))
      else FirstFree(c, Len(a) + Len(m))
  {
    assert a + m + c == a + (m + c);
    FirstFreeConcat(a, m + c, 0);
    FirstFreeConcat(m, c, Len(a));
  }

  lemma {:induction false} CutAt(b: seq<Block>, k: nat)
    requires k <= |b| && Sized(b)
    ensures b == b[..k] + b[k..] && Len(b) == Len(b[..k]) + Len(b[k..])
    ensures k < |b| ==> Len(b[..k]) < Len(b) && Len(b[..k + 1]) == Len(b[..k]) + b[k].len
    ensures k < |b| ==> b[..k + 1] == b[..k] + [b[k]]
  {
    assert b == b[..k] + b[k..];
    LenConcat(b[..k], b[k..]);
    if k < |b| {
      assert b[..k + 1] == b[..k] + [b[k]];
      LenConcat(b[..k], [b[k]]);
      SizedConcat(b[..k], b[k..]);
      SizedConcat(b[..k + 1], b[k + 1..]);
    }
  }

  /** One step of a scan that has found nothing in front of block k. */
  lemma {:induction false} ScanStep(b: seq<Block>, k: nat, size: nat)
    requires k < |b| && FirstFit(b[..k], size) == k
    ensures !b[k].used && size + HEADER <= b[k].len ==> FirstFit(b, size) == k
    ensures b[k].used || size + HEADER > b[k].len ==> FirstFit(b[..k + 1], size) == k + 1
  {
    assert b == b[..k] + b[k..];
    FirstFitConcat(b[..k], b[k..], size);
    assert b[..k + 1] == b[..k] + [b[k]];
    FirstFitConcat(b[..k], [b[k]], size);
  }

  lemma {:induction false} ScanEnd(b: seq<Block>, k: nat, size: nat)
    requires k <= |b| && FirstFit(b[..k], size) == k && Len(b[k..]) <= size
    ensures FirstFit(b, size) == |b|
  {
    assert b == b[..k] + b[k..];
    FirstFitConcat(b[..k], b[k..], size);
    TooShort(b[k..], size);
  }

  lemma {:induction false} SearchStep(ram: seq<Header>, memSize: nat, b: seq<Block>, k: nat, size: nat)
    requires Shaped(ram, memSize, b) && k <= |b| && FirstFit(b[..k], size) == k && Len(b[..k]) < memSize - size
    ensures k < |b|
    ensures var ptr := Len(b[..k]);
      && 0 <= ptr < |ram| && Len(b[..k + 1]) == ram[ptr].next
      && if !ram[ptr].used && ram[ptr].next - (ptr + HEADER) >= size then FirstFit(b, size) == k
         else FirstFit(b[..k + 1], size) == k + 1
  {
    assert b[..|b|] == b;
    BlockAt(ram, memSize, b, k);
    ScanStep(b, k, size);
  }

  /** The search loop of mem_malloc, started at the cached lowest free block and stopped where
      the request cannot end inside the heap any more, finds what a scan of the whole heap finds. */
  method Search(ram: seq<Header>, lfree: nat, memSize: nat, size: nat, ghost b: seq<Block>)
    returns (found: bool, ptr: nat, ghost k: nat)
    requires HeapOk(ram, lfree, memSize, b) && size <= memSize
    ensures k == FirstFit(b, size)
    ensures found <==> k < |b|
    ensures found ==> ptr == Len(b[..k])
  {
    ptr := lfree;
    k := LowestFree(b, 0);
    while ptr < memSize - size
      invariant k <= |b| && ptr == Len(b[..k]) && FirstFit(b[..k], size) == k
      decreases |b| - k
    {
      SearchStep(ram, memSize, b, k, size);
      if !ram[ptr].used && ram[ptr].next - (ptr + HEADER) >= size {
        found := true;
        return;
      }
      ptr := ram[ptr].next;
      k := k + 1;
    }
    CutAt(b, k);
    ScanEnd(b, k, size);
    found := false;
    k := |b|;
  }

  /** Takes `size` bytes from the free block at ptr, splitting it when the rest is useful. */
  method Carve(ram: seq<Header>, memSize: nat, ptr: nat, size: nat, ghost b: seq<Block>, ghost k: nat)
    returns (ram': seq<Header>)
    requires Shaped(ram, memSize, b) && k < |b| && ptr == Len(b[..k])
    requires !b[k].used && size + HEADER <= b[k].len && size >= MIN_SIZE && size % ALIGNMENT == 0
    ensures Shaped(ram', memSize, Taken(b, k, size))
  {
    ram' := ram;
    BlockAt(ram, memSize, b, k);
    ghost var a, m, m', c := b[..k], [b[k]], Carved(b[k], size), b[k + 1..];
    SplitAt(b, k);
    CarvedHolds(b[k], size, ptr);
    if ram'[ptr].next - (ptr + HEADER) >= size + HEADER + MIN_SIZE {
      var ptr2 := ptr + HEADER + size;
      ram' := ram'[ptr2 := Header(ram'[ptr].next, ptr, false)];
      ram' := ram'[ptr := ram'[ptr].(next := ptr2, used := true)];
      var next := ram'[ptr2].next;
      if next != memSize {
        ram' := ram'[next := ram'[next].(prev := ptr2)];
      }
      PairHolds(size, b[k].len - size - HEADER, ptr, Last(0, 0, a));
      PairLinked(ram', size, b[k].len - size - HEADER, ptr, Last(0, 0, a));
    } else {
      ram' := ram'[ptr := ram'[ptr].(used := true)];
      assert m'[1..] == [] && m[1..] == [];
    }
    Reshaped(ram, ram', memSize, a, m, m', c);
  }

  /** Moves lfree up to the next free block. */
  method NextFree(ram: seq<Header>, memSize: nat, start: nat, ghost b: seq<Block>, ghost start_k: nat)
    returns (lfree: nat)
    requires Shaped(ram, memSize, b) && start_k <= |b| && start == Len(b[..start_k])
    requires FirstFree(b[..start_k], 0) == start
    ensures lfree == FirstFree(b, 0)
  {
    lfree := start;
    ghost var k := start_k;
    CutAt(b, k);
    while ram[lfree].used && lfree != memSize
      invariant k <= |b| && lfree == Len(b[..k]) && lfree <= memSize && FirstFree(b[..k], 0) == lfree
      decreases |b| - k
    {
      CutAt(b, k);
      assert k < |b|;
      BlockAt(ram, memSize, b, k);
      SizedConcat(b[..k], b[k..]);
      FirstFreeConcat(b[..k], [b[k]], 0);
      lfree := ram[lfree].next;
      k := k + 1;
    }
    CutAt(b, k);
    SizedConcat(b[..k], b[k..]);
    FirstFreeConcat(b[..k], b[k..], 0);
    if lfree != memSize {
      BlockAt(ram, memSize, b, k);
    }
  }

  /** mem_malloc. It fails only for an empty request, for one that is bigger than the heap, and
      when no free block at all can hold the rounded request. */
  method MemMalloc(ram: seq<Header>, lfree: nat, memSize: nat, request: nat, ghost b: seq<Block>)
    returns (ram': seq<Header>, lfree': nat, p: Ptr, ghost b': seq<Block>)
    requires HeapOk(ram, lfree, memSize, b) && request <= 0xFFFF
    ensures HeapOk(ram', lfree', memSize, b')
    ensures p == Null <==> request == 0 || Rounded(request) > memSize || FirstFit(b, Rounded(request)) == |b|
    ensures p == Null ==> ram' == ram && lfree' == lfree && b' == b
    ensures p != Null ==>
      var k := FirstFit(b, Rounded(request));
      p == At(Len(b[..k]) + HEADER) && b' == Taken(b, k, Rounded(request))
  {
    ram', lfree', b' := ram, lfree, b;
    if request == 0 {
      return ram', lfree', Null, b';
    }
    var size := Rounded(request);
    RoundedCovers(request);
    if size > memSize {
      return ram', lfree', Null, b';
    }
    var found, ptr, k := Search(ram, lfree, memSize, size, b);
    if !found {
      return ram', lfree', Null, b';
    }
    ram' := Carve(ram, memSize, ptr, size, b, k);
    b' := Taken(b, k, size);
    TakenShape(b, k, size);
    TakenLowest(b, k, size);
    if ptr == lfree {
      lfree' := NextFree(ram', memSize, lfree, b', k);
    }
    p := At(ptr + HEADER);
  }

  lemma {:induction false} TakenLowest(b: seq<Block>, k: nat, size: nat)
    requires k < |b| && !b[k].used && size + HEADER <= b[k].len && Sized(b)
    requires size >= MIN_SIZE && size % ALIGNMENT == 0
    ensures var r := Taken(b, k, size);
      && r[..k] == b[..k]
      && (FirstFree(b, 0) == Len(b[..k]) ==> FirstFree(r[..k], 0) == Len(r[..k]))
      && (FirstFree(b, 0) != Len(b[..k]) ==> FirstFree(r, 0) == FirstFree(b, 0))
  {
    var a, c := b[..k], b[k + 1..];
    SplitAt(b, k);
    Join3(a, [b[k]], c);
    CarvedHolds(b[k], size, Len(a));
    FirstFree3(a, [b[k]], c);
    FirstFree3(a, Carved(b[k], size), c);
  }

  // ------------------------------------------------------------------- release

  /** The free blocks k and k + 1 made one. */
  function Merged(b: seq<Block>, k: nat): seq<Block>
    requires k + 1 < |b|
  {
    b[..k] + [Block(b[k].len + b[k + 1].len, false)] + b[k + 2..]
  }

  lemma {:induction false} SplitPair(b: seq<Block>, k: nat)
    requires k + 1 < |b|
    ensures b == b[..k] + [b[k], b[k + 1]] + b[k + 2..]
    ensures Len([b[k], b[k + 1]]) == b[k].len + b[k + 1].len
    ensures [b[k], b[k + 1]][1..] == [b[k + 1]]
  {
    assert [b[k], b[k + 1]][1..] == [b[k + 1]] && [b[k + 1]][1..] == [];
    assert Len([b[k + 1]]) == b[k + 1].len;
  }

  lemma {:induction false} MergedHolds(b: seq<Block>, k: nat)
    requires k + 1 < |b| && !b[k].used && !b[k + 1].used && Sized(b)
    ensures var r := Merged(b, k);
      Sized(r) && Len(r) == Len(b) && Live(r, 0) == Live(b, 0) && FirstFree(r, 0) == FirstFree(b, 0)
  {
    var a, m, m', c := b[..k], [b[k], b[k + 1]], [Block(b[k].len + b[k + 1].len, false)], b[k + 2..];
    SplitPair(b, k);
    Join3(a, m, c);
    Join3(a, m', c);
    Live3(a, m, c);
    Live3(a, m', c);
    assert Live(m[1..], Len(a) + b[k].len) == {} && Live(m, Len(a)) == {} && Live(m', Len(a)) == {};
    FirstFree3(a, m, c);
    FirstFree3(a, m', c);
  }

  /** Rewriting the next link of block k and the prev link of block k + 2 merges the two. */
  lemma {:induction false} Relink(ram: seq<Header>, ram': seq<Header>, memSize: nat, b: seq<Block>, k: nat)
    requires Shaped(ram, memSize, b) && k + 1 < |b| && !b[k].used && !b[k + 1].used
    requires var s := Len(b[..k]); var e := s + b[k].len + b[k + 1].len;
      s < |ram| && e < |ram| && ram' == ram[s := ram[s].(next := e)][e := ram[e].(prev := s)]
    ensures Shaped(ram', memSize, Merged(b, k))
  {
    var a, m, m', c := b[..k], [b[k], b[k + 1]], [Block(b[k].len + b[k + 1].len, false)], b[k + 2..];
    BlockAt(ram, memSize, b, k);
    BlockAt(ram, memSize, b, k + 1);
    SplitPair(b, k);
    assert m'[1..] == [];
    assert Last(Len(a), Last(0, 0, a), m') == Len(a);
    assert Linked(ram', Len(a), Last(0, 0, a), m');
    Reshaped(ram, ram', memSize, a, m, m', c);
  }

  function Freed(b: seq<Block>, k: nat): seq<Block>
    requires k < |b|
  {
    b[..k] + [Block(b[k].len, false)] + b[k + 1..]
  }

  /** The blocks after block k is freed and merged with free neighbours on either side. */
  function Released(b: seq<Block>, k: nat): seq<Block>
    requires k < |b|
  {
    var f := Freed(b, k);
    var g := if k + 1 < |f| && !f[k + 1].used then Merged(f, k) else f;
    if k > 0 && !g[k - 1].used then Merged(g, k - 1) else g
  }

  lemma {:induction false} FreedHolds(b: seq<Block>, k: nat)
    requires k < |b| && b[k].used && Sized(b)
    ensures var r, o := Freed(b, k), Len(b[..k]);
      && Sized(r) && Len(r) == Len(b)
      && FirstFree(r, 0) == if o < FirstFree(b, 0) then o else FirstFree(b, 0)
  {
    var a, m, m', c := b[..k], [b[k]], [Block(b[k].len, false)], b[k + 1..];
    SplitAt(b, k);
    Join3(a, m, c);
    Join3(a, m', c);
    FirstFree3(a, m, c);
    FirstFree3(a, m', c);
    FirstFreeConcat(c, [], Len(a) + Len(m));
  }

  /** Freeing takes exactly the block's room off the live ones. */
  lemma {:induction false} FreedLive(b: seq<Block>, k: nat)
    requires k < |b| && b[k].used && Sized(b)
    ensures Live(Freed(b, k), 0) == Live(b, 0) - {(Len(b[..k]) + HEADER, b[k].len - HEADER)}
  {
    var a, m, m', c := b[..k], [b[k]], [Block(b[k].len, false)], b[k + 1..];
    SplitAt(b, k);
    Join3(a, m, c);
    Live3(a, m, c);
    Live3(a, m', c);
    LiveBounds(a, 0);
    LiveBounds(c, Len(a) + b[k].len);
    assert m[1..] == [] && m'[1..] == [];
  }

  /** Neighbours of the freed block apart, no two free blocks were adjacent, and merging with
      both neighbours leaves none. */
  lemma {:induction false} ReleasedCoalesced(b: seq<Block>, k: nat)
    requires k < |b| && b[k].used && Coalesced(b)
    ensures Coalesced(Released(b, k))
  {
    CoalescedAt(b);
    var lo, hi := ReleasedIs(b, k);
    var r := Released(b, k);
    assert b == b[..lo] + b[lo..hi] + b[hi..];
    assert b[lo..hi] != [] && [r[lo]] != [];
    Join3(b[..lo], b[lo..hi], b[hi..]);
    Join3(b[..lo], [r[lo]], b[hi..]);
  }

  lemma {:induction false} MergedIs(a: seq<Block>, x: Block, c: seq<Block>)
    ensures c != [] ==> Merged(a + [x] + c, |a|) == a + [Block(x.len + c[0].len, false)] + c[1..]
    ensures a != [] ==>
      var n := |a| - 1;
      (a + [x] + c)[n] == a[n] && Merged(a + [x] + c, n) == a[..n] + [Block(a[n].len + x.len, false)] + c
  {
  }

  lemma {:induction false} ReleasedIs(b: seq<Block>, k: nat) returns (lo: nat, hi: nat)
    requires k < |b|
    ensures lo == if k > 0 && !b[k - 1].used then k - 1 else k
    ensures hi == if k + 1 < |b| && !b[k + 1].used then k + 2 else k + 1
    ensures var r := Released(b, k);
      |r| > lo && !r[lo].used && r == b[..lo] + [r[lo]] + b[hi..]
  {
    lo := if k > 0 && !b[k - 1].used then k - 1 else k;
    var x;
    hi, x := ForwardIs(b, k);
    MergedIs(b[..k], x, b[hi..]);
    if lo < k {
      assert b[..k][..lo] == b[..lo];
    }
  }

  lemma {:induction false} ForwardIs(b: seq<Block>, k: nat) returns (hi: nat, x: Block)
    requires k < |b|
    ensures hi == if k + 1 < |b| && !b[k + 1].used then k + 2 else k + 1
    ensures !x.used
    ensures var f := Freed(b, k);
      (if k + 1 < |f| && !f[k + 1].used then Merged(f, k) else f) == b[..k] + [x] + b[hi..]
  {
    x, hi := Block(b[k].len, false), k + 1;
    var c := b[k + 1..];
    if k + 1 < |b| {
      assert Freed(b, k)[k + 1] == b[k + 1];
      if !b[k + 1].used {
        MergedIs(b[..k], x, c);
        assert c[1..] == b[k + 2..];
        x, hi := Block(x.len + c[0].len, false), k + 2;
      }
    }
  }

  lemma {:induction false} CoalescedAt(b: seq<Block>)
    requires Coalesced(b)
    ensures forall i | 0 < i < |b| :: b[i - 1].used || b[i].used
  {
    if |b| > 1 {
      CoalescedAt(b[1..]);
      forall i | 0 < i < |b| ensures b[i - 1].used || b[i].used {
        if i > 1 {
          assert b[1..][i - 2].used || b[1..][i - 1].used;
        }
      }
    }
  }

  /** plug_holes on the free block k at offset mem. */
  method PlugHoles(ram: seq<Header>, lfree: nat, memSize: nat, mem: nat, ghost b: seq<Block>, ghost k: nat)
    returns (ram': seq<Header>, lfree': nat, ghost b': seq<Block>)
    requires Shaped(ram, memSize, b) && k < |b| && !b[k].used && mem == Len(b[..k]) && lfree == FirstFree(b, 0)
    ensures Shaped(ram', memSize, b') && lfree' == FirstFree(b', 0)
    ensures b' ==
      var g := if k + 1 < |b| && !b[k + 1].used then Merged(b, k) else b;
      if k > 0 && !g[k - 1].used then Merged(g, k - 1) else g
    ensures Live(b', 0) == Live(b, 0)
  {
    ram', lfree', b' := ram, lfree, b;
    BlockAt(ram, memSize, b, k);
    FirstFreeBefore(b, k);
    var nmem := ram'[mem].next;
    if mem != nmem && !ram'[nmem].used && nmem != memSize {
      BlockAt(ram, memSize, b, k + 1);
      if lfree' == nmem {
        lfree' := mem;
      }
      ram' := ram'[mem := ram'[mem].(next := ram'[nmem].next)];
      ram' := ram'[ram'[nmem].next := ram'[ram'[nmem].next].(prev := mem)];
      Relink(ram, ram', memSize, b, k);
      MergedHolds(b, k);
      b' := Merged(b, k);
      assert b'[..k] == b[..k];
    }
    ram', lfree', b' := PlugBackward(ram', lfree', memSize, mem, b', k);
  }

  method PlugBackward(ram: seq<Header>, lfree: nat, memSize: nat, mem: nat, ghost b: seq<Block>, ghost k: nat)
    returns (ram': seq<Header>, lfree': nat, ghost b': seq<Block>)
    requires Shaped(ram, memSize, b) && k < |b| && !b[k].used && mem == Len(b[..k]) && lfree == FirstFree(b, 0)
    ensures Shaped(ram', memSize, b') && lfree' == FirstFree(b', 0)
    ensures b' == if k > 0 && !b[k - 1].used then Merged(b, k - 1) else b
    ensures Live(b', 0) == Live(b, 0)
  {
    ram', lfree', b' := ram, lfree, b;
    BlockAt(ram, memSize, b, k);
    var pmem := ram'[mem].prev;
    if k > 0 {
      BlockAt(ram, memSize, b, k - 1);
      FirstFreeBefore(b, k - 1);
    }
    if pmem != mem && !ram'[pmem].used {
      if lfree' == mem {
        lfree' := pmem;
      }
      ram' := ram'[pmem := ram'[pmem].(next := ram'[mem].next)];
      ram' := ram'[ram'[mem].next := ram'[ram'[mem].next].(prev := pmem)];
      Relink(ram, ram', memSize, b, k - 1);
      MergedHolds(b, k - 1);
      b' := Merged(b, k - 1);
    }
  }

  /** A free block bounds the lowest free one. */
  lemma {:induction false} FirstFreeBefore(b: seq<Block>, k: nat)
    requires k < |b| && Sized(b)
    ensures !b[k].used ==> FirstFree(b, 0) <= Len(b[..k])
  {
    SplitAt(b, k);
    Join3(b[..k], [b[k]], b[k + 1..]);
    FirstFree3(b[..k], [b[k]], b[k + 1..]);
  }

  /** Every live address belongs to one block. */
  lemma {:induction false} FindLive(b: seq<Block>, o: nat, q: (int, int)) returns (k: nat)
    requires q in Live(b, o)
    ensures k < |b| && b[k].used && q == (o + Len(b[..k]) + HEADER, b[k].len - HEADER)
    decreases b
  {
    if b[0].used && q == (o + HEADER, b[0].len - HEADER) {
      k := 0;
    } else {
      k := FindLive(b[1..], o + b[0].len, q);
      k := k + 1;
      assert b[..k][1..] == b[1..][..k - 1];
    }
  }

  /** mem_free: nothing happens to a pointer that is null or outside the heap; a live block stops
      being live, and only that one. */
  method MemFree(ram: seq<Header>, lfree: nat, memSize: nat, p: Ptr, ghost room: int, ghost b: seq<Block>)
    returns (ram': seq<Header>, lfree': nat, ghost b': seq<Block>)
    requires HeapOk(ram, lfree, memSize, b)
    requires p.At? && 0 <= p.off < memSize ==> (p.off, room) in Live(b, 0)
    ensures HeapOk(ram', lfree', memSize, b')
    ensures p.At? && 0 <= p.off < memSize ==> Live(b', 0) == Live(b, 0) - {(p.off, room)}
    ensures !(p.At? && 0 <= p.off < memSize) ==> ram' == ram && lfree' == lfree && b' == b
  {
    ram', lfree', b' := ram, lfree, b;
    if p == Null || p.off < 0 || p.off >= memSize {
      return;
    }
    ghost var k := FindLive(b, 0, (p.off, room));
    FreedLive(b, k);
    ram', lfree', b' := FreeBlock(ram, lfree, memSize, p.off - HEADER, b, k);
  }

  method FreeBlock(ram: seq<Header>, lfree: nat, memSize: nat, mem: nat, ghost b: seq<Block>, ghost k: nat)
    returns (ram': seq<Header>, lfree': nat, ghost b': seq<Block>)
    requires HeapOk(ram, lfree, memSize, b) && k < |b| && b[k].used && mem == Len(b[..k])
    ensures HeapOk(ram', lfree', memSize, b')
    ensures b' == Released(b, k) && Live(b', 0) == Live(Freed(b, k), 0)
  {
    BlockAt(ram, memSize, b, k);
    ram' := ram[mem := ram[mem].(used := false)];
    FreedShape(ram, ram', memSize, b, k);
    lfree' := lfree;
    if mem < lfree' {
      lfree' := mem;
    }
    ram', lfree', b' := PlugHoles(ram', lfree', memSize, mem, Freed(b, k), k);
  }

  lemma {:induction false} FreedShape(ram: seq<Header>, ram': seq<Header>, memSize: nat, b: seq<Block>, k: nat)
    requires Shaped(ram, memSize, b) && Coalesced(b) && k < |b| && b[k].used
    requires var s := Len(b[..k]); s < |ram| && ram' == ram[s := ram[s].(used := false)]
    ensures Shaped(ram', memSize, Freed(b, k)) && Coalesced(Released(b, k))
    ensures var f, o := Freed(b, k), Len(b[..k]);
      && |f| == |b| && !f[k].used && Len(f[..k]) == o
      && FirstFree(f, 0) == if o < FirstFree(b, 0) then o else FirstFree(b, 0)
  {
    FreedHolds(b, k);
    FreedLinked(ram, ram', memSize, b, k);
    ReleasedCoalesced(b, k);
    assert Freed(b, k)[..k] == b[..k];
  }

  lemma {:induction false} FreedLinked(ram: seq<Header>, ram': seq<Header>, memSize: nat, b: seq<Block>, k: nat)
    requires Shaped(ram, memSize, b) && k < |b|
    requires var s := Len(b[..k]); s < |ram| && ram' == ram[s := ram[s].(used := false)]
    ensures Shaped(ram', memSize, Freed(b, k))
  {
    var a, m, m', c := b[..k], [b[k]], [Block(b[k].len, false)], b[k + 1..];
    BlockAt(ram, memSize, b, k);
    SplitAt(b, k);
    assert m[1..] == [] && m'[1..] == [];
    Reshaped(ram, ram', memSize, a, m, m', c);
  }

  /** A heap with nothing live is the single free block it started as. */
  lemma {:induction false} NothingLive(b: seq<Block>, o: nat)
    requires Sized(b) && Coalesced(b) && Len(b) > 0 && Live(b, o) == {}
    ensures b == [Block(Len(b), false)]
  {
    LiveFirst(b, o);
    LiveFirst(b[1..], o + b[0].len);
    assert |b| == 1;
    assert b[1..] == [];
  }

  lemma {:induction false} LiveFirst(b: seq<Block>, o: nat)
    ensures Live(b, o) == {} && b != [] ==> !b[0].used
  {
    if b != [] && b[0].used {
      assert (o + HEADER, b[0].len - HEADER) in Live(b, o);
    }
  }

  // ---------------------------------------------------------------- shrinking

  /** mem_trim on block k: the blocks afterwards. */
  function Trimmed(b: seq<Block>, k: nat, room: nat): seq<Block>
    requires k < |b| && room + HEADER <= b[k].len
  {
    if room + HEADER == b[k].len then b
    else if k + 1 < |b| && !b[k + 1].used then
      b[..k] + Pair(room, b[k].len + b[k + 1].len - HEADER - room) + b[k + 2..]
    else if room + HEADER + MIN_SIZE <= b[k].len - HEADER then
      b[..k] + Pair(room, b[k].len - HEADER - room) + b[k + 1..]
    else b
  }

  /** The room the block keeps. */
  function RoomKept(b: seq<Block>, k: nat, room: nat): (r: nat)
    requires k < |b| && room + HEADER <= b[k].len
    ensures room <= r <= b[k].len - HEADER && r < room + HEADER + MIN_SIZE
  {
    if (k + 1 < |b| && !b[k + 1].used) || room + HEADER + MIN_SIZE <= b[k].len - HEADER then room
    else b[k].len - HEADER
  }

  lemma {:induction false} PairSwap(a: seq<Block>, m: seq<Block>, room: nat, rest: nat, c: seq<Block>)
    requires Sized(a + m + c) && m != [] && Len(m) == room + HEADER + rest
    requires room >= MIN_SIZE && room % ALIGNMENT == 0 && rest >= HEADER + MIN_SIZE
    ensures rest % ALIGNMENT == 0
    ensures var r := a + Pair(room, rest) + c;
      && Sized(r) && Len(r) == Len(a + m + c)
      && (Coalesced(a + m + c) && (c == [] || c[0].used) && m[0].used ==> Coalesced(r))
      && Live(r, 0) == Live(a, 0) + {(Len(a) + HEADER, room)} + Live(c, Len(a) + Len(m))
  {
    Join3(a, m, c);
    Aligned(m);
    PairHolds(room, rest, Len(a), 0);
    Join3(a, Pair(room, rest), c);
    Live3(a, Pair(room, rest), c);
  }

  /** Shrinking changes the room of one live block and leaves all others as they are. */
  lemma {:induction false} TrimmedHolds(b: seq<Block>, k: nat, room: nat)
    requires k < |b| && b[k].used && Sized(b) && Coalesced(b)
    requires room + HEADER <= b[k].len && room >= MIN_SIZE && room % ALIGNMENT == 0
    ensures var r := Trimmed(b, k, room); Sized(r) && Coalesced(r) && Len(r) == Len(b)
  {
    var a := b[..k];
    CoalescedAt(b);
    if room + HEADER == b[k].len {
    } else if k + 1 < |b| && !b[k + 1].used {
      SplitPair(b, k);
      Join3(a, [b[k], b[k + 1]], b[k + 2..]);
      PairSwap(a, [b[k], b[k + 1]], room, b[k].len + b[k + 1].len - HEADER - room, b[k + 2..]);
    } else if room + HEADER + MIN_SIZE <= b[k].len - HEADER {
      SplitAt(b, k);
      PairSwap(a, [b[k]], room, b[k].len - HEADER - room, b[k + 1..]);
    }
  }

  lemma {:induction false} TrimmedLive(b: seq<Block>, k: nat, room: nat)
    requires k < |b| && b[k].used && Sized(b)
    requires room + HEADER <= b[k].len && room >= MIN_SIZE && room % ALIGNMENT == 0
    ensures var off := Len(b[..k]) + HEADER;
      Live(Trimmed(b, k, room), 0) ==
      Live(b, 0) - {(off, b[k].len - HEADER)} + {(off, RoomKept(b, k, room))}
  {
    var off := Len(b[..k]) + HEADER;
    var la, lc := Live(b[..k], 0), Live(b[k + 1..], Len(b[..k]) + b[k].len);
    LiveWithout(b, k);
    OneOut(la, lc, (off, b[k].len - HEADER), (off, RoomKept(b, k, room)));
    TrimmedParts(b, k, room);
  }

  /** In front of the shortened block and behind it the live blocks are what they were. */
  lemma {:induction false} TrimmedParts(b: seq<Block>, k: nat, room: nat)
    requires k < |b| && b[k].used && Sized(b)
    requires room + HEADER <= b[k].len && room >= MIN_SIZE && room % ALIGNMENT == 0
    ensures var la, lc := Live(b[..k], 0), Live(b[k + 1..], Len(b[..k]) + b[k].len);
      Live(Trimmed(b, k, room), 0) == la + {(Len(b[..k]) + HEADER, RoomKept(b, k, room))} + lc
  {
    var a := b[..k];
    SplitAt(b, k);
    LiveWithout(b, k);
    if room + HEADER == b[k].len {
    } else if k + 1 < |b| && !b[k + 1].used {
      SplitPair(b, k);
      Join3(a, [b[k], b[k + 1]], b[k + 2..]);
      PairSwap(a, [b[k], b[k + 1]], room, b[k].len + b[k + 1].len - HEADER - room, b[k + 2..]);
      LiveSkips(b, k, Len(a));
    } else if room + HEADER + MIN_SIZE <= b[k].len - HEADER {
      assert Len([b[k]]) == b[k].len;
      PairSwap(a, [b[k]], room, b[k].len - HEADER - room, b[k + 1..]);
    }
  }

  lemma {:induction false} LiveSkips(b: seq<Block>, k: nat, o: nat)
    requires k + 1 < |b| && !b[k + 1].used
    ensures Live(b[k + 1..], o + b[k].len) == Live(b[k + 2..], o + Len([b[k], b[k + 1]]))
  {
    SplitPair(b, k);
    assert b[k + 1..][1..] == b[k + 2..];
  }

  lemma {:induction false} LiveWithout(b: seq<Block>, k: nat)
    requires k < |b| && b[k].used && Sized(b)
    ensures var q := (Len(b[..k]) + HEADER, b[k].len - HEADER);
      var la, lc := Live(b[..k], 0), Live(b[k + 1..], Len(b[..k]) + b[k].len);
      Live(b, 0) == la + {q} + lc && q !in la && q !in lc
  {
    SplitAt(b, k);
    var a, m, c := b[..k], [b[k]], b[k + 1..];
    Live3(a, m, c);
    Join3(a, m, c);
    LiveBounds(a, 0);
    LiveBounds(c, Len(a) + b[k].len);
    assert m[1..] == [];
  }

  lemma {:induction false} OneOut(x: set<(int, int)>, y: set<(int, int)>, q: (int, int), r: (int, int))
    requires q !in x && q !in y
    ensures x + {q} + y - {q} + {r} == x + {r} + y
  {
  }

  lemma {:induction false} MovedLowest(b: seq<Block>, k: nat, room: nat)
    requires k + 1 < |b| && b[k].used && !b[k + 1].used && Sized(b)
    requires room + HEADER < b[k].len && room >= MIN_SIZE && room % ALIGNMENT == 0
    ensures var ptr2, lfree := Len(b[..k]) + HEADER + room, FirstFree(b, 0);
      FirstFree(Trimmed(b, k, room), 0) == if lfree == Len(b[..k]) + b[k].len then ptr2 else lfree
  {
    var a, m, c := b[..k], [b[k], b[k + 1]], b[k + 2..];
    SplitPair(b, k);
    Join3(a, m, c);
    Aligned(m);
    assert m == Pair(b[k].len - HEADER, b[k + 1].len);
    MovedPair(a, b[k].len - HEADER, b[k + 1].len, room, b[k].len + b[k + 1].len - HEADER - room, c);
  }

  lemma {:induction false} MovedPair(a: seq<Block>, room: nat, rest: nat, room': nat, rest': nat, c: seq<Block>)
    requires Sized(a) && Sized(Pair(room, rest)) && room % ALIGNMENT == 0 && room >= MIN_SIZE
    requires room' + rest' == room + rest && MIN_SIZE <= room' < room && room' % ALIGNMENT == 0
    requires rest >= HEADER + MIN_SIZE && rest % ALIGNMENT == 0
    ensures var lfree := FirstFree(a + Pair(room, rest) + c, 0);
      FirstFree(a + Pair(room', rest') + c, 0) ==
      if lfree == Len(a) + HEADER + room then Len(a) + HEADER + room' else lfree
  {
    LowestInPair(room, rest, a, c);
    LowestInPair(room', rest', a, c);
    FirstFreeConcat(a, [], 0);
  }

  lemma {:induction false} SplitLowest(b: seq<Block>, k: nat, room: nat)
    requires k < |b| && b[k].used && Sized(b)
    requires room + 2 * HEADER + MIN_SIZE <= b[k].len && room >= MIN_SIZE && room % ALIGNMENT == 0
    ensures var r, ptr2, lfree := b[..k] + Pair(room, b[k].len - HEADER - room) + b[k + 1..],
        Len(b[..k]) + HEADER + room, FirstFree(b, 0);
      FirstFree(r, 0) == if ptr2 < lfree then ptr2 else lfree
  {
    var a, c := b[..k], b[k + 1..];
    SplitAt(b, k);
    Join3(a, [b[k]], c);
    FirstFree3(a, [b[k]], c);
    FirstFreeConcat(c, [], Len(a) + b[k].len);
    LowestInPair(room, b[k].len - HEADER - room, a, c);
  }

  lemma {:induction false} TrimmedLowest(b: seq<Block>, k: nat, room: nat)
    requires k < |b| && b[k].used && Sized(b)
    requires room + HEADER < b[k].len && room >= MIN_SIZE && room % ALIGNMENT == 0
    ensures FirstFree(Trimmed(b, k, room), 0) == LowestAfterTrim(b, k, room, FirstFree(b, 0))
  {
    if k + 1 < |b| && !b[k + 1].used {
      MovedLowest(b, k, room);
    } else if room + HEADER + MIN_SIZE <= b[k].len - HEADER {
      SplitLowest(b, k, room);
    }
  }

  /** What mem_trim does to lfree. */
  function LowestAfterTrim(b: seq<Block>, k: nat, room: nat, lfree: nat): nat
    requires k < |b|
  {
    var ptr2 := Len(b[..k]) + HEADER + room;
    if k + 1 < |b| && !b[k + 1].used then (if lfree == Len(b[..k]) + b[k].len then ptr2 else lfree)
    else if room + HEADER + MIN_SIZE <= b[k].len - HEADER && ptr2 < lfree then ptr2
    else lfree
  }

  lemma {:induction false} LowestInPair(room: nat, rest: nat, a: seq<Block>, c: seq<Block>)
    requires Sized(a)
    requires room >= MIN_SIZE && room % ALIGNMENT == 0 && rest >= HEADER + MIN_SIZE && rest % ALIGNMENT == 0
    ensures FirstFree(a + Pair(room, rest) + c, 0) ==
      if FirstFree(a, 0) < Len(a) then FirstFree(a, 0) else Len(a) + HEADER + room
  {
    var m := Pair(room, rest);
    PairHolds(room, rest, Len(a), 0);
    assert m[1..] == [m[1]];
    FirstFree3(a, m, c);
  }

  /** The header writes of mem_trim that put a free block of the remaining size behind `room`. */
  method Shrink(ram: seq<Header>, memSize: nat, ptr: nat, room: nat, next: nat,
                ghost rest: nat, ghost a: seq<Block>, ghost m: seq<Block>, ghost c: seq<Block>)
    returns (ram': seq<Header>)
    requires Shaped(ram, memSize, a + m + c) && m != [] && m[0].used && ptr == Len(a) && next == ptr + Len(m)
    requires room >= MIN_SIZE && room % ALIGNMENT == 0 && Len(m) == room + HEADER + rest && rest >= HEADER + MIN_SIZE
    ensures Shaped(ram', memSize, a + Pair(room, rest) + c)
  {
    PairSwap(a, m, room, rest, c);
    Join3(a, m, c);
    Linked3(ram, a, m, c);
    var ptr2 := ptr + HEADER + room;
    ram' := ram[ptr2 := Header(next, ptr, false)];
    ram' := ram'[ptr := ram'[ptr].(next := ptr2)];
    if next != memSize {
      ram' := ram'[next := ram'[next].(prev := ptr2)];
    }
    PairHolds(room, rest, ptr, Last(0, 0, a));
    PairLinked(ram', room, rest, ptr, Last(0, 0, a));
    Reshaped(ram, ram', memSize, a, m, Pair(room, rest), c);
  }

  /** The allocation at off keeps its address and at least `size` bytes; no other one changes. */
  ghost predicate ShrunkTo(before: set<(int, int)>, after: set<(int, int)>, off: int, room: int, size: nat) {
    exists kept ::
      size <= kept <= room && kept < size + HEADER + MIN_SIZE && after == before - {(off, room)} + {(off, kept)}
  }

  /** mem_trim. It gives up when the rounded size is bigger than the heap or than the block, and
      otherwise keeps at least the rounded size at the same address. */
  method MemTrim(ram: seq<Header>, lfree: nat, memSize: nat, p: Ptr, request: nat, ghost room: int, ghost b: seq<Block>)
    returns (ram': seq<Header>, lfree': nat, r: Ptr, ghost b': seq<Block>)
    requires HeapOk(ram, lfree, memSize, b) && request <= 0xFFFF
    requires p.At? && 0 <= p.off < memSize ==> (p.off, room) in Live(b, 0)
    ensures HeapOk(ram', lfree', memSize, b')
    ensures
      var size := Rounded(request);
      if size > memSize then r == Null && ram' == ram && lfree' == lfree && b' == b
      else if p == Null || p.off < 0 || p.off >= memSize then r == p && ram' == ram && lfree' == lfree && b' == b
      else if size > room then r == Null && ram' == ram && lfree' == lfree && b' == b
      else r == p && ShrunkTo(Live(b, 0), Live(b', 0), p.off, room, size)
  {
    ram', lfree', b' := ram, lfree, b;
    var newsize := Rounded(request);
    RoundedCovers(request);
    if newsize > memSize {
      return ram', lfree', Null, b';
    }
    if p == Null || p.off < 0 || p.off >= memSize {
      return ram', lfree', p, b';
    }
    ghost var k := FindLive(b, 0, (p.off, room));
    BlockAt(ram, memSize, b, k);
    var ptr: nat := p.off - HEADER;
    var size := ram'[ptr].next - ptr - HEADER;
    if newsize > size {
      return ram', lfree', Null, b';
    }
    b' := Trimmed(b, k, newsize);
    TrimmedHolds(b, k, newsize);
    TrimmedLive(b, k, newsize);
    if newsize == size {
      return ram', lfree', p, b';
    }
    TrimmedLowest(b, k, newsize);
    ram', lfree' := TrimTail(ram', lfree', memSize, ptr, newsize, b, k);
    r := p;
  }

  /** The second half of mem_trim, once the block is known to be longer than wanted. */
  method TrimTail(ram: seq<Header>, lfree: nat, memSize: nat, ptr: nat, newsize: nat, ghost b: seq<Block>, ghost k: nat)
    returns (ram': seq<Header>, lfree': nat)
    requires Shaped(ram, memSize, b) && k < |b| && b[k].used && ptr == Len(b[..k])
    requires newsize >= MIN_SIZE && newsize % ALIGNMENT == 0 && newsize + HEADER < b[k].len
    ensures Shaped(ram', memSize, Trimmed(b, k, newsize))
    ensures lfree' == LowestAfterTrim(b, k, newsize, lfree)
  {
    ram', lfree' := ram, lfree;
    BlockAt(ram, memSize, b, k);
    var mem2, ptr2 := ram'[ptr].next, ptr + HEADER + newsize;
    var size := mem2 - ptr - HEADER;
    if !ram'[mem2].used {
      if lfree' == mem2 {
        lfree' := ptr2;
      }
      ram' := TrimMerge(ram', memSize, ptr, mem2, newsize, b, k);
    } else if newsize + HEADER + MIN_SIZE <= size {
      if ptr2 < lfree' {
        lfree' := ptr2;
      }
      ram' := TrimSplit(ram', memSize, ptr, mem2, newsize, b, k);
    }
  }

  /** What is cut off goes to the free block behind. */
  method TrimMerge(ram: seq<Header>, memSize: nat, ptr: nat, mem2: nat, newsize: nat, ghost b: seq<Block>, ghost k: nat)
    returns (ram': seq<Header>)
    requires Shaped(ram, memSize, b) && k + 1 < |b| && b[k].used && !b[k + 1].used && ptr == Len(b[..k])
    requires mem2 == ptr + b[k].len < |ram|
    requires newsize >= MIN_SIZE && newsize % ALIGNMENT == 0 && newsize + HEADER < b[k].len
    ensures Shaped(ram', memSize, Trimmed(b, k, newsize))
  {
    TrimSplits(ram, memSize, b, k, newsize);
    ghost var rest := b[k].len + b[k + 1].len - HEADER - newsize;
    ram' := Shrink(ram, memSize, ptr, newsize, ram[mem2].next, rest, b[..k], [b[k], b[k + 1]], b[k + 2..]);
  }

  /** What is cut off becomes a free block. */
  method TrimSplit(ram: seq<Header>, memSize: nat, ptr: nat, mem2: nat, newsize: nat, ghost b: seq<Block>, ghost k: nat)
    returns (ram': seq<Header>)
    requires Shaped(ram, memSize, b) && k < |b| && b[k].used && (k + 1 < |b| ==> b[k + 1].used) && ptr == Len(b[..k])
    requires mem2 == ptr + b[k].len
    requires newsize >= MIN_SIZE && newsize % ALIGNMENT == 0 && newsize + HEADER + MIN_SIZE <= b[k].len - HEADER
    ensures Shaped(ram', memSize, Trimmed(b, k, newsize))
  {
    SplitAt(b, k);
    assert Len([b[k]]) == b[k].len;
    ghost var rest := b[k].len - HEADER - newsize;
    ram' := Shrink(ram, memSize, ptr, newsize, mem2, rest, b[..k], [b[k]], b[k + 1..]);
  }

  lemma {:induction false} TrimSplits(ram: seq<Header>, memSize: nat, b: seq<Block>, k: nat, room: nat)
    requires Shaped(ram, memSize, b) && k + 1 < |b| && room % ALIGNMENT == 0 && room + HEADER < b[k].len
    ensures var o, m := Len(b[..k]), [b[k], b[k + 1]];
      && b == b[..k] + m + b[k + 2..]
      && 0 <= o + b[k].len < |ram| && ram[o + b[k].len].next == o + Len(m)
      && Len(m) == b[k].len + b[k + 1].len && Len(m) >= room + 2 * HEADER + MIN_SIZE
  {
    BlockAt(ram, memSize, b, k);
    BlockAt(ram, memSize, b, k + 1);
    SplitPair(b, k);
  }

  // ---------------------------------------------------------------- the module

  /** The heap with its state: the headers in ram and the cached lowest free block. */
  class MemHeap {
    const memSize: nat
    var ram: seq<Header>
    var lfree: nat
    ghost var blocks: seq<Block>

    ghost predicate Valid() reads this {
      HeapOk(ram, lfree, memSize, blocks)
    }

    /** Address and room of every allocation. */
    ghost function Allocations(): set<(int, int)> reads this {
      Live(blocks, 0)
    }

    /** mem_init, over whatever the memory held before. */
    constructor (size: nat, memory: seq<Header>)
      requires HEADER + MIN_SIZE <= size <= 64000 && size % ALIGNMENT == 0 && |memory| == size + 1
      ensures Valid() && memSize == size && Allocations() == {}
    {
      memSize := size;
      ram := memory[0 := Header(size, 0, false)][size := Header(size, size, true)];
      lfree := 0;
      blocks := [Block(size, false)];
      new;
      assert blocks[1..] == [] && Live(blocks[1..], size) == {};
      assert Linked(ram, 0, 0, blocks);
    }

    method Malloc(request: nat) returns (p: Ptr)
      requires Valid() && request <= 0xFFFF
      modifies this
      ensures Valid()
      ensures p == Null <==>
        request == 0 || Rounded(request) > memSize || old(FirstFit(blocks, Rounded(request)) == |blocks|)
      ensures p == Null ==> Allocations() == old(Allocations())
      ensures p != Null ==> p.off % ALIGNMENT == 0 && exists room ::
        && Rounded(request) <= room && 0 <= p.off && p.off + room <= memSize
        && Allocations() == old(Allocations()) + {(p.off, room)}
        && forall q | q in old(Allocations()) :: q.0 + q.1 <= p.off || p.off + room <= q.0
    {
      ghost var b := blocks;
      ram, lfree, p, blocks := MemMalloc(ram, lfree, memSize, request, blocks);
      if p != Null {
        RoundedCovers(request);
        ghost var k := FirstFit(b, Rounded(request));
        TakenLive(b, k, Rounded(request));
        AllocationFits(b, k, memSize);
      }
    }

    method Free(p: Ptr, ghost room: int)
      requires Valid()
      requires p.At? && 0 <= p.off < memSize ==> (p.off, room) in Allocations()
      modifies this
      ensures Valid()
      ensures Allocations() ==
        if p.At? && 0 <= p.off < memSize then old(Allocations()) - {(p.off, room)} else old(Allocations())
    {
      ram, lfree, blocks := MemFree(ram, lfree, memSize, p, room, blocks);
    }

    method Trim(p: Ptr, request: nat, ghost room: int) returns (r: Ptr)
      requires Valid() && request <= 0xFFFF
      requires p.At? && 0 <= p.off < memSize ==> (p.off, room) in Allocations()
      modifies this
      ensures Valid()
      ensures
        var size := Rounded(request);
        if size > memSize then r == Null && Allocations() == old(Allocations())
        else if p == Null || p.off < 0 || p.off >= memSize then r == p && Allocations() == old(Allocations())
        else if size > room then r == Null && Allocations() == old(Allocations())
        else r == p && ShrunkTo(old(Allocations()), Allocations(), p.off, room, size)
    {
      ram, lfree, r, blocks := MemTrim(ram, lfree, memSize, p, request, room, blocks);
    }
  }

  lemma {:induction false} AllocationFits(b: seq<Block>, k: nat, memSize: nat)
    requires Sized(b) && k < |b| && Len(b) == memSize
    ensures Len(b[..k]) + b[k].len <= memSize && Len(b[..k]) % ALIGNMENT == 0
  {
    SplitAt(b, k);
    Join3(b[..k], [b[k]], b[k + 1..]);
    Aligned(b[..k]);
  }

  /** Once everything has been freed the heap is what mem_init made it: one free block, found
      first by the next allocation. */
  lemma {:induction false} AllFreed(h: MemHeap)
    requires h.Valid() && h.Allocations() == {}
    ensures h.blocks == [Block(h.memSize, false)] && h.lfree == 0
    ensures h.ram[0] == Header(h.memSize, 0, false)
  {
    NothingLive(h.blocks, 0);
    assert h.blocks[0] == Block(h.memSize, false);
  }
}
