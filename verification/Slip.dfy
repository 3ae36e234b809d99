/** SLIP framing: the encoder of slipif_output over a pbuf chain and the byte-wise decoder of
    slipif_input, which collects a packet in pool pbufs. */
module Slip {
  import opened Words
  import opened Options
  import PbufCopy

  const END: byte := 0xC0
  const ESC: byte := 0xDB
  const ESC_END: byte := 0xDC
  const ESC_ESC: byte := 0xDD
  const MAX_SIZE: nat := 1500
  const BUF: nat := 1484          // PBUF_POOL_BUFSIZE - PBUF_LINK_HLEN

  // ------------------------------------------------------------------- encoder

  function Escaped(b: byte): seq<byte> {
    if b == END then [ESC, ESC_END] else if b == ESC then [ESC, ESC_ESC] else [b]
  }

  function Stuffed(b: seq<byte>): seq<byte> {
    if b == [] then [] else Escaped(b[0]) + Stuffed(b[1..])
  }

  /** The frame of one packet. */
  function Frame(b: seq<byte>): seq<byte> {
    [END] + Stuffed(b) + [END]
  }

  function Frames(p: seq<seq<byte>>): seq<byte> {
    if p == [] then [] else Frame(p[0]) + Frames(p[1..])
  }

  lemma {:induction false} StuffedConcat(a: seq<byte>, b: seq<byte>)
    ensures Stuffed(a + b) == Stuffed(a) + Stuffed(b)
  {
    if a == [] {
      assert a + b == b;
    } else {
      assert (a + b)[1..] == a[1..] + b;
      StuffedConcat(a[1..], b);
    }
  }

  /** On the line the END byte only stands at both ends of a frame, and the two special bytes are
      escaped as in RFC 1055. */
  lemma {:induction false} EndsOnly(b: seq<byte>)
    ensures forall i | 0 <= i < |Stuffed(b)| :: Stuffed(b)[i] != 0xC0
  {
    if b != [] {
      EndsOnly(b[1..]);
      var e := Escaped(b[0]);
      assert Stuffed(b) == e + Stuffed(b[1..]);
      assert forall i | 0 <= i < |e| :: e[i] != 0xC0;
    }
  }

  lemma {:induction false} OnTheLine(x: byte, y: byte)
    requires x != 0xC0 && x != 0xDB && y != 0xC0 && y != 0xDB
    ensures Frame([x, 0xC0, y, 0xDB]) == [0xC0, x, 0xDB, 0xDC, y, 0xDB, 0xDD, 0xC0]
  {
    var b: seq<byte> := [x, 0xC0, y, 0xDB];
    var b1, b2, b3: seq<byte> := b[1..], [y, 0xDB], [0xDB];
    assert b1 == [0xC0, y, 0xDB] && b1[1..] == b2 && b2[1..] == b3 && b3[1..] == [];
    assert Stuffed(b3) == [0xDB, 0xDD] + Stuffed(b3[1..]);
    assert Stuffed(b2) == [y] + Stuffed(b2[1..]);
    assert Stuffed(b1) == [0xDB, 0xDC] + Stuffed(b1[1..]);
    assert Stuffed(b) == [x] + Stuffed(b1);
  }

  /** slipif_output: the frame does not depend on how the packet is cut into pbufs. */
  method Output(p: PbufCopy.Chain) returns (sent: seq<byte>)
    ensures sent == Frame(PbufCopy.Flat(p))
  {
    sent := [END];
    var q := 0;
    assert |p[..0]| == 0;
    while q < |p|
      invariant 0 <= q <= |p| && sent == [END] + Stuffed(PbufCopy.Flat(p[..q]))
    {
      sent := OutputLink(sent, p[q], PbufCopy.Flat(p[..q]));
      PbufCopy.FlatSplit(p, q);
      q := q + 1;
    }
    assert p[..q] == p;
    sent := sent + [END];
  }

  /** The inner loop, over the bytes of one pbuf. */
  method OutputLink(before: seq<byte>, payload: seq<byte>, ghost done: seq<byte>) returns (sent: seq<byte>)
    requires before == [END] + Stuffed(done)
    ensures sent == [END] + Stuffed(done + payload)
  {
    sent := before;
    var i := 0;
    assert done + payload[..0] == done;
    while i < |payload|
      invariant 0 <= i <= |payload| && sent == [END] + Stuffed(done + payload[..i])
    {
      sent := OutputByte(sent, payload[i], done + payload[..i]);
      assert done + payload[..i + 1] == (done + payload[..i]) + [payload[i]];
      i := i + 1;
    }
    assert payload[..i] == payload;
  }

  method OutputByte(before: seq<byte>, c: byte, ghost done: seq<byte>) returns (sent: seq<byte>)
    requires before == [END] + Stuffed(done)
    ensures sent == [END] + Stuffed(done + [c])
  {
    sent := before;
    StuffedMore(done, c);
    if c == END {
      sent := sent + [ESC] + [ESC_END];
      assert sent == before + Escaped(c);
    } else if c == ESC {
      sent := sent + [ESC] + [ESC_ESC];
      assert sent == before + Escaped(c);
    } else {
      sent := sent + [c];
    }
  }

  lemma {:induction false} StuffedMore(done: seq<byte>, c: byte)
    ensures [END] + Stuffed(done + [c]) == [END] + Stuffed(done) + Escaped(c)
  {
    StuffedConcat(done, [c]);
    assert [c][1..] == [] && Stuffed([c]) == Escaped(c);
  }

  // ------------------------------------------------------- the decoder's meaning

  /** Where a decoder is: inside an escape or not, and the bytes it has kept of the packet. */
  datatype Decoder = Decoder(escape: bool, kept: seq<byte>)

  const CLEAN: Decoder := Decoder(false, [])

  /** A byte beyond the limit is dropped. */
  function Keep(kept: seq<byte>, b: byte): seq<byte> {
    if |kept| <= MAX_SIZE then kept + [b] else kept
  }

  /** The data byte that c stands for. */
  function Unescaped(d: Decoder, c: byte): byte {
    if d.escape && c == ESC_END then END else if d.escape && c == ESC_ESC then ESC else c
  }

  /** One byte from the line: the new state, and the packet it completes. */
  function Fed(d: Decoder, c: byte): (Decoder, Option<seq<byte>>) {
    if !d.escape && c == END then
      if d.kept != [] then (CLEAN, Some(d.kept)) else (d, None)
    else if !d.escape && c == ESC then (d.(escape := true), None)
    else (Decoder(false, Keep(d.kept, Unescaped(d, c))), None)
  }

  /** All packets completed by a line of bytes, and the state afterwards. */
  function Decoded(d: Decoder, line: seq<byte>): (seq<seq<byte>>, Decoder)
    decreases |line|
  {
    if line == [] then ([], d)
    else
      var (n, packet) := Fed(d, line[0]);
      var (rest, last) := Decoded(n, line[1..]);
      (if packet.Some? then [packet.value] + rest else rest, last)
  }

  /** The line gives these packets and leaves the decoder in this state. */
  predicate Decodes(d: Decoder, line: seq<byte>, packets: seq<seq<byte>>, last: Decoder) {
    Decoded(d, line).0 == packets && Decoded(d, line).1 == last
  }

  lemma {:induction false} DecodedConcat(d: Decoder, a: seq<byte>, b: seq<byte>)
    ensures var (p, m) := Decoded(d, a); var (q, n) := Decoded(m, b); Decodes(d, a + b, p + q, n)
    decreases |a|
  {
    if a == [] {
      assert a + b == b;
      assert [] + Decoded(d, b).0 == Decoded(d, b).0;
    } else {
      assert (a + b)[1..] == a[1..] + b;
      var (n, packet) := Fed(d, a[0]);
      DecodedConcat(n, a[1..], b);
      var (p, m) := Decoded(n, a[1..]);
      var (q, l) := Decoded(m, b);
      if packet.Some? {
        assert [packet.value] + (p + q) == ([packet.value] + p) + q;
      }
    }
  }

  /** Keeping all bytes of b, one after the other. */
  function KeptAll(kept: seq<byte>, b: seq<byte>): seq<byte>
    decreases |b|
  {
    if b == [] then kept else KeptAll(Keep(kept, b[0]), b[1..])
  }

  lemma {:induction false} PrefixOf(a: seq<byte>, b: seq<byte>, n: nat)
    requires n == |a|
    ensures (a + b)[..n] == a
  {
  }

  lemma {:induction false} KeptAllIs(kept: seq<byte>, b: seq<byte>)
    requires |kept| <= MAX_SIZE + 1
    ensures KeptAll(kept, b) == if |kept| + |b| <= MAX_SIZE + 1 then kept + b else (kept + b)[..MAX_SIZE + 1]
    decreases |b|
  {
    if b != [] {
      var k := Keep(kept, b[0]);
      KeptAllIs(k, b[1..]);
      if |kept| <= MAX_SIZE {
        assert k == kept + [b[0]] && b == [b[0]] + b[1..];
        assert k + b[1..] == kept + b;
      } else {
        assert k == kept;
        PrefixOf(kept, b, MAX_SIZE + 1);
        PrefixOf(k, b[1..], MAX_SIZE + 1);
      }
    } else {
      assert kept + b == kept;
    }
  }

  lemma {:induction false} OneByte(d: Decoder, x: byte)
    ensures var (n, packet) := Fed(d, x); Decodes(d, [x], if packet.Some? then [packet.value] else [], n)
  {
    var (n, packet) := Fed(d, x);
    var none: seq<byte> := [x][1..];
    assert none == [] && Decoded(n, none) == ([], n);
    assert packet.Some? ==> [packet.value] + [] == [packet.value];
  }

  /** What the encoder makes of a byte, the decoder takes as that byte. */
  lemma {:induction false} EscapedDecodes(kept: seq<byte>, b: byte)
    ensures Decodes(Decoder(false, kept), Escaped(b), [], Decoder(false, Keep(kept, b)))
  {
    if b == END || b == ESC {
      var second := if b == END then ESC_END else ESC_ESC;
      assert Escaped(b) == [ESC] + [second];
      DecodedConcat(Decoder(false, kept), [ESC], [second]);
      OneByte(Decoder(false, kept), ESC);
      OneByte(Decoder(true, kept), second);
    } else {
      OneByte(Decoder(false, kept), b);
    }
  }

  lemma {:induction false} StuffedDecodes(kept: seq<byte>, b: seq<byte>)
    ensures Decodes(Decoder(false, kept), Stuffed(b), [], Decoder(false, KeptAll(kept, b)))
    decreases |b|
  {
    if b != [] {
      DecodedConcat(Decoder(false, kept), Escaped(b[0]), Stuffed(b[1..]));
      EscapedDecodes(kept, b[0]);
      StuffedDecodes(Keep(kept, b[0]), b[1..]);
    }
  }

  /** What of a packet gets through: the first 1501 bytes. */
  function Passed(b: seq<byte>): seq<byte> {
    if |b| <= MAX_SIZE + 1 then b else b[..MAX_SIZE + 1]
  }

  lemma {:induction false} TailDecodes(kept: seq<byte>, b: seq<byte>)
    requires |kept| <= MAX_SIZE + 1
    ensures Decodes(Decoder(false, kept), Stuffed(b) + [END], if kept + b == [] then [] else [Passed(kept + b)], CLEAN)
  {
    StuffedDecodes(kept, b);
    KeptAllIs(kept, b);
    DecodedConcat(Decoder(false, kept), Stuffed(b), [END]);
    OneByte(Decoder(false, KeptAll(kept, b)), END);
  }

  /** One frame from any state. Outside an escape whatever had been collected is closed off as a
      packet of its own; inside one the opening END is taken as data. Either way the decoder is
      clean afterwards. */
  lemma {:induction false} FrameDecodes(d: Decoder, b: seq<byte>)
    requires |d.kept| <= MAX_SIZE + 1
    ensures d.escape ==> Decodes(d, Frame(b), [Passed(d.kept + [END] + b)], CLEAN)
    ensures !d.escape ==>
      Decodes(d, Frame(b), (if d.kept != [] then [d.kept] else []) + (if b != [] then [Passed(b)] else []), CLEAN)
  {
    assert Frame(b) == [END] + (Stuffed(b) + [END]);
    DecodedConcat(d, [END], Stuffed(b) + [END]);
    OneByte(d, END);
    if d.escape {
      var k := Keep(d.kept, END);
      TailDecodes(k, b);
      PassedKeep(d.kept, b);
    } else {
      TailDecodes([], b);
      assert [] + b == b;
    }
  }

  lemma {:induction false} PassedKeep(kept: seq<byte>, b: seq<byte>)
    requires |kept| <= MAX_SIZE + 1
    ensures Passed(Keep(kept, END) + b) == Passed(kept + [END] + b)
  {
  }

  function AllPassed(p: seq<seq<byte>>): seq<seq<byte>> {
    if p == [] then [] else (if p[0] != [] then [Passed(p[0])] else []) + AllPassed(p[1..])
  }

  lemma {:induction false} FramesDecode(p: seq<seq<byte>>)
    ensures Decodes(CLEAN, Frames(p), AllPassed(p), CLEAN)
  {
    if p != [] {
      DecodedConcat(CLEAN, Frame(p[0]), Frames(p[1..]));
      FrameDecodes(CLEAN, p[0]);
      FramesDecode(p[1..]);
      assert [] + (if p[0] != [] then [Passed(p[0])] else []) == if p[0] != [] then [Passed(p[0])] else [];
    }
  }

  predicate Fit(p: seq<seq<byte>>) {
    forall i | 0 <= i < |p| :: p[i] != [] && |p[i]| <= MAX_SIZE + 1
  }

  lemma {:induction false} FitPasses(p: seq<seq<byte>>)
    ensures AllPassed(p) == p <==> Fit(p)
    ensures |AllPassed(p)| <= |p|
  {
    if p != [] {
      FitPasses(p[1..]);
      var q := AllPassed(p[1..]);
      if AllPassed(p) == p {
        assert p[0] != [];
        assert AllPassed(p)[0] == Passed(p[0]) && AllPassed(p)[1..] == q;
        assert p[0] == Passed(p[0]) && p[1..] == q;
        forall i | 0 <= i < |p| ensures p[i] != [] && |p[i]| <= MAX_SIZE + 1 {
          if i > 0 {
            assert p[i] == p[1..][i - 1];
          }
        }
      }
      if Fit(p) {
        assert Fit(p[1..]) by {
          forall i | 0 <= i < |p[1..]| ensures p[1..][i] != [] && |p[1..][i]| <= MAX_SIZE + 1 {
            assert p[1..][i] == p[i + 1];
          }
        }
        assert p == [p[0]] + p[1..];
      }
    }
  }

  /** Decoding what was encoded gives the packets back, all of them and in order, exactly when none
      is empty and none is longer than 1501 bytes; up to 1500 is what the code promises. */
  lemma {:induction false} RoundTrip(p: seq<seq<byte>>)
    ensures Decodes(CLEAN, Frames(p), p, CLEAN) <==> Fit(p)
  {
    FramesDecode(p);
    FitPasses(p);
  }

  /** Whatever the decoder had seen before: from the second packet on everything is exact. */
  lemma {:induction false} Resynchronises(d: Decoder, first: seq<byte>, p: seq<seq<byte>>)
    requires |d.kept| <= MAX_SIZE + 1 && Fit(p)
    ensures var got := Decoded(d, Frames([first] + p));
      got.1 == CLEAN && |got.0| >= |p| && got.0[|got.0| - |p|..] == p
    ensures !d.escape && first != [] && |first| <= MAX_SIZE + 1 ==>
      Decoded(d, Frames([first] + p)).0 == (if d.kept != [] then [d.kept] else []) + [first] + p
  {
    assert ([first] + p)[1..] == p;
    DecodedConcat(d, Frame(first), Frames(p));
    FrameDecodes(d, first);
    RoundTrip(p);
  }

  // -------------------------------------------------------------- slipif_input

  /** All packets of a line up to the first complete one. */
  function FirstPacket(d: Decoder, line: seq<byte>): (Option<seq<byte>>, Decoder, seq<byte>)
    decreases |line|
  {
    if line == [] then (None, d, line)
    else
      var (n, packet) := Fed(d, line[0]);
      if packet.Some? then (packet, n, line[1..]) else FirstPacket(n, line[1..])
  }

  /** Calling for packet after packet decodes the line. */
  lemma {:induction false} PacketByPacket(d: Decoder, line: seq<byte>)
    ensures var (packet, n, rest) := FirstPacket(d, line);
      && |rest| <= |line| && (packet.Some? ==> |rest| < |line|)
      && if packet.Some? then Decodes(d, line, [packet.value] + Decoded(n, rest).0, Decoded(n, rest).1)
         else Decodes(d, line, [], n)
    decreases |line|
  {
    if line != [] {
      var (n, packet) := Fed(d, line[0]);
      if packet == None {
        PacketByPacket(n, line[1..]);
      }
    }
  }

  function Put(b: seq<byte>, i: nat, c: byte): seq<byte>
    requires i < |b|
  {
    b[i := c]
  }

  function Joined(q: seq<seq<byte>>): seq<byte> {
    PbufCopy.Flat(q)
  }

  predicate FullBufs(q: seq<seq<byte>>) {
    forall k | 0 <= k < |q| :: |q[k]| == BUF
  }

  /** A byte goes to the position i of the last pbuf; a full one is done with. */
  method PutByte(q: seq<seq<byte>>, i: nat, recved: nat, c: byte)
    returns (q': seq<seq<byte>>, filling: bool, i': nat, recved': nat)
    requires FullBufs(q) && q != [] && i < BUF && recved == (|q| - 1) * BUF + i
    ensures FullBufs(q') && q' != [] && recved' == recved + 1
    ensures if filling then i' < BUF && recved' == (|q'| - 1) * BUF + i' else i' == 0 && recved' == |q'| * BUF
    ensures recved <= |Joined(q)| && recved' <= |Joined(q')| && Joined(q')[..recved'] == Joined(q)[..recved] + [c]
  {
    StoreAt(q, |q| - 1, i, c);
    JoinedLength(q);
    q' := q[|q| - 1 := Put(q[|q| - 1], i, c)];
    JoinedLength(q');
    filling, i', recved' := true, i + 1, recved + 1;
    if i' >= BUF {
      i', filling := 0, false;
    }
  }

  /** struct slipif_priv: the pool pbufs of the packet so far, whether the last of them is still
      being filled, the position in it and the number of bytes received. */
  class Interface {
    var escape: bool
    var q: seq<seq<byte>>
    var filling: bool
    var i: nat
    var recved: nat

    predicate Valid() reads this {
      && FullBufs(q)
      && recved <= MAX_SIZE + 1
      && if filling then q != [] && i < BUF && recved == (|q| - 1) * BUF + i else i == 0 && recved == |q| * BUF
    }

    /** The bytes received so far, out of the pbufs. */
    function State(): Decoder reads this {
      Decoder(escape, if recved <= |Joined(q)| then Joined(q)[..recved] else [])
    }

    constructor ()
      ensures Valid() && State() == CLEAN
    {
      escape, q, filling, i, recved := false, [], false, 0, 0;
    }

    /** Storing a data byte; false if there was no pbuf for it. */
    method Store(c: byte, memory: bool, blank: seq<byte>) returns (ok: bool)
      requires Valid() && |blank| == BUF
      modifies this
      ensures Valid() && escape == old(escape)
      ensures ok ==> State().kept == Keep(old(State().kept), c)
      ensures memory ==> ok
    {
      JoinedLength(q);
      if !filling {
        if !memory {
          return false;
        }
        JoinedMore(q, blank);
        q := q + [blank];
        filling := true;
      }
      JoinedLength(q);
      assert State().kept == old(State().kept);
      if recved <= MAX_SIZE {
        q, filling, i, recved := PutByte(q, i, recved, c);
      }
      ok := true;
    }

    /** slipif_input: reads until a packet is complete, the line is empty or memory is short;
        memory(n) tells whether there is a pbuf when n bytes are still to come. */
    method Input(line: seq<byte>, blank: seq<byte>, memory: nat -> bool) returns (packet: Option<seq<byte>>, rest: seq<byte>, starved: bool)
      requires Valid() && |blank| == BUF
      modifies this
      ensures Valid()
      ensures !starved ==> (packet, State(), rest) == old(FirstPacket(State(), line))
      ensures starved ==> packet == None && |rest| < |line| && !memory(|rest|)
    {
      rest, starved := line, false;
      while rest != []
        invariant Valid()
        invariant FirstPacket(State(), rest) == old(FirstPacket(State(), line)) && |rest| <= |line|
        decreases |rest|
      {
        var c := rest[0];
        rest := rest[1..];
        JoinedLength(q);
        if !escape && c == END {
          if recved > 0 {
            packet := Some(Joined(q)[..recved]);
            q, filling, i, recved := [], false, 0, 0;
            assert State().kept == [];
            return;
          }
          assert State().kept == [];
          continue;
        }
        if !escape && c == ESC {
          escape := true;
          continue;
        }
        if escape {
          if c == ESC_END {
            c := END;
          } else if c == ESC_ESC {
            c := ESC;
          }
          escape := false;
        }
        var ok := Store(c, memory(|rest|), blank);
        if !ok {
          return None, rest, true;
        }
      }
      packet := None;
    }
  }

  lemma {:induction false} JoinedLength(q: seq<seq<byte>>)
    requires FullBufs(q)
    ensures |Joined(q)| == |q| * BUF
  {
    if q != [] {
      forall k | 0 <= k < |q[1..]| ensures |q[1..][k]| == BUF {
        assert |q[k + 1]| == BUF;
      }
      JoinedLength(q[1..]);
    }
  }

  lemma {:induction false} JoinedMore(q: seq<seq<byte>>, b: seq<byte>)
    ensures Joined(q + [b]) == Joined(q) + b
  {
    PbufCopy.FlatConcat(q, [b]);
    var one: seq<seq<byte>> := [b];
    assert |one[1..]| == 0 && PbufCopy.Flat(one) == b;
  }

  /** Storing a byte in the last pbuf appends it to the bytes in front of the position. */
  lemma {:induction false} StoreAt(q: seq<seq<byte>>, k: nat, i: nat, c: byte)
    requires k == |q| - 1 && i < BUF && forall j | 0 <= j < |q| :: |q[j]| == BUF
    ensures var n, r := k * BUF + i, Joined(q[k := Put(q[k], i, c)]);
      n < |Joined(q)| && n < |r| && r[..n + 1] == Joined(q)[..n] + [c]
  {
    var x := [c];
    PbufCopy.WriteAt(q, k, i, x);
    JoinedLength(q[..k]);
    JoinedLength(q);
    assert q[k][..i] + x + q[k][i + |x|..] == Put(q[k], i, c);
  }
}
