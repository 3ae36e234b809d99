/** The receive half of a TCP connection: trimming, the out-of-sequence queue, delivery in
    order and the receive window. The specification is a plain byte stream: whatever the peer
    cuts from one fixed stream, in any order and with any overlap, comes out as its prefix.

    Sequence numbers are kept unwrapped, but every comparison is the one the code makes on
    their 32-bit residues (module Words). */
module TcpReceive {
  import opened Words

  const TCP_WND: nat := 2920

  /** `len` is the segment's own length field; `data` is what its packet buffer holds. */
  datatype Segment = Segment(seqno: int, len: nat, data: seq<byte>, fin: bool) {
    function TcpLen(): nat {
      len + if fin then 1 else 0
    }

    function End(): int {
      seqno + len
    }

    /** The segment cut back to its first n bytes. */
    function Keep(n: nat): Segment {
      this.(len := n, data := if n < |data| then data[..n] else data)
    }
  }

  /** What the peer sends: `bytes`, the first of which has sequence number `first`; a FIN, if
      there is one, occupies the number right after the last byte. */
  datatype Stream = Stream(first: int, bytes: seq<byte>) {
    function End(): int {
      first + |bytes|
    }

    function Slice(lo: int, hi: int): seq<byte>
      requires first <= lo <= hi <= End()
    {
      bytes[lo - first..hi - first]
    }

    ghost predicate Cut(seg: Segment) {
      && first <= seg.seqno && seg.seqno + seg.len <= End()
      && seg.len <= 0xFFFF
      && seg.data == Slice(seg.seqno, seg.seqno + seg.len)
      && (seg.fin ==> seg.End() == End())
    }

    /** A well-formed out-of-sequence queue above `lo`: every segment is byte-correct, they
        are ordered and disjoint, and only the last may carry the FIN. */
    ghost predicate Queue(q: seq<Segment>, lo: int) {
      q == []
      || (&& lo <= q[0].seqno
          && Cut(q[0]) && q[0].TcpLen() > 0
          && (q[0].fin ==> q[1..] == [])
          && Queue(q[1..], q[0].End()))
    }
  }

  function Range(lo: int, hi: int): (r: set<int>)
    ensures forall x :: x in r <==> lo <= x < hi
    decreases hi - lo
  {
    if lo >= hi then {} else {lo} + Range(lo + 1, hi)
  }

  /** The data positions a queue holds. */
  function Held(q: seq<Segment>): set<int> {
    if q == [] then {} else Range(q[0].seqno, q[0].End()) + Held(q[1..])
  }

  predicate HasFin(q: seq<Segment>) {
    q != [] && (q[0].fin || HasFin(q[1..]))
  }

  predicate Below(q: seq<Segment>, hi: int) {
    q != [] ==> q[0].End() <= hi && Below(q[1..], hi)
  }

  /** Every held segment, its FIN included, ends at or before the right edge. */
  predicate Within(q: seq<Segment>, edge: int) {
    q != [] ==> q[0].seqno + q[0].TcpLen() <= edge && Within(q[1..], edge)
  }

  lemma {:induction false} HeldBounds(stream: Stream, q: seq<Segment>, lo: int)
    requires stream.Queue(q, lo)
    ensures forall x | x in Held(q) :: lo <= x < stream.End()
    ensures Below(q, stream.End())
  {
    if q != [] {
      HeldBounds(stream, q[1..], q[0].End());
    }
  }

  lemma {:induction false} KeepCut(stream: Stream, seg: Segment, n: nat)
    requires stream.Cut(seg) && n <= seg.len && (seg.fin ==> n == seg.len)
    ensures stream.Cut(seg.Keep(n))
  {
    var lo := seg.seqno - stream.first;
    assert stream.bytes[lo..lo + seg.len][..n] == stream.bytes[lo..lo + n];
  }

  // ---------------------------------------------------------------- insertion

  /** The new segment, cut where the one behind it starts. */
  function ClipBefore(seg: Segment, next: seq<Segment>): Segment {
    if next != [] && seg.seqno <= next[0].seqno < seg.End() then seg.Keep(next[0].seqno - seg.seqno) else seg
  }

  /** Removes what the new segment covers; a FIN on a removed segment moves to the new one. */
  function DropCovered(seg: Segment, rest: seq<Segment>): (Segment, seq<Segment>)
    decreases rest
  {
    if rest != [] && rest[0].End() <= seg.End()
    then DropCovered(seg.(fin := seg.fin || rest[0].fin), rest[1..])
    else (seg, rest)
  }

  /** What a queue becomes from a new segment on. */
  function InsertBefore(seg: Segment, rest: seq<Segment>): seq<Segment> {
    if seg.fin then [seg]
    else
      var (c, next) := DropCovered(seg, rest);
      [ClipBefore(c, next)] + next
  }

  lemma {:induction false} DropCoveredHolds(stream: Stream, seg: Segment, rest: seq<Segment>, lo: int)
    requires stream.Queue(rest, lo) && stream.Cut(seg) && seg.seqno <= lo && (seg.fin ==> rest == [])
    requires rest != [] && rest[0].seqno == seg.seqno ==> rest[0].len < seg.len
    ensures var (c, next) := DropCovered(seg, rest);
      && c == seg.(fin := c.fin) && stream.Cut(c)
      && (c.fin ==> next == [])
      && (c.fin || HasFin(next) <==> seg.fin || HasFin(rest))
      && Range(seg.seqno, seg.End()) + Held(next) == Range(seg.seqno, seg.End()) + Held(rest)
      && stream.Queue(next, lo)
      && (next != [] ==> c.seqno < next[0].seqno && c.End() < next[0].End())
    decreases rest
  {
    if rest != [] && rest[0].End() <= seg.End() {
      DropCoveredHolds(stream, seg.(fin := rest[0].fin), rest[1..], rest[0].End());
      QueueLower(stream, DropCovered(seg, rest).1, rest[0].End(), lo);
    }
  }

  lemma {:induction false} QueueLower(stream: Stream, q: seq<Segment>, hi: int, lo: int)
    requires stream.Queue(q, hi) && lo <= hi
    ensures stream.Queue(q, lo)
  {
  }

  lemma {:induction false} ClipHolds(stream: Stream, seg: Segment, next: seq<Segment>)
    requires stream.Queue(next, seg.seqno) && stream.Cut(seg) && seg.TcpLen() > 0 && (seg.fin ==> next == [])
    requires next != [] ==> seg.seqno < next[0].seqno && seg.End() < next[0].End()
    ensures var r := [ClipBefore(seg, next)] + next;
      && stream.Queue(r, seg.seqno)
      && Held(r) == Range(seg.seqno, seg.End()) + Held(next)
      && (HasFin(r) <==> seg.fin || HasFin(next))
  {
    var clipped := ClipBefore(seg, next);
    KeepCut(stream, seg, clipped.len);
    var r := [clipped] + next;
    assert r[1..] == next;
    assert next != [] ==> stream.Queue(next, clipped.End());
  }

  lemma {:induction false} InsertBeforeHolds(stream: Stream, seg: Segment, rest: seq<Segment>)
    requires stream.Queue(rest, seg.seqno) && stream.Cut(seg) && seg.TcpLen() > 0
    requires rest != [] && rest[0].seqno == seg.seqno ==> rest[0].len < seg.len
    ensures var r := InsertBefore(seg, rest);
      && stream.Queue(r, seg.seqno) && r != [] && r[0].seqno == seg.seqno
      && Held(r) == Range(seg.seqno, seg.End()) + Held(rest)
      && (HasFin(r) <==> seg.fin || HasFin(rest))
  {
    if seg.fin {
      HeldBounds(stream, rest, seg.seqno);
    } else {
      DropCoveredHolds(stream, seg, rest, seg.seqno);
      var (c, next) := DropCovered(seg, rest);
      ClipHolds(stream, c, next);
    }
  }

  /** The segment appended behind everything held is cut at the right edge of the window. The
      test compares raw 32-bit values, without the signed difference used everywhere else. */
  predicate OverrunsEdge(seg: Segment, edge: int) {
    U32(seg.TcpLen() + seg.seqno) > U32(edge)
  }

  function ClipAtEdge(seg: Segment, edge: int): Segment
    requires seg.seqno <= edge
  {
    if OverrunsEdge(seg, edge) then seg.(fin := false).Keep(U16(edge - seg.seqno)) else seg
  }

  /** The last held segment, when the new one starts behind its beginning. */
  predicate Appends(q: seq<Segment>, seg: Segment) {
    q != [] && if |q| == 1 then q[0].seqno < seg.seqno && !q[0].fin else Appends(q[1..], seg)
  }

  /** The queue already holds a segment at least as long with this sequence number, or its
      last segment carries the FIN and starts below. */
  predicate Ignored(q: seq<Segment>, seg: Segment) {
    q != []
    && (|| (q[0].seqno == seg.seqno && seg.len <= q[0].len)
        || (|q| == 1 && q[0].seqno < seg.seqno && q[0].fin)
        || Ignored(q[1..], seg))
  }

  function AsQueued(q: seq<Segment>, seg: Segment, edge: int): Segment
    requires seg.seqno <= edge
  {
    if Appends(q, seg) then ClipAtEdge(seg, edge) else seg
  }

  /** The raw comparison takes a segment that ends inside the window for one that overruns it:
      it happens exactly when the window wraps around zero behind the segment. */
  predicate Misfires(q: seq<Segment>, seg: Segment, edge: int) {
    Appends(q, seg) && seg.seqno + seg.TcpLen() <= edge && OverrunsEdge(seg, edge)
  }

  /** The held segment the new one starts in, cut where the new one starts. */
  function TrimTail(held: Segment, seqno: int): Segment {
    if held.seqno < seqno < held.End() then held.Keep(seqno - held.seqno) else held
  }

  /** The bytes dropped from the held segment the new one starts in: those behind the end of
      the new one. They were never acknowledged. */
  function LostTail(q: seq<Segment>, seg: Segment): set<int> {
    if q == [] then {}
    else
      (if q[0].seqno < seg.seqno < q[0].End() then Range(seg.End(), q[0].End()) else {})
      + LostTail(q[1..], seg)
  }

  /** Where an out-of-sequence segment goes in a queue that is not empty. */
  function Place(q: seq<Segment>, seg: Segment, edge: int): seq<Segment>
    requires q != [] && seg.seqno <= edge
  {
    if seg.seqno == q[0].seqno then (if seg.len > q[0].len then InsertBefore(seg, q) else q)
    else if seg.seqno < q[0].seqno then InsertBefore(seg, q)
    else if |q| == 1 then (if q[0].fin then q else [TrimTail(q[0], seg.seqno), ClipAtEdge(seg, edge)])
    else if seg.seqno < q[1].seqno then [TrimTail(q[0], seg.seqno)] + InsertBefore(seg, q[1..])
    else [q[0]] + Place(q[1..], seg, edge)
  }

  lemma {:induction false} IgnoredHolds(stream: Stream, q: seq<Segment>, lo: int, seg: Segment, edge: int)
    requires q != [] && stream.Queue(q, lo) && stream.Cut(seg) && seg.seqno <= edge && seg.TcpLen() > 0
    requires Ignored(q, seg)
    ensures Place(q, seg, edge) == q
    ensures Range(seg.seqno, seg.End()) <= Held(q)
  {
    if q[0].seqno == seg.seqno && seg.len <= q[0].len {
    } else if |q| == 1 && q[0].seqno < seg.seqno && q[0].fin {
    } else {
      IgnoredHolds(stream, q[1..], q[0].End(), seg, edge);
      HeldBounds(stream, q[1..], q[0].End());
    }
  }

  lemma {:induction false} NothingLost(stream: Stream, q: seq<Segment>, lo: int, seg: Segment)
    requires stream.Queue(q, lo) && seg.seqno <= lo
    ensures LostTail(q, seg) == {}
  {
    if q != [] {
      NothingLost(stream, q[1..], q[0].End(), seg);
    }
  }

  lemma {:induction false} LostAbove(q: seq<Segment>, seg: Segment)
    ensures forall x | x in LostTail(q, seg) :: seg.End() <= x
  {
    if q != [] {
      LostAbove(q[1..], seg);
    }
  }

  lemma {:induction false} NotAppended(stream: Stream, q: seq<Segment>, lo: int, seg: Segment)
    requires stream.Queue(q, lo) && q != [] && seg.seqno <= q[0].seqno
    ensures !Appends(q, seg)
  {
    if |q| > 1 {
      NotAppended(stream, q[1..], q[0].End(), seg);
    }
  }

  lemma {:induction false} AppendedCut(stream: Stream, seg: Segment, edge: int)
    requires stream.Cut(seg) && seg.TcpLen() > 0 && seg.seqno < edge
    requires OverrunsEdge(seg, edge) ==> edge < seg.seqno + seg.TcpLen()
    ensures stream.Cut(ClipAtEdge(seg, edge)) && ClipAtEdge(seg, edge).TcpLen() > 0
  {
    if OverrunsEdge(seg, edge) {
      KeepCut(stream, seg.(fin := false), edge - seg.seqno);
    }
  }

  lemma {:induction false} HeldBehind(held: Segment, next: seq<Segment>, c: Segment, behind: seq<Segment>)
    requires held.seqno < c.seqno && (forall x | x in Held(next) :: held.End() <= x)
    requires Held(behind) == Range(c.seqno, c.End()) + Held(next) && LostTail(next, c) == {}
    ensures var q, r := [held] + next, [TrimTail(held, c.seqno)] + behind;
      Held(r) == Held(q) + Range(c.seqno, c.End()) - LostTail(q, c)
  {
    var q, r := [held] + next, [TrimTail(held, c.seqno)] + behind;
    assert q[1..] == next && r[1..] == behind;
    var lost := if held.seqno < c.seqno < held.End() then Range(c.End(), held.End()) else {};
    assert LostTail(q, c) == lost;
    assert Range(held.seqno, r[0].End()) + Range(c.seqno, c.End())
        == Range(held.seqno, held.End()) + Range(c.seqno, c.End()) - lost;
  }

  lemma {:induction false} QueueBehind(stream: Stream, held: Segment, lo: int, seqno: int, behind: seq<Segment>)
    requires stream.Cut(held) && held.TcpLen() > 0 && !held.fin && lo <= held.seqno < seqno
    requires stream.Queue(behind, seqno)
    ensures stream.Queue([TrimTail(held, seqno)] + behind, lo)
  {
    var first := TrimTail(held, seqno);
    assert ([first] + behind)[1..] == behind;
    KeepCut(stream, held, first.len);
    QueueLower(stream, behind, seqno, first.End());
  }

  /** The new segment goes right behind q[0], which may lose its tail to it. */
  lemma {:induction false} PlaceBehind(stream: Stream, held: Segment, next: seq<Segment>, lo: int, c: Segment, behind: seq<Segment>)
    requires stream.Queue([held] + next, lo) && lo <= held.seqno < c.seqno
    requires stream.Queue(behind, c.seqno) && (next == [] ==> !held.fin)
    requires Held(behind) == Range(c.seqno, c.End()) + Held(next)
    requires HasFin(behind) <==> c.fin || HasFin(next)
    requires LostTail(next, c) == {}
    ensures Placed(stream, [held] + next, lo, c, [TrimTail(held, c.seqno)] + behind)
  {
    var q, first := [held] + next, TrimTail(held, c.seqno);
    assert q[1..] == next && ([first] + behind)[1..] == behind;
    HeldBounds(stream, next, held.End());
    HeldBehind(held, next, c, behind);
    QueueBehind(stream, held, lo, c.seqno, behind);
  }

  /** What placing a segment does to a queue that does not ignore it. */
  ghost predicate Placed(stream: Stream, q: seq<Segment>, lo: int, c: Segment, r: seq<Segment>) {
    && stream.Queue(r, lo)
    && Held(r) == Held(q) + Range(c.seqno, c.End()) - LostTail(q, c)
    && (HasFin(r) <==> HasFin(q) || c.fin)
  }

  lemma {:induction false} PlaceFront(stream: Stream, q: seq<Segment>, lo: int, seg: Segment, edge: int)
    requires q != [] && stream.Queue(q, lo) && stream.Cut(seg) && seg.TcpLen() > 0
    requires lo <= seg.seqno < edge && seg.seqno <= q[0].seqno && !Ignored(q, seg)
    ensures Placed(stream, q, lo, AsQueued(q, seg, edge), Place(q, seg, edge))
  {
    NotAppended(stream, q, lo, seg);
    InsertBeforeHolds(stream, seg, q);
    QueueLower(stream, InsertBefore(seg, q), seg.seqno, lo);
    NothingLost(stream, q, q[0].seqno, seg);
  }

  lemma {:induction false} PlaceNext(stream: Stream, q: seq<Segment>, lo: int, seg: Segment, edge: int)
    requires |q| > 1 && stream.Queue(q, lo) && stream.Cut(seg) && seg.TcpLen() > 0
    requires lo <= seg.seqno < edge && q[0].seqno < seg.seqno < q[1].seqno && !Ignored(q, seg)
    ensures Placed(stream, q, lo, AsQueued(q, seg, edge), Place(q, seg, edge))
  {
    NotAppended(stream, q[1..], q[0].End(), seg);
    InsertBeforeHolds(stream, seg, q[1..]);
    NothingLost(stream, q[1..], q[1].seqno, seg);
    assert q == [q[0]] + q[1..];
    PlaceBehind(stream, q[0], q[1..], lo, seg, InsertBefore(seg, q[1..]));
  }

  lemma {:induction false} PlaceHolds(stream: Stream, q: seq<Segment>, lo: int, seg: Segment, edge: int)
    requires q != [] && stream.Queue(q, lo) && stream.Cut(seg) && seg.TcpLen() > 0 && lo <= seg.seqno < edge
    requires !Ignored(q, seg) && !Misfires(q, seg, edge)
    ensures Placed(stream, q, lo, AsQueued(q, seg, edge), Place(q, seg, edge))
  {
    var c := AsQueued(q, seg, edge);
    if seg.seqno <= q[0].seqno {
      PlaceFront(stream, q, lo, seg, edge);
    } else if |q| == 1 {
      assert q == [q[0]] + [];
      AppendedCut(stream, seg, edge);
      PlaceBehind(stream, q[0], [], lo, c, [c]);
    } else if seg.seqno < q[1].seqno {
      PlaceNext(stream, q, lo, seg, edge);
    } else {
      PlaceHolds(stream, q[1..], q[0].End(), seg, edge);
      PlaceLater(stream, q, lo, c, Place(q[1..], seg, edge));
    }
  }

  lemma {:induction false} PlaceLater(stream: Stream, q: seq<Segment>, lo: int, c: Segment, tail: seq<Segment>)
    requires |q| > 1 && stream.Queue(q, lo) && q[1].seqno <= c.seqno
    requires stream.Queue(tail, q[0].End())
    requires Held(tail) == Held(q[1..]) + Range(c.seqno, c.End()) - LostTail(q[1..], c)
    requires HasFin(tail) <==> HasFin(q[1..]) || c.fin
    ensures var r := [q[0]] + tail;
      && stream.Queue(r, lo)
      && Held(r) == Held(q) + Range(c.seqno, c.End()) - LostTail(q, c)
      && (HasFin(r) <==> HasFin(q) || c.fin)
  {
    var r := [q[0]] + tail;
    assert r[1..] == tail && !q[0].fin;
    LostAbove(q[1..], c);
  }

  /** A misfire leaves the last held segment claiming more bytes than its buffer holds. */
  lemma {:induction false} MisfireBreaks(stream: Stream, q: seq<Segment>, lo: int, seg: Segment, edge: int)
    requires q != [] && stream.Queue(q, lo) && stream.Cut(seg) && lo <= seg.seqno < edge <= seg.seqno + 0xFFFF
    requires Misfires(q, seg, edge)
    ensures var r := Place(q, seg, edge);
      r != [] && r[|r| - 1].len > |r[|r| - 1].data|
  {
    if |q| > 1 {
      if seg.seqno <= q[1].seqno {
        NotAppended(stream, q[1..], q[0].End(), seg);
      } else {
        MisfireBreaks(stream, q[1..], q[0].End(), seg, edge);
      }
    }
  }

  /** The misfire is exactly a window whose right edge has wrapped past zero when the
      segment's end has not. */
  lemma {:induction false} MisfiresOnWrap(q: seq<Segment>, seg: Segment, edge: int)
    requires seg.seqno < edge <= seg.seqno + 0xFFFF
    ensures Misfires(q, seg, edge)
        <==> Appends(q, seg) && seg.seqno + seg.TcpLen() <= edge
             && (seg.seqno + seg.TcpLen()) / 0x1_0000_0000 < edge / 0x1_0000_0000
  {
    var m, end := 0x1_0000_0000, seg.seqno + seg.TcpLen();
    assert end == m * (end / m) + U32(end) && edge == m * (edge / m) + U32(edge);
  }

  // ---------------------------------------------------------------- delivery

  /** The run of held segments that continue at nxt: their bytes, whether the FIN is among
      them, the sequence number reached and what stays queued. */
  function Chain(q: seq<Segment>, nxt: int): (seq<byte>, bool, int, seq<Segment>)
    decreases q
  {
    if q != [] && q[0].seqno == nxt then
      var (d, f, n, r) := Chain(q[1..], nxt + q[0].TcpLen());
      (q[0].data + d, q[0].fin || f, n, r)
    else ([], false, nxt, q)
  }

  /** Part of a run has been taken over: `data` and `fin` so far, nxt reached, q still queued. */
  predicate TakenOver(run: seq<Segment>, start: int, data: seq<byte>, fin: bool, nxt: int, q: seq<Segment>) {
    var (d, f, n, r) := Chain(q, nxt);
    Chain(run, start) == (data + d, fin || f, n, r)
  }

  lemma {:induction false} TakeOverNext(run: seq<Segment>, start: int, data: seq<byte>, fin: bool, nxt: int, q: seq<Segment>)
    requires TakenOver(run, start, data, fin, nxt, q) && q != [] && q[0].seqno == nxt
    ensures TakenOver(run, start, data + q[0].data, fin || q[0].fin, nxt + q[0].TcpLen(), q[1..])
  {
    var (d, f, n, r) := Chain(q[1..], nxt + q[0].TcpLen());
    assert data + (q[0].data + d) == data + q[0].data + d;
  }

  lemma {:induction false} TakenOverNone(run: seq<Segment>, start: int)
    ensures TakenOver(run, start, [], false, start, run)
  {
    var d := Chain(run, start).0;
    assert [] + d == d;
  }

  lemma {:induction false} TakenOverAll(run: seq<Segment>, start: int, data: seq<byte>, fin: bool, nxt: int, q: seq<Segment>)
    requires q == [] || q[0].seqno != nxt
    ensures TakenOver(run, start, data, fin, nxt, q) ==> Chain(run, start) == (data, fin, nxt, q)
  {
    assert data + [] == data;
  }

  /** From nxt on, `data` (and then the FIN, if `fin`) is all that `held` and `finHeld` let the
      receiver deliver; `rest` keeps exactly what lies beyond. */
  ghost predicate Delivers(stream: Stream, held: set<int>, finHeld: bool, nxt: int,
                           data: seq<byte>, fin: bool, nxt': int, rest: seq<Segment>) {
    var end := nxt + |data|;
    && stream.first <= nxt && end <= stream.End()
    && data == stream.Slice(nxt, end)
    && (forall x | nxt <= x < end :: x in held) && end !in held
    && (fin <==> finHeld && end == stream.End())
    && nxt' == end + (if fin then 1 else 0)
    && stream.Queue(rest, nxt' + 1)
    && Held(rest) == held - Range(nxt, end)
    && (HasFin(rest) <==> finHeld && !fin)
    && (fin ==> rest == [])
  }

  lemma {:induction false} NoneInSequence(stream: Stream, q: seq<Segment>, nxt: int)
    requires stream.first <= nxt <= stream.End() && stream.Queue(q, nxt) && (q != [] ==> q[0].seqno != nxt)
    ensures Delivers(stream, Held(q), HasFin(q), nxt, [], false, nxt, q)
  {
    if q != [] {
      HeldBounds(stream, q, q[0].seqno);
    }
  }

  lemma {:induction false} SliceConcat(stream: Stream, a: int, b: int, c: int)
    requires stream.first <= a <= b <= c <= stream.End()
    ensures stream.Slice(a, b) + stream.Slice(b, c) == stream.Slice(a, c)
  {
  }

  lemma {:induction false} RunJoins(a: int, b: int, end: int, held: set<int>)
    requires a <= b <= end && (forall x | x in held :: b <= x)
    requires (forall x | b <= x < end :: x in held) && end !in held
    ensures var all := Range(a, b) + held;
      && (forall x | a <= x < end :: x in all) && end !in all
      && all - Range(a, end) == held - Range(b, end)
  {
  }

  lemma {:induction false} FirstOfRun(stream: Stream, s: Segment, q: seq<Segment>)
    requires stream.Queue([s] + q, s.seqno) && !s.fin
    ensures Held([s] + q) == Range(s.seqno, s.End()) + Held(q) && HasFin([s] + q) == HasFin(q)
    ensures stream.first <= s.seqno <= s.End() <= stream.End() && s.data == stream.Slice(s.seqno, s.End())
    ensures forall x | x in Held(q) :: s.End() <= x
  {
    var run := [s] + q;
    assert run[0] == s && run[1..] == q;
    HeldBounds(stream, q, s.End());
  }

  /** Delivering the bytes from a to b first. */
  lemma {:induction false} DeliversFront(stream: Stream, a: int, b: int, held: set<int>, finHeld: bool,
                                         d: seq<byte>, f: bool, n: int, r: seq<Segment>)
    requires stream.first <= a <= b <= stream.End() && (forall x | x in held :: b <= x)
    requires Delivers(stream, held, finHeld, b, d, f, n, r)
    ensures Delivers(stream, Range(a, b) + held, finHeld, a, stream.Slice(a, b) + d, f, n, r)
  {
    SliceConcat(stream, a, b, b + |d|);
    RunJoins(a, b, b + |d|, held);
  }

  lemma {:induction false} DeliversMore(stream: Stream, s: Segment, q: seq<Segment>, d: seq<byte>, f: bool, n: int, r: seq<Segment>)
    requires stream.Queue([s] + q, s.seqno) && !s.fin
    requires Delivers(stream, Held(q), HasFin(q), s.End(), d, f, n, r)
    ensures Delivers(stream, Held([s] + q), HasFin([s] + q), s.seqno, s.data + d, f, n, r)
  {
    FirstOfRun(stream, s, q);
    DeliversFront(stream, s.seqno, s.End(), Held(q), HasFin(q), d, f, n, r);
  }

  lemma {:induction false} FinDelivers(stream: Stream, q: seq<Segment>)
    requires q != [] && stream.Queue(q, q[0].seqno) && q[0].fin
    ensures Chain(q, q[0].seqno) == (q[0].data, true, q[0].End() + 1, [])
    ensures Delivers(stream, Held(q), HasFin(q), q[0].seqno, q[0].data, true, q[0].End() + 1, [])
  {
    assert q[0].data + [] == q[0].data;
  }

  lemma {:induction false} ChainDelivers(stream: Stream, q: seq<Segment>, nxt: int)
    requires stream.first <= nxt <= stream.End() && stream.Queue(q, nxt)
    ensures var (d, f, n, r) := Chain(q, nxt);
      Delivers(stream, Held(q), HasFin(q), nxt, d, f, n, r)
    decreases q
  {
    if q == [] || q[0].seqno != nxt {
      NoneInSequence(stream, q, nxt);
    } else if q[0].fin {
      FinDelivers(stream, q);
    } else {
      ChainDelivers(stream, q[1..], q[0].End());
      var (d, f, n, r) := Chain(q[1..], q[0].End());
      assert Chain(q, nxt) == (q[0].data + d, f, n, r);
      assert q == [q[0]] + q[1..];
      DeliversMore(stream, q[0], q[1..], d, f, n, r);
    }
  }

  lemma {:induction false} Nth(stream: Stream, q: seq<Segment>, lo: int, hi: int, k: nat)
    requires stream.Queue(q, lo) && Below(q, hi) && k < |q|
    ensures lo <= q[k].seqno && q[k].End() <= hi
    ensures stream.Queue(q[k..], q[k].seqno) && Below(q[k..], hi)
  {
    if k > 0 {
      Nth(stream, q[1..], q[0].End(), hi, k - 1);
      assert q[1..][k - 1..] == q[k..];
    }
  }

  /** Which arm of the queue walk takes the new segment, at position k. */
  datatype Spot = Same | Front | Between | Behind

  predicate FitsAt(q: seq<Segment>, seqno: int, spot: Spot, k: nat)
    requires k < |q|
  {
    match spot
    case Same => q[k].seqno == seqno
    case Front => k == 0 && seqno < q[0].seqno
    case Between => k > 0 && q[k - 1].seqno < seqno < q[k].seqno
    case Behind => k + 1 == |q| && q[k].seqno < seqno
  }

  function PlaceAt(q: seq<Segment>, seg: Segment, edge: int, spot: Spot, k: nat): seq<Segment>
    requires k < |q| && seg.seqno <= edge && FitsAt(q, seg.seqno, spot, k)
  {
    match spot
    case Same => if seg.len > q[k].len then q[..k] + InsertBefore(seg, q[k..]) else q
    case Front => InsertBefore(seg, q)
    case Between => q[..k - 1] + [TrimTail(q[k - 1], seg.seqno)] + InsertBefore(seg, q[k..])
    case Behind => if q[k].fin then q else q[..k] + [TrimTail(q[k], seg.seqno), ClipAtEdge(seg, edge)]
  }

  /** In an ordered queue the place found by the walk is the place Place puts the segment. */
  lemma {:induction false} PlacedWhereFound(stream: Stream, q: seq<Segment>, lo: int, seg: Segment, edge: int,
                                            spot: Spot, k: nat)
    requires stream.Queue(q, lo) && k < |q| && seg.seqno <= edge && FitsAt(q, seg.seqno, spot, k)
    ensures PlaceAt(q, seg, edge, spot, k) == Place(q, seg, edge)
    decreases q
  {
    if k > 0 && !(k == 1 && spot == Between) {
      var l := k - 1;
      Ordered(stream, q, lo, k);
      PlaceAtTail(q, seg, edge, spot, k, l);
      PlacedWhereFound(stream, q[1..], q[0].End(), seg, edge, spot, l);
    } else {
      assert q[..0] == [] && q[0..] == q;
    }
  }

  lemma {:induction false} PlaceAtTail(q: seq<Segment>, seg: Segment, edge: int, spot: Spot, k: nat, l: nat)
    requires 0 < k < |q| && l == k - 1 && seg.seqno <= edge && FitsAt(q, seg.seqno, spot, k)
    requires k == 1 ==> spot != Between
    ensures FitsAt(q[1..], seg.seqno, spot, l)
    ensures PlaceAt(q, seg, edge, spot, k) == [q[0]] + PlaceAt(q[1..], seg, edge, spot, l)
  {
    var t := q[1..];
    assert t[l] == q[k] && t[l..] == q[k..] && q[..k] == [q[0]] + t[..l];
    if spot == Between {
      assert q[..l] == [q[0]] + t[..l - 1] && t[l - 1] == q[l];
    }
  }

  lemma {:induction false} Ordered(stream: Stream, q: seq<Segment>, lo: int, k: nat)
    requires stream.Queue(q, lo) && 0 < k < |q|
    ensures q[0].seqno < q[1].seqno <= q[k].seqno
    ensures k > 1 ==> q[1].seqno <= q[k - 1].seqno
  {
    if k > 1 {
      Ordered(stream, q[1..], q[0].End(), k - 1);
    }
  }

  /** What covers part of a queue stays within the bounds the queue had. */
  lemma {:induction false} DropCoveredWithin(stream: Stream, seg: Segment, rest: seq<Segment>, lo: int, edge: int, hi: int)
    requires stream.Queue(rest, lo) && stream.Cut(seg) && (seg.fin ==> rest == [])
    requires Below(rest, hi)
    ensures var (c, next) := DropCovered(seg, rest);
      && Below(next, hi)
      && (seg.seqno + seg.TcpLen() <= edge && Within(rest, edge) ==>
            c.seqno + c.TcpLen() <= edge && Within(next, edge))
    decreases rest
  {
    if rest != [] && rest[0].End() <= seg.End() {
      DropCoveredWithin(stream, seg.(fin := rest[0].fin), rest[1..], rest[0].End(), edge, hi);
    }
  }

  lemma {:induction false} PlaceWithin(stream: Stream, q: seq<Segment>, lo: int, seg: Segment, edge: int, hi: int)
    requires q != [] && stream.Queue(q, lo) && stream.Cut(seg) && seg.TcpLen() > 0
    requires lo <= seg.seqno < edge <= seg.seqno + 0xFFFF && !Misfires(q, seg, edge)
    requires Below(q, hi) && seg.End() <= hi
    ensures var r := Place(q, seg, edge);
      && Below(r, hi)
      && (Within(q, edge) && seg.seqno + seg.TcpLen() <= edge ==> Within(r, edge))
    decreases q
  {
    if seg.seqno <= q[0].seqno {
      InsertWithin(stream, seg, q, lo, edge, hi);
    } else if |q| == 1 {
    } else if seg.seqno < q[1].seqno {
      InsertWithin(stream, seg, q[1..], q[0].End(), edge, hi);
      var r := [TrimTail(q[0], seg.seqno)] + InsertBefore(seg, q[1..]);
      assert r[1..] == InsertBefore(seg, q[1..]);
    } else {
      PlaceWithin(stream, q[1..], q[0].End(), seg, edge, hi);
      assert ([q[0]] + Place(q[1..], seg, edge))[1..] == Place(q[1..], seg, edge);
    }
  }

  lemma {:induction false} InsertWithin(stream: Stream, seg: Segment, rest: seq<Segment>, lo: int, edge: int, hi: int)
    requires stream.Queue(rest, lo) && stream.Cut(seg) && Below(rest, hi) && seg.End() <= hi
    ensures var r := InsertBefore(seg, rest);
      && Below(r, hi)
      && (Within(rest, edge) && seg.seqno + seg.TcpLen() <= edge ==> Within(r, edge))
  {
    if !seg.fin {
      DropCoveredWithin(stream, seg, rest, lo, edge, hi);
      var (c, next) := DropCovered(seg, rest);
      DropCoveredKeeps(seg, rest);
      assert ([ClipBefore(c, next)] + next)[1..] == next;
    }
  }

  lemma {:induction false} DropCoveredKeeps(seg: Segment, rest: seq<Segment>)
    ensures var c := DropCovered(seg, rest).0; c == seg.(fin := c.fin)
    decreases rest
  {
    if rest != [] && rest[0].End() <= seg.End() {
      DropCoveredKeeps(seg.(fin := seg.fin || rest[0].fin), rest[1..]);
    }
  }

  /** The segment is queued with an end beyond the right edge: it is not clipped there, being
      the first one or put in front of another, or because the raw comparison misses it. */
  predicate Overruns(q: seq<Segment>, seg: Segment, edge: int) {
    && edge < seg.seqno + seg.TcpLen() && !Ignored(q, seg)
    && (Appends(q, seg) ==> !OverrunsEdge(seg, edge))
  }

  /** What overruns the edge covers everything behind it in a queue within the edge. */
  lemma {:induction false} InsertOver(seg: Segment, rest: seq<Segment>, edge: int)
    requires Within(rest, edge) && edge < seg.seqno + seg.TcpLen()
    ensures !Within(InsertBefore(seg, rest), edge)
  {
    if !seg.fin {
      DropCoveredOver(seg, rest, edge);
    }
  }

  lemma {:induction false} DropCoveredOver(seg: Segment, rest: seq<Segment>, edge: int)
    requires Within(rest, edge) && edge < seg.End()
    ensures DropCovered(seg, rest).0 == seg.(fin := DropCovered(seg, rest).0.fin) && DropCovered(seg, rest).1 == []
    decreases rest
  {
    if rest != [] {
      DropCoveredOver(seg.(fin := seg.fin || rest[0].fin), rest[1..], edge);
    }
  }

  lemma {:induction false} PlaceOver(stream: Stream, q: seq<Segment>, lo: int, seg: Segment, edge: int)
    requires q != [] && stream.Queue(q, lo) && seg.seqno < edge <= seg.seqno + 0xFFFF
    requires Within(q, edge) && Overruns(q, seg, edge)
    ensures !Within(Place(q, seg, edge), edge)
    decreases q
  {
    if seg.seqno <= q[0].seqno {
      InsertOver(seg, q, edge);
    } else if |q| == 1 {
      var r := [TrimTail(q[0], seg.seqno), ClipAtEdge(seg, edge)];
      assert Place(q, seg, edge) == r && r[1..] == [seg];
    } else if seg.seqno < q[1].seqno {
      InsertOver(seg, q[1..], edge);
      var r := [TrimTail(q[0], seg.seqno)] + InsertBefore(seg, q[1..]);
      assert r[1..] == InsertBefore(seg, q[1..]);
    } else {
      PlaceOver(stream, q[1..], q[0].End(), seg, edge);
      assert ([q[0]] + Place(q[1..], seg, edge))[1..] == Place(q[1..], seg, edge);
    }
  }

  lemma {:induction false} PlaceWithinExactly(stream: Stream, q: seq<Segment>, lo: int, seg: Segment, edge: int, hi: int)
    requires q != [] && stream.Queue(q, lo) && stream.Cut(seg) && seg.TcpLen() > 0
    requires lo <= seg.seqno < edge <= seg.seqno + 0xFFFF && !Misfires(q, seg, edge) && !Ignored(q, seg)
    requires Below(q, hi) && seg.End() <= hi && Within(q, edge)
    ensures Within(Place(q, seg, edge), edge) <==> !Overruns(q, seg, edge)
  {
    if Overruns(q, seg, edge) {
      PlaceOver(stream, q, lo, seg, edge);
    } else if seg.seqno + seg.TcpLen() <= edge {
      PlaceWithin(stream, q, lo, seg, edge, hi);
    } else {
      PlaceClipped(stream, q, lo, seg, edge);
    }
  }

  /** A segment that is appended and clipped at the edge stays within it. */
  lemma {:induction false} PlaceClipped(stream: Stream, q: seq<Segment>, lo: int, seg: Segment, edge: int)
    requires Appends(q, seg) && OverrunsEdge(seg, edge) && seg.seqno < edge <= seg.seqno + 0xFFFF
    requires stream.Queue(q, lo) && Within(q, edge) && edge < seg.seqno + seg.TcpLen()
    ensures Within(Place(q, seg, edge), edge)
    decreases q
  {
    if seg.seqno <= q[0].seqno {
      NotAppended(stream, q, lo, seg);
    } else if |q| == 1 {
      var r := [TrimTail(q[0], seg.seqno), ClipAtEdge(seg, edge)];
      assert Place(q, seg, edge) == r && r[1..] == [ClipAtEdge(seg, edge)] && r[1..][1..] == [];
    } else if seg.seqno < q[1].seqno {
      NotAppended(stream, q[1..], q[0].End(), seg);
    } else {
      PlaceClipped(stream, q[1..], q[0].End(), seg, edge);
      assert ([q[0]] + Place(q[1..], seg, edge))[1..] == Place(q[1..], seg, edge);
    }
  }

  /** What storing an out-of-sequence segment makes of the queue. */
  ghost predicate StoredIn(stream: Stream, q: seq<Segment>, lo: int, seg: Segment, edge: int, hi: int, r: seq<Segment>)
    requires seg.seqno <= edge
  {
    if q == [] then r == [seg]
    else if Ignored(q, seg) then r == q && Range(seg.seqno, seg.End()) <= Held(q)
    else if Misfires(q, seg, edge) then r != [] && r[|r| - 1].len > |r[|r| - 1].data|
    else
      && Placed(stream, q, lo, AsQueued(q, seg, edge), r)
      && Below(r, hi)
      && (Within(q, edge) ==> (Within(r, edge) <==> !Overruns(q, seg, edge)))
  }

  /** What storing means for the bytes: all of the segment below the edge is held then, and nothing
      is held that was not; of what was held only bytes at or behind its end are gone, from a segment
      that it starts in. The FIN is held if it lies within the edge. */
  lemma {:induction false} StoredBytes(stream: Stream, q: seq<Segment>, lo: int, seg: Segment, edge: int, hi: int, r: seq<Segment>)
    requires stream.Queue(q, lo) && stream.Cut(seg) && seg.TcpLen() > 0 && seg.seqno < edge <= seg.seqno + 0xFFFF
    requires StoredIn(stream, q, lo, seg, edge, hi, r) && !Misfires(q, seg, edge)
    ensures forall x | seg.seqno <= x < seg.End() && x < edge :: x in Held(r)
    ensures forall x | x in Held(r) :: x in Held(q) || seg.seqno <= x < seg.End()
    ensures forall x | x in Held(q) && x !in Held(r) :: Min(seg.End(), edge) <= x && StartsInside(q, seg, x)
    ensures HasFin(q) || (seg.fin && seg.End() < edge) ==> HasFin(r) || Ignored(q, seg)
  {
    if q == [] {
      assert r == [seg] && r[1..] == [];
    } else if !Ignored(q, seg) {
      QueuedEnds(q, seg, edge);
      PlacedBytes(stream, q, lo, seg, edge, AsQueued(q, seg, edge), r);
    }
  }

  lemma {:induction false} QueuedEnds(q: seq<Segment>, seg: Segment, edge: int)
    requires seg.seqno < edge <= seg.seqno + 0xFFFF && !Misfires(q, seg, edge) && 0 <= seg.len
    ensures var c := AsQueued(q, seg, edge);
      && c.seqno == seg.seqno && c.End() <= seg.End() && (c.End() == seg.End() || c.End() == edge)
      && (seg.End() < edge ==> c.fin == seg.fin)
  {
  }

  lemma {:induction false} PlacedBytes(stream: Stream, q: seq<Segment>, lo: int, seg: Segment, edge: int, c: Segment, r: seq<Segment>)
    requires Placed(stream, q, lo, c, r) && c.seqno == seg.seqno && 0 <= c.len
    requires c.End() <= seg.End() && (c.End() == seg.End() || c.End() == edge) && (seg.End() < edge ==> c.fin == seg.fin)
    ensures forall x | seg.seqno <= x < seg.End() && x < edge :: x in Held(r)
    ensures forall x | x in Held(r) :: x in Held(q) || seg.seqno <= x < seg.End()
    ensures forall x | x in Held(q) && x !in Held(r) :: Min(seg.End(), edge) <= x && StartsInside(q, seg, x)
    ensures HasFin(q) || (seg.fin && seg.End() < edge) ==> HasFin(r)
  {
    LostAbove(q, c);
    LostInside(q, c, seg);
  }

  /** x is in a held segment that seg starts in. */
  predicate StartsInside(q: seq<Segment>, seg: Segment, x: int) {
    q != [] && ((q[0].seqno < seg.seqno <= x < q[0].End()) || StartsInside(q[1..], seg, x))
  }

  lemma {:induction false} LostInside(q: seq<Segment>, c: Segment, seg: Segment)
    requires c.seqno == seg.seqno && 0 <= c.len
    ensures forall x | x in LostTail(q, c) :: StartsInside(q, seg, x)
  {
    if q != [] {
      LostInside(q[1..], c, seg);
    }
  }

  lemma {:induction false} InsertedIsStored(stream: Stream, q: seq<Segment>, lo: int, seg: Segment, edge: int, hi: int,
                         spot: Spot, k: nat)
    requires stream.Queue(q, lo) && stream.Cut(seg) && seg.TcpLen() > 0 && Below(q, hi) && seg.End() <= hi
    requires lo <= seg.seqno < edge <= seg.seqno + 0xFFFF
    requires k < |q| && FitsAt(q, seg.seqno, spot, k)
    ensures StoredIn(stream, q, lo, seg, edge, hi, PlaceAt(q, seg, edge, spot, k))
  {
    PlacedWhereFound(stream, q, lo, seg, edge, spot, k);
    if Ignored(q, seg) {
      IgnoredHolds(stream, q, lo, seg, edge);
    } else if Misfires(q, seg, edge) {
      MisfireBreaks(stream, q, lo, seg, edge);
    } else {
      PlaceHolds(stream, q, lo, seg, edge);
      PlaceWithin(stream, q, lo, seg, edge, hi);
      if Within(q, edge) {
        PlaceWithinExactly(stream, q, lo, seg, edge, hi);
      }
    }
  }

  // ---------------------------------------------------------------- an arriving segment

  /** The part of a segment below what has been received is dropped. */
  function TrimFront(seg: Segment, nxt: int): Segment
    requires |seg.data| == seg.len
  {
    if seg.seqno < nxt <= seg.seqno + seg.TcpLen() - 1 then
      Segment(nxt, seg.len - (nxt - seg.seqno), seg.data[nxt - seg.seqno..], seg.fin)
    else seg
  }

  /** An in-sequence segment longer than the window is cut to it and loses its FIN. */
  function ClipToWindow(seg: Segment, wnd: nat): Segment {
    if seg.TcpLen() > wnd then seg.(fin := false).Keep(wnd) else seg
  }

  predicate InWindow(seg: Segment, nxt: int, wnd: int) {
    nxt <= seg.seqno < nxt + wnd
  }

  lemma {:induction false} TrimFrontCut(stream: Stream, seg: Segment, nxt: int)
    requires stream.Cut(seg)
    ensures stream.Cut(TrimFront(seg, nxt))
  {
    if seg.seqno < nxt <= seg.seqno + seg.TcpLen() - 1 {
      var lo, k := seg.seqno - stream.first, nxt - seg.seqno;
      assert stream.bytes[lo..lo + seg.len][k..] == stream.bytes[lo + k..lo + seg.len];
    }
  }

  lemma {:induction false} ClipToWindowCut(stream: Stream, seg: Segment, wnd: nat)
    requires stream.Cut(seg) && wnd > 0
    ensures stream.Cut(ClipToWindow(seg, wnd)) && (seg.TcpLen() > 0 ==> ClipToWindow(seg, wnd).TcpLen() > 0)
  {
    if seg.TcpLen() > wnd {
      KeepCut(stream, seg.(fin := false), wnd);
    }
  }

  /** `run` merges an in-sequence segment with the queue behind it. */
  ghost predicate Merged(stream: Stream, seg: Segment, q: seq<Segment>, run: seq<Segment>, edge: int, hi: int) {
    && run != [] && run[0].seqno == seg.seqno && stream.Queue(run, seg.seqno)
    && Held(run) == Range(seg.seqno, seg.End()) + Held(q)
    && (HasFin(run) <==> seg.fin || HasFin(q))
    && Below(run[1..], hi)
    && (seg.seqno + seg.TcpLen() <= edge && Within(q, edge) ==> Within(run, edge))
  }

  lemma {:induction false} InsertBeforeMerges(stream: Stream, seg: Segment, q: seq<Segment>, edge: int, hi: int)
    requires stream.Queue(q, seg.seqno + 1) && stream.Cut(seg) && seg.TcpLen() > 0 && Below(q, hi)
    ensures Merged(stream, seg, q, InsertBefore(seg, q), edge, hi)
  {
    QueueLower(stream, q, seg.seqno + 1, seg.seqno);
    InsertBeforeHolds(stream, seg, q);
    if !seg.fin {
      DropCoveredWithin(stream, seg, q, seg.seqno, edge, hi);
    }
    var (c, next) := DropCovered(seg, q);
    assert ([ClipBefore(c, next)] + next)[1..] == next;
  }

  /** A merged run delivers exactly what the segment and the queue cover together. */
  lemma {:induction false} MergedDelivers(stream: Stream, seg: Segment, q: seq<Segment>, first: Segment, next: seq<Segment>,
                       edge: int, hi: int)
    requires stream.Cut(seg) && Merged(stream, seg, q, [first] + next, edge, hi)
    ensures var (d, f, n, r) := Chain(next, seg.seqno + first.TcpLen());
      Delivers(stream, Range(seg.seqno, seg.End()) + Held(q), seg.fin || HasFin(q), seg.seqno,
               first.data + d, first.fin || f, n, r)
  {
    var run := [first] + next;
    assert run[0] == first;
    ChainDelivers(stream, run, seg.seqno);
    ChainFirst(first, next);
    var (d, f, n, r) := Chain(run, seg.seqno);
    DeliversSame(stream, Held(run), Range(seg.seqno, seg.End()) + Held(q), HasFin(run), seg.fin || HasFin(q),
                 seg.seqno, d, f, n, r);
  }

  lemma {:induction false} ChainFirst(first: Segment, next: seq<Segment>)
    ensures var (d, f, n, r) := Chain(next, first.seqno + first.TcpLen());
      Chain([first] + next, first.seqno) == (first.data + d, first.fin || f, n, r)
  {
    var run := [first] + next;
    assert run[0] == first && run[1..] == next;
  }

  lemma {:induction false} DeliversSame(stream: Stream, h: set<int>, h': set<int>, f: bool, f': bool, nxt: int,
                     data: seq<byte>, fin: bool, nxt': int, rest: seq<Segment>)
    requires Delivers(stream, h, f, nxt, data, fin, nxt', rest) && h == h' && f == f'
    ensures Delivers(stream, h', f', nxt, data, fin, nxt', rest)
  {
  }

  lemma {:induction false} BelowUp(q: seq<Segment>, lo: int, hi: int)
    requires Below(q, lo) && lo <= hi
    ensures Below(q, hi)
  {
    if q != [] {
      BelowUp(q[1..], lo, hi);
    }
  }

  // ---------------------------------------------------------------- the receive window

  function Min(a: int, b: int): int {
    if a < b then a else b
  }

  // ---------------------------------------------------------------- the queue, on serial comparisons

  /** The new segment gives up what overlaps the one behind it. */
  method CutBefore(seg: Segment, next: seq<Segment>) returns (r: Segment)
    requires seg.len <= 0xFFFF && (next != [] ==> seg.seqno <= next[0].seqno <= seg.seqno + 0x4000_0000)
    ensures r == ClipBefore(seg, next)
  {
    r := seg;
    if next != [] && SeqGt(seg.seqno + seg.len, next[0].seqno) {
      r := seg.Keep(U16(next[0].seqno - seg.seqno));
    }
  }

  /** tcp_oos_insert_segment, on the code's serial comparisons. */
  method OosInsertSegment(seg: Segment, rest: seq<Segment>, ghost stream: Stream, ghost hi: int)
    returns (r: seq<Segment>)
    requires stream.Queue(rest, seg.seqno) && Below(rest, hi) && hi <= seg.seqno + 0x4000_0000
    requires stream.Cut(seg) && seg.TcpLen() > 0
    requires rest != [] && rest[0].seqno == seg.seqno ==> rest[0].len < seg.len
    ensures r == InsertBefore(seg, rest)
  {
    var cseg, next := seg, rest;
    if cseg.fin {
      next := [];
    } else {
      while next != [] && SeqGeq(seg.seqno + cseg.len, next[0].seqno + next[0].len)
        invariant cseg == seg.(fin := cseg.fin) && (cseg.fin ==> next == [])
        invariant stream.Queue(next, seg.seqno) && Below(next, hi)
        invariant next != [] && next[0].seqno == seg.seqno ==> next[0].len < seg.len
        invariant DropCovered(seg, rest) == DropCovered(cseg, next)
        decreases next
      {
        if next[0].fin {
          cseg := cseg.(fin := true);
        }
        QueueLower(stream, next[1..], next[0].End(), seg.seqno);
        next := next[1..];
      }
      cseg := CutBefore(cseg, next);
    }
    r := [cseg] + next;
  }

  /** The held segment in front of the new one gives up what overlaps it. */
  method TrimBehind(held: Segment, seqno: int) returns (r: Segment)
    requires held.seqno < seqno <= held.seqno + 0x4000_0000 && held.len <= 0xFFFF
    ensures r == TrimTail(held, seqno)
  {
    r := held;
    if SeqGt(held.seqno + held.len, seqno) {
      r := held.Keep(U16(seqno - held.seqno));
    }
  }

  /** The overrun check for a segment appended behind the queue. */
  method CutAtWindow(seg: Segment, edge: int) returns (r: Segment)
    requires seg.seqno < edge <= seg.seqno + 0xFFFF
    ensures r == ClipAtEdge(seg, edge)
  {
    r := seg;
    if U32(seg.TcpLen() + seg.seqno) > U32(edge) {
      r := r.(fin := false);
      r := r.Keep(U16(U32(edge - seg.seqno)));
    }
  }

  /** The walk along the queue: where the new segment goes. */
  method Locate(q: seq<Segment>, seg: Segment, ghost stream: Stream, ghost lo: int)
    returns (spot: Spot, k: nat)
    requires q != [] && stream.Queue(q, lo) && Below(q, lo + 0x2_0000) && lo <= seg.seqno <= lo + 0x2_0000
    ensures k < |q| && FitsAt(q, seg.seqno, spot, k)
  {
    k := 0;
    while k < |q|
      invariant 0 <= k < |q|
      invariant k > 0 ==> lo <= q[k - 1].seqno < seg.seqno
    {
      Nth(stream, q, lo, lo + 0x2_0000, k);
      if SeqEq(seg.seqno, q[k].seqno) {
        return Same, k;
      }
      if k == 0 {
        if SeqLt(seg.seqno, q[k].seqno) {
          return Front, k;
        }
      } else {
        if SeqBetween(seg.seqno, q[k - 1].seqno + 1, q[k].seqno - 1) {
          return Between, k;
        }
      }
      if k + 1 == |q| && SeqGt(seg.seqno, q[k].seqno) {
        return Behind, k;
      }
      k := k + 1;
    }
    assert false;
  }

  /** The arm of the walk taken for the spot that was found; there may be no memory for the
      copy of the segment. */
  method Insert(q: seq<Segment>, seg: Segment, edge: int, spot: Spot, k: nat, memory: bool, ghost stream: Stream, ghost lo: int)
    returns (stored: bool, r: seq<Segment>)
    requires stream.Queue(q, lo) && Below(q, lo + 0x2_0000)
    requires stream.Cut(seg) && seg.TcpLen() > 0 && lo <= seg.seqno < edge <= lo + 0xFFFF
    requires k < |q| && FitsAt(q, seg.seqno, spot, k)
    ensures r == if stored then PlaceAt(q, seg, edge, spot, k) else q
    ensures memory ==> stored
  {
    ghost var hi := lo + 0x2_0000;
    Nth(stream, q, lo, hi, k);
    r := q;
    match spot {
      case Same =>
        if seg.len <= q[k].len {
          return true, r;
        } else if memory {
          var tail := OosInsertSegment(seg, q[k..], stream, hi);
          r := q[..k] + tail;
        }
      case Front =>
        if memory {
          r := OosInsertSegment(seg, q, stream, hi);
        }
      case Between =>
        if memory {
          Nth(stream, q, lo, hi, k - 1);
          var prev := TrimBehind(q[k - 1], seg.seqno);
          var tail := OosInsertSegment(seg, q[k..], stream, hi);
          r := q[..k - 1] + [prev] + tail;
        }
      case Behind =>
        if q[k].fin {
          return true, r;
        } else if memory {
          var next := TrimBehind(q[k], seg.seqno);
          var cseg := CutAtWindow(seg, edge);
          r := q[..k] + [next, cseg];
        }
    }
    return memory, r;
  }

  /** Stores an out-of-sequence segment in the queue, unless there is no memory for it. */
  method Store(q: seq<Segment>, seg: Segment, edge: int, memory: bool, ghost stream: Stream, ghost lo: int)
    returns (stored: bool, r: seq<Segment>)
    requires stream.Queue(q, lo) && Below(q, lo + 0x2_0000)
    requires stream.Cut(seg) && seg.TcpLen() > 0 && lo <= seg.seqno < edge <= lo + 0xFFFF
    requires seg.End() <= lo + 0x2_0000
    ensures if stored then StoredIn(stream, q, lo, seg, edge, lo + 0x2_0000, r) else r == q
    ensures memory ==> stored
  {
    if q == [] {
      return memory, if memory then [seg] else [];
    } else {
      var spot, k := Locate(q, seg, stream, lo);
      InsertedIsStored(stream, q, lo, seg, edge, lo + 0x2_0000, spot, k);
      stored, r := Insert(q, seg, edge, spot, k, memory, stream, lo);
    }
  }

  /** Adjusts the queue to an in-sequence segment: an in-sequence FIN empties it, covered
      segments go, and the new segment is cut where the first one left starts. */
  method Absorb(seg: Segment, q: seq<Segment>, ghost stream: Stream, ghost edge: int, ghost hi: int)
    returns (inseg: Segment, next: seq<Segment>)
    requires stream.Queue(q, seg.seqno + 1) && Below(q, hi) && hi <= seg.seqno + 0x4000_0000
    requires stream.Cut(seg) && seg.TcpLen() > 0
    ensures Merged(stream, seg, q, [inseg] + next, edge, hi)
  {
    InsertBeforeMerges(stream, seg, q, edge, hi);
    inseg, next := seg, q;
    if q != [] {
      if inseg.fin {
        next := [];
      } else {
        while next != [] && SeqGeq(seg.seqno + inseg.TcpLen(), next[0].seqno + next[0].len)
          invariant inseg == seg.(fin := inseg.fin) && (inseg.fin ==> next == [])
          invariant stream.Queue(next, seg.seqno + 1) && Below(next, hi)
          invariant DropCovered(seg, q) == DropCovered(inseg, next)
          decreases next
        {
          if next[0].fin {
            inseg := inseg.(fin := true);
          }
          QueueLower(stream, next[1..], next[0].End(), seg.seqno + 1);
          next := next[1..];
        }
        inseg := CutBefore(inseg, next);
      }
    }
    assert [inseg] + next == InsertBefore(seg, q);
  }

  /** The receive window of a PCB: rcv_nxt, rcv_wnd, rcv_ann_wnd and rcv_ann_right_edge. */
  datatype Window = Window(nxt: int, wnd: int, annWnd: int, annEdge: int) {
    function Edge(): int {
      nxt + wnd
    }

    /** The announced window is one the receiver can honour, and announcing the stored value
        never moves the right edge left. */
    predicate Sound() {
      0 <= annWnd <= wnd <= TCP_WND && annEdge <= nxt + annWnd && Edge() <= annEdge + 0x4000_0000
    }
  }

  /** The window to announce: all there is if the edge moves by half the full window or one
      segment, otherwise what keeps the edge where it is, or none if data came beyond it. */
  predicate Updated(w: Window, r: Window, mss: nat) {
    && r == w.(annWnd := r.annWnd)
    && (w.Edge() >= w.annEdge + Min(TCP_WND / 2, mss) ==> r.annWnd == w.wnd)
    && (w.Edge() < w.annEdge + Min(TCP_WND / 2, mss) ==>
          r.annWnd == if w.nxt > w.annEdge then 0 else w.annEdge - w.nxt)
  }

  /** tcp_update_rcv_ann_wnd. An advance of the announced edge that is not just catching up
      with what was received is at least half the full window or one segment. */
  method UpdateRcvAnnWnd(w: Window, mss: nat) returns (r: Window, inflation: int)
    ensures r == w.(annWnd := r.annWnd)
    ensures 0 <= w.wnd <= TCP_WND && w.annEdge <= w.Edge() <= w.annEdge + 0x4000_0000 ==>
      && r.Sound() && 0 <= inflation && Updated(w, r, mss)
      && (w.Edge() >= w.annEdge + Min(TCP_WND / 2, mss) ==> r.annWnd == w.wnd && inflation == w.Edge() - w.annEdge)
      && (w.Edge() < w.annEdge + Min(TCP_WND / 2, mss) ==>
            inflation == 0 && (w.nxt + r.annWnd == w.annEdge || (w.annEdge < w.nxt && r.annWnd == 0)))
  {
    var newRightEdge := w.nxt + w.wnd;
    if SeqGeq(newRightEdge, w.annEdge + Min(TCP_WND / 2, mss)) {
      return w.(annWnd := w.wnd), U32(newRightEdge - w.annEdge);
    } else if SeqGt(w.nxt, w.annEdge) {
      return w.(annWnd := 0), 0;
    } else {
      if w.nxt <= w.annEdge <= w.nxt + 0xFFFF {
        SmallWord(w.annEdge - w.nxt);
      }
      return w.(annWnd := U16(U32(w.annEdge - w.nxt))), 0;
    }
  }

  /** If a segment were sent now: the announced edge would stay, or catch up with what has been
      received, or move by half the full window or one segment at least. */
  predicate Announceable(w: Window, mss: nat) {
    var edge := w.nxt + w.annWnd;
    edge == w.annEdge || (w.annEdge < w.nxt && edge == w.nxt) || edge >= w.annEdge + Min(TCP_WND / 2, mss)
  }

  /** What is known of the window between two calls: it is sound, the queue stays within it, and
      announcing it never moves the edge by too little. */
  predicate Guarded(w: Window, q: seq<Segment>, mss: nat) {
    w.Sound() && Within(q, w.Edge()) && Announceable(w, mss)
  }

  /** rcv_wnd after n has been taken from it, in 16 bits. */
  function Left(wnd: nat, n: nat): (r: nat)
    requires wnd <= 0xFFFF
    ensures r <= 0xFFFF && (n <= wnd ==> r == wnd - n)
    decreases n
  {
    if n <= wnd then wnd - n else Left(0xFFFF, n - wnd - 1)
  }

  lemma {:induction false} LeftIsU16(wnd: nat, n: nat)
    requires wnd <= 0xFFFF
    ensures Left(wnd, n) == U16(wnd - n)
    decreases n
  {
    if n > wnd {
      LeftIsU16(0xFFFF, n - wnd - 1);
    }
  }

  lemma {:induction false} LeftMore(wnd: nat, a: nat, b: nat)
    requires wnd <= 0xFFFF
    ensures Left(Left(wnd, a), b) == Left(wnd, a + b)
    decreases a
  {
    if a > wnd {
      LeftMore(0xFFFF, a - wnd - 1, b);
    }
  }

  /** Sequence space has moved out of the window w, leaving r. */
  predicate MovedOut(w: Window, r: Window) {
    0 <= w.wnd <= 0xFFFF && w.nxt <= r.nxt && r.wnd == Left(w.wnd, r.nxt - w.nxt) && r.annEdge == w.annEdge
  }

  lemma {:induction false} MovedOutMore(w: Window, v: Window, r: Window)
    requires MovedOut(w, v) && MovedOut(v, r)
    ensures MovedOut(w, r)
  {
    LeftMore(w.wnd, v.nxt - w.nxt, r.nxt - v.nxt);
  }

  /** A guarded window stays so, and its edge where it is. */
  predicate StaysGuarded(w: Window, q: seq<Segment>, r: Window, rest: seq<Segment>, mss: nat) {
    Guarded(w, q, mss) ==> Guarded(r, rest, mss) && r.Edge() == w.Edge()
  }

  lemma {:induction false} FirstMovedOut(w: Window, q: seq<Segment>, r: Window, mss: nat)
    requires q != [] && q[0].seqno == w.nxt && MovedOut(w, r) && r.nxt == w.nxt + q[0].TcpLen()
    requires q[0].TcpLen() <= w.wnd && w.Sound() ==> r.Sound() && r.Edge() == w.Edge() && Announceable(r, mss)
    ensures w.Sound() && Within(q, w.Edge()) ==> Guarded(r, q[1..], mss) && r.Edge() == w.Edge()
  {
  }

  /** Sequence space that has been received moves out of the window. */
  method TakeOver(w: Window, len: nat, mss: nat) returns (r: Window)
    requires 0 <= w.wnd <= 0xFFFF
    ensures r.nxt == w.nxt + len && MovedOut(w, r)
    ensures len <= w.wnd && w.Sound() ==> r.Sound() && r.Edge() == w.Edge() && Announceable(r, mss)
  {
    LeftIsU16(w.wnd, len);
    var inflation;
    r, inflation := UpdateRcvAnnWnd(w.(nxt := w.nxt + len, wnd := U16(w.wnd - len)), mss);
  }

  /** Every held segment that continues what has been received is taken over. */
  method Drain(w: Window, q: seq<Segment>, mss: nat, ghost stream: Stream, ghost hi: int)
    returns (r: Window, data: seq<byte>, fin: bool, rest: seq<Segment>)
    requires stream.Queue(q, w.nxt) && Below(q, hi) && hi <= w.nxt + 0x4000_0000
    requires 0 <= w.wnd <= 0xFFFF
    ensures Chain(q, w.nxt) == (data, fin, r.nxt, rest)
    ensures MovedOut(w, r) && Below(rest, hi) && StaysGuarded(w, q, r, rest, mss)
  {
    r, data, fin, rest := w, [], false, q;
    TakenOverNone(q, w.nxt);
    while rest != [] && SeqEq(rest[0].seqno, r.nxt)
      invariant Draining(stream, w, q, mss, hi, r, data, fin, rest)
      decreases rest
    {
      r, data, fin, rest := DrainOne(r, data, fin, rest, mss, stream, w, q, hi);
    }
    TakenOverAll(q, w.nxt, data, fin, r.nxt, rest);
  }

  /** Some of the queue has been taken over. */
  ghost predicate Draining(stream: Stream, w: Window, q: seq<Segment>, mss: nat, hi: int,
                           r: Window, data: seq<byte>, fin: bool, rest: seq<Segment>) {
    && MovedOut(w, r) && StaysGuarded(w, q, r, rest, mss)
    && stream.Queue(rest, r.nxt) && Below(rest, hi) && hi <= r.nxt + 0x4000_0000
    && TakenOver(q, w.nxt, data, fin, r.nxt, rest)
  }

  /** One held segment taken over. */
  method DrainOne(v: Window, data: seq<byte>, fin: bool, rest: seq<Segment>, mss: nat,
                  ghost stream: Stream, ghost w: Window, ghost q: seq<Segment>, ghost hi: int)
    returns (r: Window, data': seq<byte>, fin': bool, rest': seq<Segment>)
    requires Draining(stream, w, q, mss, hi, v, data, fin, rest) && rest != [] && SeqEq(rest[0].seqno, v.nxt)
    ensures Draining(stream, w, q, mss, hi, r, data', fin', rest') && rest' == rest[1..]
  {
    assert rest[0].seqno == v.nxt;
    TakeOverNext(q, w.nxt, data, fin, v.nxt, rest);
    var cseg := rest[0];
    r := TakeOver(v, cseg.TcpLen(), mss);
    FirstMovedOut(v, rest, r, mss);
    MovedOutMore(w, v, r);
    data', fin', rest' := data, fin, rest[1..];
    if |cseg.data| > 0 {
      data' := data + cseg.data;
    }
    if cseg.fin {
      fin' := true;
    }
    assert data' == data + cseg.data && fin' == (fin || cseg.fin);
  }

  /** The merged segment is taken over first, then everything behind it that continues it. */
  method TakeOverRun(inseg: Segment, next: seq<Segment>, w: Window, mss: nat, ghost stream: Stream, ghost hi: int)
    returns (r: Window, data: seq<byte>, fin: bool, rest: seq<Segment>)
    requires inseg.seqno == w.nxt && stream.Queue([inseg] + next, w.nxt) && Below(next, hi) && hi <= w.nxt + 0x4000_0000
    requires 0 <= w.wnd <= 0xFFFF
    ensures var (d, f, n, q) := Chain(next, w.nxt + inseg.TcpLen());
      data == inseg.data + d && fin == (inseg.fin || f) && r.nxt == n && rest == q
    ensures MovedOut(w, r) && Below(rest, hi)
    ensures w.Sound() && Within([inseg] + next, w.Edge()) ==> Guarded(r, rest, mss) && r.Edge() == w.Edge()
  {
    ghost var run := [inseg] + next;
    assert run[0] == inseg && run[1..] == next;
    r := TakeOver(w, inseg.TcpLen(), mss);
    ghost var v := r;
    FirstMovedOut(w, run, v, mss);
    r, data, fin, rest := Drain(r, next, mss, stream, hi);
    data, fin := inseg.data + data, inseg.fin || fin;
    MovedOutMore(w, v, r);
  }

  /** An in-sequence segment: cut to the window, merged with the queue, and delivered together
      with every held segment that now continues it. */
  method Accept(seg: Segment, q: seq<Segment>, w: Window, mss: nat, ghost stream: Stream, ghost hi: int)
    returns (r: Window, data: seq<byte>, fin: bool, rest: seq<Segment>)
    requires stream.Queue(q, w.nxt + 1) && Below(q, hi) && hi <= w.nxt + 0x4000_0000
    requires stream.Cut(seg) && seg.TcpLen() > 0 && seg.seqno == w.nxt && 0 < w.wnd <= 0xFFFF
    ensures var c := ClipToWindow(seg, w.wnd);
      Delivers(stream, Range(c.seqno, c.End()) + Held(q), c.fin || HasFin(q), w.nxt, data, fin, r.nxt, rest)
    ensures MovedOut(w, r) && Below(rest, hi)
    ensures w.Sound() && Within(q, w.Edge()) ==> Guarded(r, rest, mss) && r.Edge() == w.Edge()
  {
    var clipped := seg;
    if seg.TcpLen() > w.wnd {
      clipped := seg.(fin := false).Keep(w.wnd);
    }
    assert clipped == ClipToWindow(seg, w.wnd);
    ClipToWindowCut(stream, seg, w.wnd);
    r, data, fin, rest := AcceptClipped(clipped, q, w, mss, stream, hi);
  }

  /** The same once the segment is cut to the window. */
  method AcceptClipped(clipped: Segment, q: seq<Segment>, w: Window, mss: nat, ghost stream: Stream, ghost hi: int)
    returns (r: Window, data: seq<byte>, fin: bool, rest: seq<Segment>)
    requires stream.Queue(q, w.nxt + 1) && Below(q, hi) && hi <= w.nxt + 0x4000_0000
    requires stream.Cut(clipped) && 0 < clipped.TcpLen() <= w.wnd <= 0xFFFF && clipped.seqno == w.nxt
    ensures Delivers(stream, Range(clipped.seqno, clipped.End()) + Held(q), clipped.fin || HasFin(q), w.nxt, data, fin, r.nxt, rest)
    ensures MovedOut(w, r) && Below(rest, hi)
    ensures w.Sound() && Within(q, w.Edge()) ==> Guarded(r, rest, mss) && r.Edge() == w.Edge()
  {
    ghost var edge := w.Edge();
    var inseg, next := Absorb(clipped, q, stream, edge, hi);
    assert ([inseg] + next)[0] == inseg && ([inseg] + next)[1..] == next;
    MergedDelivers(stream, clipped, q, inseg, next, edge, hi);
    r, data, fin, rest := TakeOverRun(inseg, next, w, mss, stream, hi);
  }

  // ---------------------------------------------------------------- the connection

  /** What is known of the receive side of a connection between two arriving segments. */
  ghost predicate Reassembling(stream: Stream, w: Window, q: seq<Segment>, delivered: seq<byte>) {
    && stream.first <= w.nxt <= stream.End() + 1 && 0 <= w.wnd <= 0xFFFF
    && stream.Queue(q, w.nxt + 1) && Below(q, w.nxt + 1 + 0x2_0000)
    && delivered == stream.Slice(stream.first, Min(w.nxt, stream.End()))
  }

  /** A segment, trimmed in front, that occupies sequence space and starts inside the window. */
  predicate Acceptable(seg: Segment, w: Window) {
    seg.TcpLen() > 0 && InWindow(seg, w.nxt, w.wnd)
  }

  /** The segment is queued out of sequence while the window wraps behind it. */
  predicate Misqueued(seg: Segment, w: Window, q: seq<Segment>) {
    Acceptable(seg, w) && w.nxt < seg.seqno && !Ignored(q, seg) && Misfires(q, seg, w.Edge())
  }

  /** The segment is queued out of sequence with an end beyond the window. */
  predicate Spills(seg: Segment, w: Window, q: seq<Segment>) {
    Acceptable(seg, w) && w.nxt < seg.seqno && Overruns(q, seg, w.Edge())
  }

  /** Segments of less than 64 KiB that are not half the sequence space away. */
  predicate Arrives(seg: Segment, w: Window) {
    seg.len <= 0xFFFF - 40 && w.nxt - 0x4000_0000 <= seg.seqno <= w.nxt + 0x4000_0000
  }

  lemma {:induction false} DeliveryExtends(stream: Stream, w: Window, q: seq<Segment>, delivered: seq<byte>, held: set<int>, finHeld: bool,
                        w': Window, q': seq<Segment>, data: seq<byte>, fin: bool)
    requires Reassembling(stream, w, q, delivered) && w.nxt <= stream.End()
    requires Delivers(stream, held, finHeld, w.nxt, data, fin, w'.nxt, q')
    requires 0 <= w'.wnd <= 0xFFFF && Below(q', w.nxt + 1 + 0x2_0000)
    ensures Reassembling(stream, w', q', delivered + data)
  {
    BelowUp(q', w.nxt + 1 + 0x2_0000, w'.nxt + 1 + 0x2_0000);
    assert stream.bytes[..w.nxt - stream.first] + stream.bytes[w.nxt - stream.first..w.nxt + |data| - stream.first]
        == stream.bytes[..w.nxt + |data| - stream.first];
  }

  lemma {:induction false} StoredKeeps(stream: Stream, seg: Segment, w: Window, q: seq<Segment>, delivered: seq<byte>, q': seq<Segment>)
    requires Reassembling(stream, w, q, delivered) && stream.Cut(seg) && Arrives(seg, w)
    requires Acceptable(seg, w) && w.nxt < seg.seqno
    requires StoredIn(stream, q, w.nxt + 1, seg, w.Edge(), w.nxt + 1 + 0x2_0000, q')
    ensures stream.Queue(q', w.nxt + 1) && Below(q', w.nxt + 1 + 0x2_0000) <==> !Misqueued(seg, w, q)
    ensures Within(q, w.Edge()) && !Misqueued(seg, w, q) ==>
      (Within(q', w.Edge()) <==> q' == q || !Spills(seg, w, q))
  {
    if Misqueued(seg, w, q) {
      if stream.Queue(q', w.nxt + 1) && Below(q', w.nxt + 1 + 0x2_0000) {
        Nth(stream, q', w.nxt + 1, w.nxt + 1 + 0x2_0000, |q'| - 1);
        assert false;
      }
    } else if q == [] {
      assert q' == [seg] && q'[1..] == [];
      assert stream.Queue(q'[1..], seg.End());
    }
  }

  /** What one arriving segment, trimmed in front, does to the window and the queue, and what
      it delivers. */
  ghost predicate Received(stream: Stream, seg: Segment, w: Window, q: seq<Segment>,
                           w': Window, q': seq<Segment>, data: seq<byte>, fin: bool)
    requires 0 <= w.wnd <= 0xFFFF
  {
    if Acceptable(seg, w) && seg.seqno == w.nxt then
      var c := ClipToWindow(seg, w.wnd);
      && Delivers(stream, Range(c.seqno, c.End()) + Held(q), c.fin || HasFin(q), w.nxt, data, fin, w'.nxt, q')
      && MovedOut(w, w')
    else
      && MaybeAnnounced(w, w') && data == [] && !fin
      && (q' == q || (Acceptable(seg, w) && StoredIn(stream, q, w.nxt + 1, seg, w.Edge(), w.nxt + 1 + 0x2_0000, q')))
  }

  /** The invariant after a segment: byte-correct reassembly survives every segment, except one
      that is queued while the window wraps behind it, which always breaks it; and everything
      stays within a guarded window, except a segment that is queued across its edge. */
  ghost predicate Keeps(stream: Stream, seg: Segment, w: Window, q: seq<Segment>, delivered: seq<byte>, mss: nat,
                        w': Window, q': seq<Segment>, data: seq<byte>)
  {
    && (Reassembling(stream, w', q', delivered + data) <==> !(Misqueued(seg, w, q) && q' != q))
    && (Guarded(w, q, mss) ==>
          && w'.Sound() && Announceable(w', mss) && w'.Edge() == w.Edge() && NoSmallAdvance(w, w', mss)
          && (!Misqueued(seg, w, q) ==> (Within(q', w.Edge()) <==> !(Spills(seg, w, q) && q' != q))))
  }

  /** The announced edge has not moved left, nor by too little except to catch up with what has
      been received. */
  predicate NoSmallAdvance(w: Window, w': Window, mss: nat) {
    && w.annEdge <= w'.annEdge
    && (w.annEdge < w'.annEdge ==> w'.annEdge == w'.nxt || w'.annEdge >= w.annEdge + Min(TCP_WND / 2, mss))
  }

  /** The window after an attempt to send an empty ACK. */
  predicate MaybeAnnounced(w: Window, w': Window) {
    w' == w || w' == w.(annEdge := w.nxt + w.annWnd)
  }

  lemma {:induction false} DroppedHolds(stream: Stream, seg: Segment, w: Window, q: seq<Segment>, delivered: seq<byte>, mss: nat,
                                        w': Window)
    requires Reassembling(stream, w, q, delivered) && stream.Cut(seg) && MaybeAnnounced(w, w')
    requires Acceptable(seg, w) ==> w.nxt < seg.seqno
    ensures Received(stream, seg, w, q, w', q, [], false)
    ensures Keeps(stream, seg, w, q, delivered, mss, w', q, [])
  {
    assert delivered + [] == delivered;
  }

  lemma {:induction false} AcceptedHolds(stream: Stream, seg: Segment, w: Window, q: seq<Segment>, delivered: seq<byte>, mss: nat,
                      w': Window, q': seq<Segment>, data: seq<byte>, fin: bool)
    requires Reassembling(stream, w, q, delivered) && stream.Cut(seg)
    requires Acceptable(seg, w) && seg.seqno == w.nxt
    requires Received(stream, seg, w, q, w', q', data, fin)
    requires Below(q', w.nxt + 1 + 0x2_0000)
    requires w.Sound() && Within(q, w.Edge()) ==> Guarded(w', q', mss) && w'.Edge() == w.Edge()
    ensures Keeps(stream, seg, w, q, delivered, mss, w', q', data)
  {
    var c := ClipToWindow(seg, w.wnd);
    DeliveryExtends(stream, w, q, delivered, Range(c.seqno, c.End()) + Held(q), c.fin || HasFin(q), w', q', data, fin);
  }

  lemma {:induction false} StoredHolds(stream: Stream, seg: Segment, w: Window, q: seq<Segment>, delivered: seq<byte>, mss: nat,
                    w': Window, q': seq<Segment>)
    requires Reassembling(stream, w, q, delivered) && stream.Cut(seg) && Arrives(seg, w) && MaybeAnnounced(w, w')
    requires Acceptable(seg, w) && w.nxt < seg.seqno
    requires StoredIn(stream, q, w.nxt + 1, seg, w.Edge(), w.nxt + 1 + 0x2_0000, q')
    ensures Received(stream, seg, w, q, w', q', [], false)
    ensures Keeps(stream, seg, w, q, delivered, mss, w', q', [])
  {
    StoredKeeps(stream, seg, w, q, delivered, q');
    assert delivered + [] == delivered;
  }

  /** The pending-acknowledgement flags of a PCB. */
  datatype Ack = Ack(now: bool, delay: bool)

  /** tcp_send_empty_ack: sending any segment announces the window; there may be no buffer. */
  method SendEmptyAck(w: Window, ack: Ack, memory: bool) returns (w': Window, ack': Ack)
    ensures (w', ack') == if memory then (w.(annEdge := w.nxt + w.annWnd), Ack(false, false)) else (w, ack)
    ensures w.Sound() ==> w'.Sound() && w.annEdge <= w'.annEdge
  {
    w', ack' := w, ack;
    if memory {
      w', ack' := w.(annEdge := w.nxt + w.annWnd), Ack(false, false);
    }
  }

  /** The arm of tcp_receive for an out-of-sequence segment inside the window. */
  method Enqueue(seg: Segment, w: Window, q: seq<Segment>, ack: Ack, ackMemory: bool, segMemory: bool, ghost mss: nat,
                 ghost stream: Stream, ghost delivered: seq<byte>)
    returns (w': Window, q': seq<Segment>, ack': Ack)
    requires Reassembling(stream, w, q, delivered) && stream.Cut(seg) && Arrives(seg, w)
    requires Acceptable(seg, w) && w.nxt < seg.seqno
    ensures Received(stream, seg, w, q, w', q', [], false)
    ensures Keeps(stream, seg, w, q, delivered, mss, w', q', [])
    ensures segMemory ==> StoredIn(stream, q, w.nxt + 1, seg, w.Edge(), w.nxt + 1 + 0x2_0000, q')
    ensures (w', ack') == if ackMemory then (w.(annEdge := w.nxt + w.annWnd), Ack(false, false)) else (w, ack)
  {
    w', ack' := SendEmptyAck(w, ack, ackMemory);
    var stored;
    stored, q' := Store(q, seg, w.Edge(), segMemory, stream, w.nxt + 1);
    if stored {
      StoredHolds(stream, seg, w, q, delivered, mss, w', q');
    } else {
      DroppedHolds(stream, seg, w, q, delivered, mss, w');
    }
  }

  /** The arm of tcp_receive that takes a segment trimmed in front: delivery, the
      out-of-sequence queue, or nothing. */
  method Dispatch(seg: Segment, w: Window, q: seq<Segment>, ack: Ack, mss: nat, ackMemory: bool, segMemory: bool,
                  ghost stream: Stream, ghost delivered: seq<byte>)
    returns (w': Window, q': seq<Segment>, data: seq<byte>, fin: bool, ack': Ack)
    requires Reassembling(stream, w, q, delivered) && stream.Cut(seg) && Arrives(seg, w) && seg.TcpLen() > 0
    ensures Received(stream, seg, w, q, w', q', data, fin)
    ensures Keeps(stream, seg, w, q, delivered, mss, w', q', data)
    ensures Acceptable(seg, w) && seg.seqno == w.nxt ==>
      ack' == if ack.delay then Ack(true, false) else ack.(delay := true)
    ensures !(Acceptable(seg, w) && seg.seqno == w.nxt) ==>
      (w', ack') == if ackMemory then (w.(annEdge := w.nxt + w.annWnd), Ack(false, false)) else (w, ack)
    ensures Acceptable(seg, w) && w.nxt < seg.seqno && segMemory ==>
      StoredIn(stream, q, w.nxt + 1, seg, w.Edge(), w.nxt + 1 + 0x2_0000, q')
  {
    w', q', data, fin, ack' := w, q, [], false, ack;
    if SeqBetween(seg.seqno, w.nxt, w.nxt + w.wnd - 1) {
      if SeqEq(w.nxt, seg.seqno) {
        w', data, fin, q' := Accept(seg, q, w, mss, stream, w.nxt + 1 + 0x2_0000);
        AcceptedHolds(stream, seg, w, q, delivered, mss, w', q', data, fin);
        ack' := if ack.delay then Ack(true, false) else ack.(delay := true);
      } else {
        w', q', ack' := Enqueue(seg, w, q, ack, ackMemory, segMemory, mss, stream, delivered);
      }
    } else {
      w', ack' := SendEmptyAck(w, ack, ackMemory);
      DroppedHolds(stream, seg, w, q, delivered, mss, w');
    }
  }

  /** Trimming takes nothing from the end of a segment, and a segment that reaches rcv_nxt starts
      there afterwards. */
  lemma {:induction false} Trimmed(stream: Stream, seg: Segment, w: Window, q: seq<Segment>,
                                   w': Window, q': seq<Segment>, data: seq<byte>, fin: bool)
    requires stream.Cut(seg) && 0 <= w.wnd <= 0xFFFF && seg.TcpLen() > 0
    requires Received(stream, TrimFront(seg, w.nxt), w, q, w', q', data, fin)
    ensures seg.seqno <= w.nxt < seg.seqno + seg.TcpLen() && w.wnd > 0 ==>
      && Acceptable(TrimFront(seg, w.nxt), w) && TrimFront(seg, w.nxt).seqno == w.nxt
      && Min(seg.seqno + seg.TcpLen(), w.Edge()) <= w'.nxt
    ensures !(seg.seqno <= w.nxt < seg.seqno + seg.TcpLen() && w.wnd > 0) ==>
      !(Acceptable(TrimFront(seg, w.nxt), w) && TrimFront(seg, w.nxt).seqno == w.nxt)
    ensures w.nxt < seg.seqno ==> TrimFront(seg, w.nxt) == seg
  {
    TrimFrontCut(stream, seg, w.nxt);
    if seg.seqno <= w.nxt < seg.seqno + seg.TcpLen() && w.wnd > 0 {
      InSequenceProgress(stream, TrimFront(seg, w.nxt), w, q, w', q', data, fin);
    }
  }

  /** Trimming the front of an arriving segment; one that is all old is acknowledged at once. */
  method Trim(seg: Segment, nxt: int, ack: Ack) returns (inseg: Segment, ack': Ack)
    requires |seg.data| == seg.len <= 0xFFFF && nxt - 0x4000_0000 <= seg.seqno <= nxt + 0x4000_0000 && seg.TcpLen() > 0
    ensures inseg == TrimFront(seg, nxt)
    ensures ack' == ack.(now := ack.now || seg.seqno + seg.TcpLen() <= nxt)
  {
    inseg, ack' := seg, ack;
    if SeqBetween(nxt, seg.seqno + 1, seg.seqno + seg.TcpLen() - 1) {
      var off := S32(nxt - seg.seqno);
      inseg := Segment(nxt, seg.len - off, seg.data[off..], seg.fin);
    } else if SeqLt(seg.seqno, nxt) {
      ack' := ack.(now := true);
    }
  }

  /** A segment that reaches rcv_nxt has been received up to its end or the right edge, and one ahead
      of it has been queued if there was memory. */
  ghost predicate Taken(stream: Stream, seg: Segment, w: Window, q: seq<Segment>, segMemory: bool, w': Window, q': seq<Segment>) {
    && (seg.seqno <= w.nxt < seg.seqno + seg.TcpLen() && w.wnd > 0 ==> Min(seg.seqno + seg.TcpLen(), w.Edge()) <= w'.nxt)
    && (w.nxt < seg.seqno < w.Edge() && seg.TcpLen() > 0 && segMemory ==>
          StoredIn(stream, q, w.nxt + 1, seg, w.Edge(), w.nxt + 1 + 0x2_0000, q'))
  }

  /** tcp_receive, for the data and the FIN of an arriving segment; ackMemory and segMemory tell
      whether there is a buffer for an empty acknowledgement and for the copy of a segment. A segment
      that reaches rcv_nxt is received up to its end or the right edge, one ahead of it is queued,
      and every other one is answered. */
  method ReceiveSegment(seg: Segment, w: Window, q: seq<Segment>, ack: Ack, mss: nat, ackMemory: bool, segMemory: bool,
                        ghost stream: Stream, ghost delivered: seq<byte>)
    returns (w': Window, q': seq<Segment>, data: seq<byte>, fin: bool, ack': Ack)
    requires Reassembling(stream, w, q, delivered) && stream.Cut(seg) && Arrives(seg, w)
    ensures Received(stream, TrimFront(seg, w.nxt), w, q, w', q', data, fin)
    ensures Keeps(stream, TrimFront(seg, w.nxt), w, q, delivered, mss, w', q', data)
    ensures Taken(stream, seg, w, q, segMemory, w', q')
    ensures seg.seqno <= w.nxt < seg.seqno + seg.TcpLen() && w.wnd > 0 ==>
      ack' == if ack.delay then Ack(true, false) else ack.(delay := true)
    ensures seg.TcpLen() > 0 && !(seg.seqno <= w.nxt < seg.seqno + seg.TcpLen() && w.wnd > 0) ==>
      && w'.nxt == w.nxt && data == []
      && if ackMemory then w' == w.(annEdge := w.nxt + w.annWnd) && ack' == Ack(false, false)
         else w' == w && ack' == ack.(now := ack.now || seg.seqno + seg.TcpLen() <= w.nxt)
  {
    if seg.TcpLen() > 0 {
      var inseg, ack0 := Trim(seg, w.nxt, ack);
      TrimFrontCut(stream, seg, w.nxt);
      w', q', data, fin, ack' := Dispatch(inseg, w, q, ack0, mss, ackMemory, segMemory, stream, delivered);
      Trimmed(stream, seg, w, q, w', q', data, fin);
    } else {
      DroppedHolds(stream, seg, w, q, delivered, mss, w);
      w', q', data, fin, ack' := w, q, [], false, ack;
      if !SeqBetween(seg.seqno, w.nxt, w.nxt + w.wnd - 1) {
        ack' := ack.(now := true);
      }
    }
  }

  /** The application will not return the FIN's sequence number to the window. */
  function CreditFin(w: Window, fin: bool): Window {
    if fin && w.wnd != TCP_WND then w.(wnd := U16(w.wnd + 1)) else w
  }

  lemma {:induction false} CreditFinHolds(stream: Stream, w: Window, q: seq<Segment>, delivered: seq<byte>, fin: bool)
    ensures Reassembling(stream, w, q, delivered) ==> Reassembling(stream, CreditFin(w, fin), q, delivered)
    ensures forall mss :: Guarded(w, q, mss) && (fin ==> w.Edge() < w.annEdge + 0x4000_0000) ==> Guarded(CreditFin(w, fin), q, mss)
  {
    if Within(q, w.Edge()) && w.Sound() {
      WithinUp(q, w.Edge(), CreditFin(w, fin).Edge());
    }
  }

  lemma {:induction false} WithinUp(q: seq<Segment>, lo: int, hi: int)
    requires Within(q, lo) && lo <= hi
    ensures Within(q, hi)
  {
    if q != [] {
      WithinUp(q[1..], lo, hi);
    }
  }

  /** tcp_recved: the application has consumed `len` bytes. The announced edge never moves
      left, and an update large enough is announced at once when a segment can be sent. */
  method ReturnWindow(w: Window, len: nat, ack: Ack, mss: nat, memory: bool) returns (w': Window, ack': Ack)
    requires 0 <= w.wnd && w.wnd + len <= 0xFFFF
    ensures w'.nxt == w.nxt && w'.wnd == Min(TCP_WND, w.wnd + len)
    ensures w.Sound() && w.Edge() + len <= w.annEdge + 0x4000_0000 ==>
      && Returned(w, len, mss, w')
      && (w'.Edge() >= w.annEdge + Min(TCP_WND / 2, mss) && w'.Edge() >= w.annEdge + TCP_WND / 4 ==>
            if memory then w'.annEdge == w'.Edge() && ack' == Ack(false, false) else ack'.now)
      && (!(w'.Edge() >= w.annEdge + Min(TCP_WND / 2, mss) && w'.Edge() >= w.annEdge + TCP_WND / 4) ==>
            w'.annEdge == w.annEdge && ack' == ack)
  {
    w', ack' := w.(wnd := if w.wnd + len > TCP_WND then TCP_WND else w.wnd + len), ack;
    var inflation;
    w', inflation := UpdateRcvAnnWnd(w', mss);
    assert w.Sound() && w.Edge() + len <= w.annEdge + 0x4000_0000 ==>
      Updated(w.(wnd := Min(TCP_WND, w.wnd + len)), w', mss);
    ghost var u := w';
    if inflation >= TCP_WND / 4 {
      ack' := ack'.(now := true);
      w', ack' := SendEmptyAck(w', ack', memory);
    }
    assert MaybeAnnounced(u, w');
  }

  /** The window has grown by what was consumed, and may have been announced then. */
  ghost predicate Returned(w: Window, len: nat, mss: nat, w': Window) {
    exists u :: Updated(w.(wnd := Min(TCP_WND, w.wnd + len)), u, mss) && MaybeAnnounced(u, w')
  }

  lemma {:induction false} ReturnedHolds(w: Window, q: seq<Segment>, len: nat, mss: nat, w': Window)
    requires Guarded(w, q, mss) && w.Edge() + len <= w.annEdge + 0x4000_0000 && Returned(w, len, mss, w')
    ensures Guarded(w', q, mss) && NoSmallAdvance(w, w', mss) && w.Edge() <= w'.Edge()
  {
    WithinUp(q, w.Edge(), w'.Edge());
  }

  lemma {:induction false} NothingReceived(stream: Stream, w: Window)
    requires w == Initial(stream.first)
    ensures Reassembling(stream, w, [], []) && forall mss :: Guarded(w, [], mss)
  {
  }

  // ---------------------------------------------------------------- whole runs

  /** One arriving segment, the window it finds, the state it leaves and what it hands to the
      application. */
  datatype Step = Step(seg: Segment, before: Window, win: Window, queue: seq<Segment>, data: seq<byte>, fin: bool)

  /** One step; no segment is queued while the window wraps. */
  ghost predicate Steps(stream: Stream, w: Window, q: seq<Segment>, s: Step) {
    var t := TrimIfWhole(s.seg, w.nxt);
    && 0 <= w.wnd <= 0xFFFF && 0 <= s.win.wnd <= 0xFFFF
    && stream.Cut(s.seg) && Arrives(s.seg, w) && !Misqueued(t, w, q)
    && Received(stream, t, w, q, s.win, s.queue, s.data, s.fin)
    && (Acceptable(t, w) && t.seqno == w.nxt ==> Below(s.queue, w.nxt + 1 + 0x2_0000))
  }

  /** A run of arriving segments from a state. Between two segments the window may have been
      announced or returned in any way; only rcv_nxt stays. */
  ghost predicate Run(stream: Stream, w: Window, q: seq<Segment>, steps: seq<Step>)
    decreases steps
  {
    steps == []
    || (var s := steps[0];
        && s.before.nxt == w.nxt && 0 <= s.before.wnd <= 0xFFFF && Steps(stream, s.before, q, s)
        && Run(stream, s.win, s.queue, steps[1..]))
  }

  /** TrimFront, for a segment of which nothing is known. */
  function TrimIfWhole(seg: Segment, nxt: int): Segment {
    if |seg.data| == seg.len then TrimFront(seg, nxt) else seg
  }

  function Concatenated(steps: seq<Step>): seq<byte> {
    if steps == [] then [] else steps[0].data + Concatenated(steps[1..])
  }

  lemma {:induction false} OtherStepKeeps(stream: Stream, w: Window, q: seq<Segment>, delivered: seq<byte>, t: Segment, s: Step)
    requires Reassembling(stream, w, q, delivered) && stream.Cut(t) && Arrives(t, w) && !Misqueued(t, w, q)
    requires Received(stream, t, w, q, s.win, s.queue, s.data, s.fin)
    requires !(Acceptable(t, w) && t.seqno == w.nxt)
    ensures Reassembling(stream, s.win, s.queue, delivered + s.data)
  {
    if s.queue != q {
      StoredKeeps(stream, t, w, q, delivered, s.queue);
    }
    assert delivered + [] == delivered;
  }

  lemma {:induction false} StepKeeps(stream: Stream, w: Window, q: seq<Segment>, delivered: seq<byte>, s: Step)
    requires Reassembling(stream, w, q, delivered) && Steps(stream, w, q, s)
    ensures Reassembling(stream, s.win, s.queue, delivered + s.data)
  {
    var t := TrimIfWhole(s.seg, w.nxt);
    TrimFrontCut(stream, s.seg, w.nxt);
    if Acceptable(t, w) && t.seqno == w.nxt {
      var c := ClipToWindow(t, w.wnd);
      DeliveryExtends(stream, w, q, delivered, Range(c.seqno, c.End()) + Held(q), c.fin || HasFin(q),
                      s.win, s.queue, s.data, s.fin);
    } else {
      OtherStepKeeps(stream, w, q, delivered, t, s);
    }
  }

  function Final(w: Window, q: seq<Segment>, steps: seq<Step>): (Window, seq<Segment>)
    decreases steps
  {
    if steps == [] then (w, q) else Final(steps[0].win, steps[0].queue, steps[1..])
  }

  lemma {:induction false} ConcatAssoc(a: seq<byte>, b: seq<byte>, c: seq<byte>)
    ensures (a + b) + c == a + (b + c) && a + [] == a
  {
  }

  lemma {:induction false} WindowChanged(stream: Stream, w: Window, v: Window, q: seq<Segment>, delivered: seq<byte>)
    requires Reassembling(stream, w, q, delivered) && v.nxt == w.nxt && 0 <= v.wnd <= 0xFFFF
    ensures Reassembling(stream, v, q, delivered)
  {
  }

  /** Whatever order the segments of the stream arrive in, repeated or overlapping, all that
      is handed to the application, concatenated, is the stream up to rcv_nxt. */
  lemma {:induction false} RunDeliversPrefix(stream: Stream, w: Window, q: seq<Segment>, delivered: seq<byte>,
                                             steps: seq<Step>, total: seq<byte>)
    requires Reassembling(stream, w, q, delivered) && Run(stream, w, q, steps)
    requires total == delivered + Concatenated(steps)
    ensures Reassembling(stream, Final(w, q, steps).0, Final(w, q, steps).1, total)
    decreases steps
  {
    if steps == [] {
      ConcatAssoc(delivered, [], []);
    } else {
      var s, rest := steps[0], steps[1..];
      WindowChanged(stream, w, s.before, q, delivered);
      StepKeeps(stream, s.before, q, delivered, s);
      ConcatAssoc(delivered, s.data, Concatenated(rest));
      RunDeliversPrefix(stream, s.win, s.queue, delivered + s.data, rest, total);
    }
  }

  /** An in-sequence segment is received up to its end or the right edge, whichever is first. */
  lemma {:induction false} InSequenceProgress(stream: Stream, seg: Segment, w: Window, q: seq<Segment>,
                           w': Window, q': seq<Segment>, data: seq<byte>, fin: bool)
    requires stream.Cut(seg) && 0 <= w.wnd <= 0xFFFF && Acceptable(seg, w) && seg.seqno == w.nxt
    requires Received(stream, seg, w, q, w', q', data, fin)
    ensures w'.nxt >= Min(seg.seqno + seg.TcpLen(), w.Edge())
  {
    var c := ClipToWindow(seg, w.wnd);
    ClipToWindowCut(stream, seg, w.wnd);
    assert c.End() <= w.nxt + |data|;
  }

  function Zeros(n: nat): seq<byte> {
    seq(n, i => 0)
  }

  /** The window right after the peer's SYN. */
  function Initial(first: int): Window {
    Window(first, TCP_WND, TCP_WND, first)
  }

  /** The first segment to arrive out of sequence is all that is queued then. */
  lemma {:induction false} FirstQueued(stream: Stream, seg: Segment)
    requires stream.Cut(seg) && 0 < seg.len <= 1460 && !seg.fin && stream.first < seg.seqno < stream.first + TCP_WND
    ensures var w, s := Initial(stream.first), Step(seg, Initial(stream.first), Initial(stream.first), [seg], [], false);
      Run(stream, w, [], [s]) && Final(w, [], [s]) == (w, [seg]) && Reassembling(stream, w, [seg], [])
  {
    var w, s := Initial(stream.first), Step(seg, Initial(stream.first), Initial(stream.first), [seg], [], false);
    NothingReceived(stream, w);
    assert [s][1..] == [];
    assert TrimIfWhole(seg, w.nxt) == seg;
    assert Steps(stream, w, [], s);
    RunDeliversPrefix(stream, w, [], [], [s], []);
  }

  /** The wrap does occur: one segment of ten bytes has been queued just below zero when the next
      one arrives. That one then claims 2850 bytes, and the delivery of the queue moves rcv_nxt
      past bytes that were never handed over. */
  lemma {:induction false} MisqueuedExample(stream: Stream, w: Window, held: Segment, seg: Segment)
    requires stream == Stream(0x1_0000_0000 - 100, Zeros(80)) && w == Initial(stream.first)
    requires held == Segment(stream.first + 60, 10, Zeros(10), false)
    requires seg == Segment(stream.first + 70, 10, Zeros(10), false)
    ensures Run(stream, w, [], [Step(held, w, w, [held], [], false)]) && Reassembling(stream, w, [held], [])
    ensures stream.Cut(seg) && Arrives(seg, w) && Misqueued(seg, w, [held])
    ensures var r := Place([held], seg, w.Edge());
      && r == [held, seg.(len := 2850)]
      && Chain(r, held.seqno) == (Zeros(20), false, stream.first + 2920, [])
  {
    assert stream.Slice(held.seqno, held.seqno + 10) == Zeros(10);
    assert stream.Slice(seg.seqno, seg.seqno + 10) == Zeros(10);
    FirstQueued(stream, held);
    var r := [held, seg.(len := 2850)];
    assert r[1..] == [r[1]] && r[1..][1..] == [];
    assert Zeros(10) + (Zeros(10) + []) == Zeros(20);
    assert Chain(r[1..], seg.seqno) == (Zeros(10) + [], false, stream.first + 2920, []);
  }

  /** The last bytes of a stream arrive first, from k on, and are queued across the right edge. */
  lemma {:induction false} SpilledQueued(stream: Stream, k: nat, w: Window, held: Segment)
    requires 0 < k < TCP_WND < |stream.bytes| <= k + 1460 && w == Initial(stream.first)
    requires held == Segment(stream.first + k, |stream.bytes| - k, stream.bytes[k..], false)
    ensures Spills(held, w, []) && Run(stream, w, [], [Step(held, w, w, [held], [], false)])
    ensures Reassembling(stream, w, [held], [])
  {
    TailCut(stream, k, held);
    FirstQueued(stream, held);
  }

  lemma {:induction false} TailCut(stream: Stream, k: nat, held: Segment)
    requires k < |stream.bytes| <= k + 1460
    requires held == Segment(stream.first + k, |stream.bytes| - k, stream.bytes[k..], false)
    ensures stream.Cut(held)
  {
    assert stream.bytes[k..|stream.bytes|] == stream.bytes[k..];
  }

  /** When the k bytes in front of them arrive then, more than the window is delivered and the
      16-bit rcv_wnd wraps. */
  lemma {:induction false} SpilledExample(stream: Stream, k: nat, w: Window, held: Segment, seg: Segment,
                                          w': Window, q': seq<Segment>, data: seq<byte>, fin: bool)
    requires 0 < k < TCP_WND < |stream.bytes| <= k + 1460 && w == Initial(stream.first)
    requires held == Segment(stream.first + k, |stream.bytes| - k, stream.bytes[k..], false)
    requires seg == Segment(stream.first, k, stream.bytes[..k], false)
    requires Received(stream, seg, w, [held], w', q', data, fin)
    ensures stream.Cut(seg) && Arrives(seg, w)
    ensures data == stream.bytes && w'.wnd == 0x1_0000 + TCP_WND - |stream.bytes|
  {
    SpilledAll(stream, k, held, data, fin, w'.nxt, q');
    assert stream.Slice(stream.first, stream.first + k) == seg.data;
  }

  lemma {:induction false} SpilledAll(stream: Stream, k: nat, held: Segment, data: seq<byte>, fin: bool, nxt: int, q: seq<Segment>)
    requires k < |stream.bytes| && held.seqno == stream.first + k && held.End() == stream.End() && !held.fin
    requires Delivers(stream, Range(stream.first, stream.first + k) + Held([held]), HasFin([held]), stream.first, data, fin, nxt, q)
    ensures data == stream.bytes && nxt == stream.End()
  {
    assert Held([held]) == Range(held.seqno, stream.End()) + Held([held][1..]);
    assert HasFin([held]) == HasFin([held][1..]);
    assert stream.first + |data| !in Range(held.seqno, stream.End());
    assert data == stream.bytes[..|data|];
  }

  // ---------------------------------------------------------------- runs of a connection

  /** The window, the out-of-sequence queue and all that has been handed to the application. */
  datatype Receiver = Receiver(win: Window, queue: seq<Segment>, delivered: seq<byte>)

  /** What happens to a connection: a segment arrives, `left` being the window before a FIN is
      credited; the application returns window space; a segment is sent. */
  datatype Call =
    | Arrival(seg: Segment, data: seq<byte>, fin: bool, left: Window)
    | Consuming(len: nat)
    | Announcing

  /** The segment is queued across the edge, or while the window wraps behind it. */
  predicate Spoils(t: Segment, w: Window, q: seq<Segment>, q': seq<Segment>) {
    q' != q && (Misqueued(t, w, q) || Spills(t, w, q))
  }

  /** An arriving segment has gone through tcp_receive, and a FIN has been credited. */
  ghost predicate Processed(stream: Stream, mss: nat, s: Receiver, t: Segment, data: seq<byte>, fin: bool, left: Window,
                            s': Receiver)
    requires 0 <= s.win.wnd <= 0xFFFF
  {
    && Received(stream, t, s.win, s.queue, left, s'.queue, data, fin)
    && Keeps(stream, t, s.win, s.queue, s.delivered, mss, left, s'.queue, data)
    && s' == Receiver(CreditFin(left, fin), s'.queue, s.delivered + data)
  }

  ghost predicate Upright(stream: Stream, mss: nat, s: Receiver) {
    Reassembling(stream, s.win, s.queue, s.delivered) && Guarded(s.win, s.queue, mss)
  }

  /** A segment leaves a connection upright exactly if it does not spoil the queue. */
  lemma {:induction false} ProcessedKeeps(stream: Stream, mss: nat, s: Receiver, t: Segment, data: seq<byte>, fin: bool, left: Window,
                                          s': Receiver)
    requires Upright(stream, mss, s) && Processed(stream, mss, s, t, data, fin, left, s')
    requires fin ==> s.win.Edge() < s.win.annEdge + 0x4000_0000
    ensures Upright(stream, mss, s') <==> !Spoils(t, s.win, s.queue, s'.queue)
    ensures NoSmallAdvance(s.win, s'.win, mss)
  {
    CreditFinHolds(stream, left, s'.queue, s'.delivered, fin);
  }

  /** One call. No segment spoils the queue, and the window is not 2^30 ahead of what the peer has
      been told. */
  ghost predicate Calls(stream: Stream, mss: nat, s: Receiver, c: Call, s': Receiver) {
    match c
    case Arrival(seg, data, fin, left) =>
      && stream.Cut(seg) && Arrives(seg, s.win) && 0 <= s.win.wnd <= 0xFFFF
      && Processed(stream, mss, s, TrimFront(seg, s.win.nxt), data, fin, left, s')
      && !Spoils(TrimFront(seg, s.win.nxt), s.win, s.queue, s'.queue)
      && (fin ==> s.win.Edge() < s.win.annEdge + 0x4000_0000)
    case Consuming(len) =>
      && s.win.wnd + len <= 0xFFFF && s.win.Edge() + len <= s.win.annEdge + 0x4000_0000
      && Returned(s.win, len, mss, s'.win) && s' == s.(win := s'.win)
    case Announcing =>
      s' == s.(win := s.win.(annEdge := s.win.nxt + s.win.annWnd))
  }

  lemma {:induction false} CallKeeps(stream: Stream, mss: nat, s: Receiver, c: Call, s': Receiver)
    requires Upright(stream, mss, s) && Calls(stream, mss, s, c, s')
    ensures Upright(stream, mss, s') && NoSmallAdvance(s.win, s'.win, mss)
  {
    match c
    case Arrival(seg, data, fin, left) =>
      ProcessedKeeps(stream, mss, s, TrimFront(seg, s.win.nxt), data, fin, left, s');
    case Consuming(len) =>
      ReturnedHolds(s.win, s.queue, len, mss, s'.win);
      WindowChanged(stream, s.win, s'.win, s.queue, s.delivered);
    case Announcing =>
      WindowChanged(stream, s.win, s'.win, s.queue, s.delivered);
  }

  ghost predicate ConnectionRuns(stream: Stream, mss: nat, ss: seq<Receiver>, cs: seq<Call>) {
    && |ss| == |cs| + 1 && ss[0] == Receiver(Initial(stream.first), [], [])
    && forall k {:trigger cs[k]} | 0 <= k < |cs| :: Calls(stream, mss, ss[k], cs[k], ss[k + 1])
  }

  lemma {:induction false} RunUpright(stream: Stream, mss: nat, ss: seq<Receiver>, cs: seq<Call>, j: nat)
    requires ConnectionRuns(stream, mss, ss, cs) && j <= |cs|
    ensures Upright(stream, mss, ss[j])
    ensures j > 0 ==> NoSmallAdvance(ss[j - 1].win, ss[j].win, mss)
  {
    if j == 0 {
      NothingReceived(stream, Initial(stream.first));
    } else {
      RunUpright(stream, mss, ss, cs, j - 1);
      CallKeeps(stream, mss, ss[j - 1], cs[j - 1], ss[j]);
    }
  }

  lemma {:induction false} EdgeStep(stream: Stream, mss: nat, ss: seq<Receiver>, cs: seq<Call>, j: nat)
    requires ConnectionRuns(stream, mss, ss, cs) && j < |cs|
    ensures ss[j].win.annEdge <= ss[j + 1].win.annEdge
  {
    RunUpright(stream, mss, ss, cs, j + 1);
  }

  lemma {:induction false} EdgeNeverLeft(stream: Stream, mss: nat, ss: seq<Receiver>, cs: seq<Call>, i: nat, j: nat)
    requires ConnectionRuns(stream, mss, ss, cs) && i <= j <= |cs|
    ensures ss[i].win.annEdge <= ss[j].win.annEdge
    decreases j - i
  {
    if i < j {
      EdgeNeverLeft(stream, mss, ss, cs, i, j - 1);
      EdgeStep(stream, mss, ss, cs, j - 1);
    }
  }

  /** In any run of a connection, whatever arrives and whenever the application reads: what has
      been delivered is the stream up to rcv_nxt, all that is queued lies within the window, the
      announced window is within the window and the window within its bound, the announced right
      edge never moves left, and it advances by too little only to catch up with rcv_nxt. */
  lemma {:induction false} ConnectionRun(stream: Stream, mss: nat, ss: seq<Receiver>, cs: seq<Call>, i: nat, j: nat)
    requires ConnectionRuns(stream, mss, ss, cs) && i <= j <= |cs|
    ensures var s := ss[j];
      && stream.first <= s.win.nxt && s.delivered == stream.Slice(stream.first, Min(s.win.nxt, stream.End()))
      && stream.Queue(s.queue, s.win.nxt + 1) && Within(s.queue, s.win.Edge())
      && 0 <= s.win.annWnd <= s.win.wnd <= TCP_WND
      && ss[i].win.annEdge <= s.win.annEdge
      && (j > 0 ==> NoSmallAdvance(ss[j - 1].win, s.win, mss))
  {
    RunUpright(stream, mss, ss, cs, j);
    EdgeNeverLeft(stream, mss, ss, cs, i, j);
    UprightMeans(stream, mss, ss[j]);
  }

  lemma {:induction false} UprightMeans(stream: Stream, mss: nat, s: Receiver)
    requires Upright(stream, mss, s)
    ensures stream.first <= s.win.nxt && s.delivered == stream.Slice(stream.first, Min(s.win.nxt, stream.End()))
    ensures stream.Queue(s.queue, s.win.nxt + 1) && Within(s.queue, s.win.Edge())
    ensures 0 <= s.win.annWnd <= s.win.wnd <= TCP_WND
  {
  }

  /** What the application has returned in the first n calls. */
  function Consumed(cs: seq<Call>, n: nat): nat
    requires n <= |cs|
  {
    if n == 0 then 0 else Consumed(cs, n - 1) + if cs[n - 1].Consuming? then cs[n - 1].len else 0
  }

  lemma {:induction false} ArrivalConserves(stream: Stream, mss: nat, s: Receiver, t: Segment, data: seq<byte>, fin: bool, left: Window,
                                            s': Receiver)
    requires Upright(stream, mss, s) && Processed(stream, mss, s, t, data, fin, left, s')
    ensures s'.win.wnd == s.win.wnd - |data| && |s'.delivered| == |s.delivered| + |data|
  {
    assert left.Edge() == s.win.Edge();
  }

  lemma {:induction false} CallConserves(stream: Stream, mss: nat, s: Receiver, c: Call, s': Receiver)
    requires Upright(stream, mss, s) && Calls(stream, mss, s, c, s')
    ensures if c.Consuming? then s'.win.wnd == Min(TCP_WND, s.win.wnd + c.len) && s'.delivered == s.delivered
      else s'.win.wnd - s.win.wnd == |s.delivered| - |s'.delivered|
  {
    match c
    case Arrival(seg, data, fin, left) =>
      ArrivalConserves(stream, mss, s, TrimFront(seg, s.win.nxt), data, fin, left, s');
    case Consuming(len) =>
    case Announcing =>
  }

  /** While the application returns no more than it has been handed, the window is what is left of the
      full one by what has been handed over and not been returned; a FIN does not count. */
  lemma {:induction false} WindowConserved(stream: Stream, mss: nat, ss: seq<Receiver>, cs: seq<Call>, n: nat)
    requires ConnectionRuns(stream, mss, ss, cs) && n <= |cs|
    requires forall k | 0 <= k <= n :: Consumed(cs, k) <= |ss[k].delivered|
    ensures ss[n].win.wnd == TCP_WND - |ss[n].delivered| + Consumed(cs, n)
  {
    if n > 0 {
      var m := n - 1;
      WindowConserved(stream, mss, ss, cs, m);
      RunUpright(stream, mss, ss, cs, m);
      CallConserves(stream, mss, ss[m], cs[m], ss[n]);
    }
  }

  class ReceivePcb {
    ghost const stream: Stream
    const mss: nat
    var win: Window
    var ooseq: seq<Segment>
    var ack: Ack
    var recvData: seq<byte>
    var gotFin: bool
    ghost var delivered: seq<byte>

    ghost function State(): Receiver
      reads this
    {
      Receiver(win, ooseq, delivered)
    }

    ghost predicate Valid()
      reads this
    {
      Upright(stream, mss, State())
    }

    /** The state after the peer's SYN has been received. */
    constructor (ghost stream: Stream, mss: nat, irs: int)
      requires irs + 1 == stream.first
      ensures Valid() && State() == Receiver(Initial(stream.first), [], [])
      ensures this.stream == stream && this.mss == mss
    {
      this.stream, this.mss := stream, mss;
      win := Window(irs + 1, TCP_WND, TCP_WND, irs + 1);
      ooseq, ack, recvData, gotFin, delivered := [], Ack(false, false), [], false, [];
      NothingReceived(stream, Window(irs + 1, TCP_WND, TCP_WND, irs + 1));
    }

    /** One segment through tcp_input and tcp_receive; `recvData` goes to the application. */
    method Input(seg: Segment, ackMemory: bool, segMemory: bool) returns (ghost left: Window)
      requires Valid() && stream.Cut(seg) && Arrives(seg, win) && win.Edge() < win.annEdge + 0x4000_0000
      modifies this
      ensures Processed(stream, mss, old(State()), TrimFront(seg, old(win.nxt)), recvData, gotFin, left, State())
      ensures Taken(stream, seg, old(win), old(ooseq), segMemory, left, ooseq) && win.nxt == left.nxt
      ensures Valid() <==> !Spoils(TrimFront(seg, old(win.nxt)), old(win), old(ooseq), ooseq)
    {
      ghost var s := State();
      win, ooseq, recvData, gotFin, ack := ReceiveSegment(seg, win, ooseq, ack, mss, ackMemory, segMemory, stream, delivered);
      delivered := delivered + recvData;
      left := win;
      if gotFin && win.wnd != TCP_WND {
        win := win.(wnd := U16(win.wnd + 1));
      }
      ProcessedKeeps(stream, mss, s, TrimFront(seg, s.win.nxt), recvData, gotFin, left, State());
    }

    /** The application has consumed `len` bytes. */
    method Recved(len: nat, memory: bool)
      requires Valid() && win.wnd + len <= 0xFFFF && win.Edge() + len <= win.annEdge + 0x4000_0000
      modifies this`win, this`ack
      ensures Valid() && Returned(old(win), len, mss, win)
    {
      ghost var s := State();
      win, ack := ReturnWindow(win, len, ack, mss, memory);
      CallKeeps(stream, mss, s, Consuming(len), State());
    }

    /** A segment is sent, and with it the window is announced. */
    method Announce()
      requires Valid()
      modifies this`win, this`ack
      ensures Valid() && win == old(win).(annEdge := old(win.nxt) + old(win.annWnd))
    {
      ghost var s := State();
      win, ack := win.(annEdge := win.nxt + win.annWnd), Ack(false, false);
      CallKeeps(stream, mss, s, Announcing, State());
    }
  }
}
