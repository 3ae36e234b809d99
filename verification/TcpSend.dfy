/** The send side of a connection: tcp_write and its three phases, SYN and FIN, tcp_output,
    acknowledgement processing and the two retransmission paths. Sequence numbers are unwrapped
    integers; the code's comparisons go through their 32-bit differences. */
module TcpSend {
  import opened Words

  const TCP_MSS: nat := 1460
  const TCP_SND_BUF: nat := 2920
  const TCP_SND_QUEUELEN: nat := 8
  const TCP_SNDQUEUELEN_OVERFLOW: nat := 0xFFFC
  const TCP_OVERSIZE: nat := 1460

  /** struct tcp_seg: first sequence number, data, header flags and the pbufs it occupies. */
  datatype Segment = Segment(seqno: int, data: seq<byte>, syn: bool, fin: bool, pbufs: nat)

  datatype State = SynSent | Open | Closed

  datatype Err = Ok | ErrMem | ErrConn

  /** The sending half of struct tcp_pcb. */
  datatype Pcb = Pcb(
    state: State, mss: nat, lastack: int, sndNxt: int, sndLbb: int, sndBuf: int, sndQueuelen: int,
    oversize: nat, unsent: seq<Segment>, unacked: seq<Segment>, acked: nat, nodelay: bool,
    nagleMemErr: bool, finFlag: bool)

  /** LWIP_TCP_OPT_LENGTH: only a SYN carries an option, the maximum segment size. */
  function OptLen(s: Segment): nat {
    if s.syn then 4 else 0
  }

  /** TCP_TCPLEN */
  function TcpLen(s: Segment): nat {
    |s.data| + if s.syn || s.fin then 1 else 0
  }

  function End(s: Segment): int {
    s.seqno + TcpLen(s)
  }

  function Last(q: seq<Segment>): Segment
    requires q != []
  {
    q[|q| - 1]
  }

  // -------------------------------------------------------------------- queues

  /** How many segments of q cover sequence number x. */
  function Count(q: seq<Segment>, x: int): nat {
    if q == [] then 0 else (if q[0].seqno <= x < End(q[0]) then 1 else 0) + Count(q[1..], x)
  }

  function Pbufs(q: seq<Segment>): nat {
    if q == [] then 0 else q[0].pbufs + Pbufs(q[1..])
  }

  /** Segments of q follow each other without overlap between lo and hi. */
  predicate Sorted(q: seq<Segment>, lo: int, hi: int) {
    if q == [] then lo <= hi
    else lo <= q[0].seqno && TcpLen(q[0]) > 0 && Sorted(q[1..], End(q[0]), hi)
  }

  /** New data segments: they tile the bytes from sequence number o on, none empty, none longer
      than mss. */
  predicate Tiles(q: seq<Segment>, o: int, bytes: seq<byte>, mss: nat) {
    if q == [] then bytes == []
    else
      var n := |q[0].data|;
      && q[0].seqno == o && !q[0].syn && !q[0].fin && q[0].pbufs > 0
      && 0 < n <= mss && n <= |bytes| && q[0].data == bytes[..n]
      && Tiles(q[1..], o + n, bytes[n..], mss)
  }

  lemma {:induction false} CutConcat(x: seq<byte>, y: seq<byte>, n: nat)
    requires n <= |x|
    ensures (x + y)[n..] == x[n..] + y && (x + y)[..n] == x[..n]
  {
  }

  lemma {:induction false} TilesConcat(a: seq<Segment>, b: seq<Segment>, o: int, x: seq<byte>, y: seq<byte>, mss: nat)
    requires Tiles(a, o, x, mss) && Tiles(b, o + |x|, y, mss)
    ensures Tiles(a + b, o, x + y, mss)
    decreases a
  {
    if a == [] {
      assert a + b == b && x + y == y;
    } else {
      var n := |a[0].data|;
      assert (a + b)[1..] == a[1..] + b && (a + b)[0] == a[0];
      CutConcat(x, y, n);
      TilesConcat(a[1..], b, o + n, x[n..], y, mss);
    }
  }

  lemma {:induction false} PbufsConcat(a: seq<Segment>, b: seq<Segment>)
    ensures Pbufs(a + b) == Pbufs(a) + Pbufs(b)
  {
    if a == [] {
      assert a + b == b;
    } else {
      assert (a + b)[1..] == a[1..] + b;
      PbufsConcat(a[1..], b);
    }
  }

  lemma {:induction false} CountConcat(a: seq<Segment>, b: seq<Segment>, x: int)
    ensures Count(a + b, x) == Count(a, x) + Count(b, x)
  {
    if a == [] {
      assert a + b == b;
    } else {
      assert (a + b)[1..] == a[1..] + b;
      CountConcat(a[1..], b, x);
    }
  }

  // ----------------------------------------------------------------- tcp_write

  /** tcp_pbuf_prealloc: the spare bytes behind `length` never take the pbuf past maxLength. */
  method Prealloc(length: nat, maxLength: nat, more: bool, nodelay: bool, firstSeg: bool, queued: bool, memory: bool)
    returns (ok: bool, oversize: nat)
    requires length <= maxLength <= 0xFFFF
    ensures memory ==> ok
    ensures length + oversize <= maxLength
    ensures if length < maxLength && (more || (!nodelay && (!firstSeg || queued)))
      then oversize >= Min(maxLength - length, TCP_OVERSIZE) > 0 else oversize == 0
  {
    var alloc := length;
    if length < maxLength {
      if more || (!nodelay && (!firstSeg || queued)) {
        var aligned := (length + TCP_OVERSIZE + 3) / 4 * 4;
        alloc := if maxLength < aligned then maxLength else aligned;
      }
    }
    var got: bool := *;
    ok, oversize := memory || got, alloc - length;
  }

  /** tcp_write_checks */
  function WriteChecks(p: Pcb, len: nat): Err {
    if p.state == Closed then ErrConn
    else if len == 0 then Ok
    else if len > p.sndBuf then ErrMem
    else if p.sndQueuelen >= TCP_SND_QUEUELEN || p.sndQueuelen > TCP_SNDQUEUELEN_OVERFLOW then ErrMem
    else Ok
  }

  /** The last unsent segment fits the segment size, and so does the spare room behind it. */
  predicate TailFits(p: Pcb) {
    p.unsent != [] ==>
      var s := Last(p.unsent);
      && (s.data != [] ==> |s.data| + OptLen(s) <= p.mss)
      && (p.oversize > 0 ==> s.data != [] && |s.data| + OptLen(s) + p.oversize <= p.mss)
  }

  /** The bytes that still fit into the last unsent segment; a segment without data takes none. */
  function Room(u: seq<Segment>, mss: nat): nat {
    if u == [] || Last(u).data == [] || |Last(u).data| + OptLen(Last(u)) >= mss then 0
    else mss - |Last(u).data| - OptLen(Last(u))
  }

  function Min(a: nat, b: nat): nat {
    if a < b then a else b
  }

  /** How many of len bytes tcp_write puts behind the last unsent segment, by its 16-bit
      arithmetic: first into the spare room, then into what it takes for usable space. */
  function Grown(p: Pcb, len: nat): nat {
    if p.unsent == [] then 0
    else
      var s, used := Last(p.unsent), Min(p.oversize, len);
      var space := U16(U16(p.mss - (|s.data| + OptLen(s))) - used);
      used + if used < len && space > 0 && s.data != [] then Min(space, len - used) else 0
  }

  /** If the last unsent segment fits, it grows to the segment size and no further. */
  lemma {:induction false} GrownIsRoom(p: Pcb, len: nat)
    requires TailFits(p) && p.mss <= TCP_MSS
    ensures Grown(p, len) == Min(Room(p.unsent, p.mss), len)
  {
  }

  /** It has grown past the segment size exactly if it did not fit together with the spare room
      that was used. */
  lemma {:induction false} GrownFitsExactly(p: Pcb, len: nat)
    requires p.unsent != [] && Last(p.unsent).data != [] && p.mss <= TCP_MSS
    ensures var n := |Last(p.unsent).data| + OptLen(Last(p.unsent));
      n + Grown(p, len) <= p.mss <==> n + Min(p.oversize, len) <= p.mss
  {
  }

  /** The unsent queue u has become u' by writing `bytes`: the first `grown` of them went to the
      end of its last segment, the others into new segments from sequence number o + grown on. */
  ghost predicate Appended(u: seq<Segment>, u': seq<Segment>, o: int, bytes: seq<byte>, grown: nat, mss: nat) {
    && grown <= |bytes|
    && if u == [] then grown == 0 && Tiles(u', o, bytes, mss)
       else
         var n := |u| - 1;
         && |u'| > n && u'[..n] == u[..n]
         && u'[n] == u[n].(data := u[n].data + bytes[..grown], pbufs := u'[n].pbufs)
         && u[n].pbufs <= u'[n].pbufs <= u[n].pbufs + (if grown > 0 then 1 else 0)
         && Tiles(u'[n + 1..], o + grown, bytes[grown..], mss)
  }

  ghost predicate Written(p: Pcb, p': Pcb, bytes: seq<byte>, grown: nat) {
    && WriteChecks(p, |bytes|) == Ok
    && grown == Grown(p, |bytes|)
    && Appended(p.unsent, p'.unsent, p.sndLbb, bytes, grown, p.mss)
    && p'.sndQueuelen == p.sndQueuelen + Pbufs(p'.unsent) - Pbufs(p.unsent)
    && (p.sndQueuelen <= TCP_SND_QUEUELEN ==> p'.sndQueuelen <= TCP_SND_QUEUELEN)
    && (TailFits(p) ==> TailFits(p'))
    && (p'.oversize > 0 ==> p'.unsent != [] && (bytes != [] || p.oversize > 0))
    && p' == p.(unsent := p'.unsent, sndQueuelen := p'.sndQueuelen, oversize := p'.oversize,
                sndLbb := p.sndLbb + |bytes|, sndBuf := p.sndBuf - |bytes|)
  }

  lemma {:induction false} SpaceExact(p: Pcb, used: nat)
    requires TailFits(p) && p.mss <= TCP_MSS && p.unsent != [] && Last(p.unsent).data != [] && used <= p.oversize
    ensures var n := |Last(p.unsent).data| + OptLen(Last(p.unsent)); U16(U16(p.mss - n) - used) == p.mss - n - used >= 0
  {
  }

  /** The first two phases on the last unsent segment: how many bytes it takes, how many more
      pbufs it has then and the spare room left. */
  method ExtendTail(p: Pcb, s: Segment, len: nat, copy: bool, more: bool, memory: bool)
    returns (ok: bool, used: nat, seglen: nat, oversize: nat)
    requires p.unsent != [] && s == Last(p.unsent) && len <= 0xFFFF
    ensures (memory ==> ok) && (ok ==> used == Min(p.oversize, len) && used + seglen == Grown(p, len))
    ensures used + seglen <= len && (used + seglen < len ==> oversize == 0)
    ensures TailFits(p) && p.mss <= TCP_MSS && (used + seglen > 0 || oversize > 0) ==>
      s.data != [] && |s.data| + OptLen(s) + used + seglen + oversize <= p.mss
    ensures oversize > 0 ==> used + seglen > 0 || p.oversize > 0
  {
    ok, used, seglen := true, 0, 0;
    var space := U16(p.mss - (|s.data| + OptLen(s)));
    oversize := p.oversize;
    if oversize > 0 {
      used := if oversize < len then oversize else len;
      oversize := oversize - used;
      space := U16(space - used);
    }
    if TailFits(p) && p.mss <= TCP_MSS && s.data != [] {
      SpaceExact(p, used);
    }
    if used < len && space > 0 && |s.data| > 0 {
      seglen := if space < len - used then space else len - used;
      if copy {
        ok, oversize := Prealloc(seglen, space, more, p.nodelay, true, true, memory);
      } else {
        var got: bool := *;
        ok := memory || got;
      }
    }
  }

  lemma {:induction false} TilesOneMore(q: seq<Segment>, s: Segment, o: int, arg: seq<byte>, start: nat, pos: nat, mss: nat)
    requires start <= pos <= |arg| && Tiles(q, o, arg[start..pos], mss)
    requires 0 < |s.data| <= mss && pos + |s.data| <= |arg| && s.data == arg[pos..pos + |s.data|]
    requires s.seqno == o + pos - start && !s.syn && !s.fin && s.pbufs > 0
    ensures Tiles(q + [s], o, arg[start..pos + |s.data|], mss)
    ensures Pbufs(q + [s]) == Pbufs(q) + s.pbufs
  {
    var n := |s.data|;
    assert s.data[n..] == [] && [s][1..] == [];
    assert Tiles([s][1..], s.seqno + n, s.data[n..], mss);
    TilesConcat(q, [s], o, arg[start..pos], s.data, mss);
    PbufsConcat(q, [s]);
    assert arg[start..pos] + s.data == arg[start..pos + n];
  }

  /** The pbufs of a new segment: one with the data copied into it, or one for the header and one
      that refers to the data. */
  method SegmentPbufs(p: Pcb, seglen: nat, first: bool, copy: bool, more: bool, oversize0: nat, memory: bool)
    returns (ok: bool, pbufs: nat, oversize: nat)
    requires seglen <= p.mss <= TCP_MSS && oversize0 == 0
    ensures (memory ==> ok) && pbufs == PerSegment(copy)
    ensures seglen + oversize <= p.mss && (!copy || seglen == p.mss ==> oversize == 0)
  {
    pbufs, oversize := 1, oversize0;
    if copy {
      ok, oversize := Prealloc(seglen, p.mss, more, p.nodelay, first, p.unsent != [] || p.unacked != [], memory);
    } else {
      var data: bool, header: bool := *, *;
      ok, pbufs := memory || (data && header), 2;
    }
  }

  function PerSegment(copy: bool): nat {
    if copy then 1 else 2
  }

  /** The pbufs that n bytes take in new segments. */
  function PbufsFor(n: nat, mss: nat, copy: bool): nat
    requires mss > 0
  {
    if n == 0 then 0 else PerSegment(copy) + PbufsFor(n - Min(n, mss), mss, copy)
  }

  /** They are as many segments as mss goes into n, rounded up. */
  lemma {:induction false} PbufsForIs(n: nat, mss: nat, copy: bool) returns (k: nat)
    requires mss > 0
    ensures PbufsFor(n, mss, copy) == PerSegment(copy) * k
    ensures n <= k * mss && (k > 0 ==> (k - 1) * mss < n)
  {
    if n == 0 {
      k := 0;
    } else {
      var l := PbufsForIs(n - Min(n, mss), mss, copy);
      k := l + 1;
      assert k * mss == l * mss + mss;
      assert PerSegment(copy) * k == PerSegment(copy) * l + PerSegment(copy);
      assert l > 0 ==> (l - 1) * mss + mss == l * mss;
    }
  }

  /** The third phase: segments for the bytes from pos on. */
  method CutSegments(p: Pcb, arg: seq<byte>, start: nat, queuelen0: nat, oversize0: nat, copy: bool, more: bool, memory: bool)
    returns (ok: bool, queue: seq<Segment>, queuelen: nat, oversize: nat)
    requires start <= |arg| <= 0xFFFF && 0 < p.mss <= TCP_MSS
    requires queuelen0 <= TCP_SND_QUEUELEN && (start < |arg| ==> oversize0 == 0)
    ensures ok ==> Tiles(queue, p.sndLbb + start, arg[start..], p.mss)
    ensures ok ==> queuelen == queuelen0 + Pbufs(queue) && queuelen <= TCP_SND_QUEUELEN
    ensures var n := queuelen0 + PbufsFor(|arg| - start, p.mss, copy);
      (ok ==> queuelen == n) && (memory ==> (ok <==> n <= TCP_SND_QUEUELEN))
    ensures ok ==> if queue == [] then oversize == oversize0 else |Last(queue).data| + oversize <= p.mss
  {
    ok, queue, queuelen, oversize := true, [], queuelen0, oversize0;
    var pos := start;
    while pos < |arg|
      invariant start <= pos <= |arg|
      invariant Tiles(queue, p.sndLbb + start, arg[start..pos], p.mss)
      invariant queuelen == queuelen0 + Pbufs(queue) && queuelen <= TCP_SND_QUEUELEN
      invariant if queue == [] then oversize == oversize0 else |Last(queue).data| + oversize <= p.mss
      invariant pos < |arg| ==> oversize == 0
      invariant ok && queuelen + PbufsFor(|arg| - pos, p.mss, copy) == queuelen0 + PbufsFor(|arg| - start, p.mss, copy)
    {
      var left := |arg| - pos;
      var seglen := if left > p.mss then p.mss else left;
      var pbufs;
      ok, pbufs, oversize := SegmentPbufs(p, seglen, queue == [], copy, more, oversize, memory);
      if !ok {
        return;
      }
      queuelen := queuelen + pbufs;
      var got: bool := *;
      if queuelen > TCP_SND_QUEUELEN || queuelen > TCP_SNDQUEUELEN_OVERFLOW || !(memory || got) {
        ok := false;
        return;
      }
      var s := Segment(p.sndLbb + pos, arg[pos..pos + seglen], false, false, pbufs);
      TilesOneMore(queue, s, p.sndLbb + start, arg, start, pos, p.mss);
      queue := queue + [s];
      assert Last(queue) == s;
      pos := pos + seglen;
    }
    assert arg[start..pos] == arg[start..];
  }

  lemma {:induction false} SplitLast(u: seq<Segment>)
    requires u != []
    ensures u == u[..|u| - 1] + [Last(u)]
    ensures Pbufs(u) == Pbufs(u[..|u| - 1]) + Last(u).pbufs
    ensures forall x :: Count(u, x) == Count(u[..|u| - 1], x) + Count([Last(u)], x)
  {
    var n := |u| - 1;
    assert u == u[..n] + [u[n]];
    PbufsConcat(u[..n], [u[n]]);
    assert [u[n]][1..] == [];
    forall x ensures Count(u, x) == Count(u[..n], x) + Count([u[n]], x) {
      CountConcat(u[..n], [u[n]], x);
    }
  }

  /** The pbufs tcp_write needs for len bytes: one if it chains bytes to the last unsent segment, and
      those of the new segments. */
  function WritePbufs(p: Pcb, len: nat, copy: bool): nat
    requires p.mss > 0 && Grown(p, len) <= len
  {
    (if p.unsent != [] && Grown(p, len) > Min(p.oversize, len) then 1 else 0) + PbufsFor(len - Grown(p, len), p.mss, copy)
  }

  /** tcp_write: everything or nothing. With `memory` no allocation fails. */
  method Write(p: Pcb, arg: seq<byte>, copy: bool, more: bool, memory: bool) returns (err: Err, p': Pcb, ghost grown: nat)
    requires |arg| <= 0xFFFF && 0 < p.mss <= TCP_MSS && 0 <= p.sndQueuelen <= TCP_SND_QUEUELEN
    ensures err == ErrConn <==> p.state == Closed
    ensures err == ErrConn ==> p' == p
    ensures err == ErrMem ==> p' == p.(nagleMemErr := true)
    ensures err == Ok ==> Written(p, p', arg, grown) && p'.sndQueuelen == p.sndQueuelen + WritePbufs(p, |arg|, copy)
    ensures memory ==>
      (err == Ok <==>
        && p.state != Closed
        && (arg == [] ||
            (&& |arg| <= p.sndBuf && p.sndQueuelen < TCP_SND_QUEUELEN
             && p.sndQueuelen + WritePbufs(p, |arg|, copy) <= TCP_SND_QUEUELEN)))
  {
    grown := 0;
    err := WriteChecks(p, |arg|);
    if err != Ok {
      p' := if err == ErrMem then p.(nagleMemErr := true) else p;
      return;
    }
    var used, seglen, oversize := 0, 0, 0;
    var ok := true;
    if p.unsent != [] {
      ok, used, seglen, oversize := ExtendTail(p, Last(p.unsent), |arg|, copy, more, memory);
    }
    var queue, queuelen: nat := [], p.sndQueuelen;
    if ok {
      queuelen := queuelen + if seglen > 0 then 1 else 0;
      ok, queue, queuelen, oversize := CutSegments(p, arg, used + seglen, queuelen, oversize, copy, more, memory);
    }
    if !ok {
      return ErrMem, p.(nagleMemErr := true), 0;
    }
    grown := used + seglen;
    p' := CommitWrite(p, arg, used, seglen, queue, queuelen, oversize);
  }

  /** The end of tcp_write, where nothing can fail any more. */
  method CommitWrite(p: Pcb, arg: seq<byte>, used: nat, seglen: nat, queue: seq<Segment>, queuelen: nat, oversize: nat)
    returns (p': Pcb)
    requires WriteChecks(p, |arg|) == Ok && used + seglen == Grown(p, |arg|) <= |arg|
    requires Tiles(queue, p.sndLbb + used + seglen, arg[used + seglen..], p.mss)
    requires TailFits(p) && p.unsent != [] && (used + seglen > 0 || (queue == [] && oversize > 0)) ==>
      var s := Last(p.unsent);
      s.data != [] && |s.data| + OptLen(s) + used + seglen + (if queue == [] then oversize else 0) <= p.mss
    requires queue != [] ==> |Last(queue).data| + oversize <= p.mss
    requires queue == [] && oversize > 0 ==> p.unsent != [] && (used + seglen > 0 || p.oversize > 0)
    requires queuelen == p.sndQueuelen + (if seglen > 0 then 1 else 0) + Pbufs(queue) <= TCP_SND_QUEUELEN
    ensures Written(p, p', arg, used + seglen) && p'.sndQueuelen == queuelen
  {
    var unsent := AppendAll(p.unsent, p.sndLbb, arg, used, seglen, queue, p.mss);
    p' := p.(unsent := unsent, oversize := oversize, sndLbb := p.sndLbb + |arg|, sndBuf := p.sndBuf - |arg|,
             sndQueuelen := queuelen);
    TilesEnd(queue, p.sndLbb + used + seglen, arg[used + seglen..], p.mss);
    if TailFits(p) {
      CommittedRoom(p.unsent, unsent, queue, used + seglen, oversize, p.mss);
    }
  }

  /** The last unsent segment lengthened by what it took, and the new segments behind it. */
  method AppendAll(u: seq<Segment>, o: int, arg: seq<byte>, used: nat, seglen: nat, queue: seq<Segment>, mss: nat)
    returns (u': seq<Segment>)
    requires used + seglen <= |arg| && (u == [] ==> used + seglen == 0)
    requires Tiles(queue, o + used + seglen, arg[used + seglen..], mss)
    ensures Appended(u, u', o, arg, used + seglen, mss)
    ensures Pbufs(u') == Pbufs(u) + (if seglen > 0 then 1 else 0) + Pbufs(queue)
    ensures queue == [] && u == [] ==> u' == []
    ensures queue == [] && u != [] ==>
      u' != [] && |Last(u').data| == |Last(u).data| + used + seglen && OptLen(Last(u')) == OptLen(Last(u))
    ensures queue != [] ==> u' != [] && Last(u') == Last(queue)
  {
    u' := queue;
    if u != [] {
      var s := Last(u);
      var extended := s.(data := s.data + arg[..used] + arg[used..used + seglen],
                         pbufs := s.pbufs + if seglen > 0 then 1 else 0);
      assert s.data + arg[..used] + arg[used..used + seglen] == s.data + arg[..used + seglen];
      u' := u[..|u| - 1] + [extended] + queue;
    }
    CommittedQueue(u, u', o, arg, used + seglen, if seglen > 0 then 1 else 0, queue, mss);
  }

  /** The spare room recorded at the end of tcp_write fits behind the last segment. */
  lemma {:induction false} CommittedRoom(u: seq<Segment>, u': seq<Segment>, queue: seq<Segment>, grown: nat, oversize: nat, mss: nat)
    requires queue == [] && u == [] ==> u' == []
    requires queue == [] && u != [] ==>
      u' != [] && |Last(u').data| == |Last(u).data| + grown && OptLen(Last(u')) == OptLen(Last(u))
    requires queue != [] ==> u' != [] && Last(u') == Last(queue)
    requires queue != [] ==> OptLen(Last(queue)) == 0 && Last(queue).data != [] && |Last(queue).data| + oversize <= mss
    requires u != [] && Last(u).data != [] ==> |Last(u).data| + OptLen(Last(u)) <= mss
    requires u != [] && (grown > 0 || (queue == [] && oversize > 0)) ==>
      Last(u).data != [] && |Last(u).data| + OptLen(Last(u)) + grown + (if queue == [] then oversize else 0) <= mss
    ensures u' != [] && Last(u').data != [] ==> |Last(u').data| + OptLen(Last(u')) <= mss
    ensures u' != [] && oversize > 0 ==> Last(u').data != [] && |Last(u').data| + OptLen(Last(u')) + oversize <= mss
  {
  }

  lemma {:induction false} CommittedQueue(u: seq<Segment>, u': seq<Segment>, o: int, arg: seq<byte>, grown: nat, extra: nat,
                                          queue: seq<Segment>, mss: nat)
    requires grown <= |arg| && (u == [] ==> grown == 0)
    requires Tiles(queue, o + grown, arg[grown..], mss)
    requires if u == [] then extra == 0 && u' == queue
      else u' == u[..|u| - 1] + [Last(u).(data := Last(u).data + arg[..grown], pbufs := Last(u).pbufs + extra)] + queue
    requires extra <= 1 && (extra > 0 ==> grown > 0)
    ensures Appended(u, u', o, arg, grown, mss)
    ensures Pbufs(u') == Pbufs(u) + extra + Pbufs(queue)
    ensures queue == [] && u == [] ==> u' == []
    ensures queue == [] && u != [] ==>
      u' != [] && |Last(u').data| == |Last(u).data| + grown && OptLen(Last(u')) == OptLen(Last(u))
    ensures queue != [] ==> u' != [] && Last(u') == Last(queue)
  {
    if u == [] {
      assert arg[0..] == arg;
    } else {
      var s := Last(u);
      Commit(u, s.(data := s.data + arg[..grown], pbufs := s.pbufs + extra), queue);
    }
  }

  lemma {:induction false} Commit(u: seq<Segment>, s: Segment, queue: seq<Segment>)
    requires u != []
    ensures var u' := u[..|u| - 1] + [s] + queue;
      && Pbufs(u') == Pbufs(u) - Last(u).pbufs + s.pbufs + Pbufs(queue)
      && u'[..|u| - 1] == u[..|u| - 1] && u'[|u| - 1] == s && u'[|u|..] == queue
  {
    SplitLast(u);
    PbufsConcat(u[..|u| - 1] + [s], queue);
    PbufsConcat(u[..|u| - 1], [s]);
    assert [s][1..] == [];
  }

  lemma {:induction false} TilesEnd(q: seq<Segment>, o: int, bytes: seq<byte>, mss: nat)
    requires Tiles(q, o, bytes, mss)
    ensures q == [] <==> bytes == []
    ensures q != [] ==> End(Last(q)) == o + |bytes| && !Last(q).syn && !Last(q).fin && Last(q).data != []
    ensures forall x :: Count(q, x) == if o <= x < o + |bytes| then 1 else 0
    decreases q
  {
    if q != [] {
      var n := |q[0].data|;
      TilesEnd(q[1..], o + n, bytes[n..], mss);
    }
  }

  // --------------------------------------------------------------- SYN and FIN

  /** A segment that only carries a flag has been put behind the unsent ones. */
  ghost predicate Enqueued(p: Pcb, p': Pcb, syn: bool, fin: bool) {
    && p.sndQueuelen < TCP_SND_QUEUELEN && p.sndBuf != 0
    && p' == p.(unsent := p.unsent + [Segment(p.sndLbb, [], syn, fin, 1)], oversize := 0, sndLbb := p.sndLbb + 1,
                sndBuf := p.sndBuf - 1, finFlag := p.finFlag || fin, sndQueuelen := p.sndQueuelen + 1)
  }

  /** tcp_enqueue_flags */
  method EnqueueFlags(p: Pcb, syn: bool, fin: bool, memory: bool) returns (err: Err, p': Pcb)
    requires syn || fin
    ensures err == if p.sndQueuelen < TCP_SND_QUEUELEN && p.sndBuf != 0 && memory then Ok else ErrMem
    ensures err == Ok ==> Enqueued(p, p', syn, fin)
    ensures err == ErrMem ==> p' == p.(nagleMemErr := p'.nagleMemErr)
  {
    if p.sndQueuelen >= TCP_SND_QUEUELEN || p.sndQueuelen > TCP_SNDQUEUELEN_OVERFLOW {
      return ErrMem, p.(nagleMemErr := true);
    }
    if p.sndBuf == 0 {
      return ErrMem, p;
    }
    if !memory {
      return ErrMem, p.(nagleMemErr := true);
    }
    var s := Segment(p.sndLbb, [], syn, fin, 1);
    err, p' := Ok, p.(unsent := p.unsent + [s], oversize := 0, sndLbb := p.sndLbb + 1, sndBuf := p.sndBuf - 1,
                      finFlag := p.finFlag || fin, sndQueuelen := p.sndQueuelen + 1);
  }

  /** A FIN can ride on the last unsent segment unless that has a flag of its own. */
  predicate CanCarryFin(p: Pcb) {
    p.unsent != [] && !Last(p.unsent).syn && !Last(p.unsent).fin
  }

  /** The FIN has been set on the last unsent segment. */
  ghost predicate FinHung(p: Pcb, p': Pcb) {
    CanCarryFin(p) && p' == p.(unsent := p.unsent[..|p.unsent| - 1] + [Last(p.unsent).(fin := true)])
  }

  /** tcp_send_fin, and the state change of tcp_close after it. */
  method Close(p: Pcb, memory: bool) returns (err: Err, p': Pcb)
    ensures err == if CanCarryFin(p) || (p.sndQueuelen < TCP_SND_QUEUELEN && p.sndBuf != 0 && memory) then Ok else ErrMem
    ensures err == Ok ==>
      if CanCarryFin(p) then FinHung(p.(state := Closed), p') else Enqueued(p.(state := Closed), p', false, true)
    ensures err == ErrMem ==> !CanCarryFin(p) && p' == p.(nagleMemErr := p'.nagleMemErr)
  {
    if p.unsent != [] {
      var last := p.unsent[|p.unsent| - 1];
      if !last.syn && !last.fin {
        return Ok, p.(unsent := p.unsent[..|p.unsent| - 1] + [last.(fin := true)], state := Closed);
      }
    }
    err, p' := EnqueueFlags(p, false, true, memory);
    if err == Ok {
      p' := p'.(state := Closed);
    }
  }

  // --------------------------------------------------------------- tcp_output

  function InsertSorted(q: seq<Segment>, s: Segment): seq<Segment> {
    if q == [] || !SeqLt(q[0].seqno, s.seqno) then [s] + q else [q[0]] + InsertSorted(q[1..], s)
  }

  /** Where tcp_output puts a segment it has sent. */
  function Place(q: seq<Segment>, s: Segment): seq<Segment> {
    if q != [] && SeqLt(s.seqno, Last(q).seqno) then InsertSorted(q, s) else q + [s]
  }

  /** The splicing loop, over a pointer to the next pointer in the source. */
  method Splice(q: seq<Segment>, s: Segment) returns (r: seq<Segment>)
    ensures r == InsertSorted(q, s)
  {
    var i := 0;
    while i < |q| && SeqLt(q[i].seqno, s.seqno)
      invariant i <= |q|
      invariant InsertSorted(q, s) == q[..i] + InsertSorted(q[i..], s)
    {
      assert q[..i] + [q[i]] == q[..i + 1] && q[i..][1..] == q[i + 1..];
      assert InsertSorted(q[i..], s) == [q[i]] + InsertSorted(q[i + 1..], s);
      assert q[..i] + ([q[i]] + InsertSorted(q[i + 1..], s)) == (q[..i] + [q[i]]) + InsertSorted(q[i + 1..], s);
      i := i + 1;
    }
    r := q[..i] + [s] + q[i..];
    assert r == q[..i] + ([s] + q[i..]);
  }

  predicate InWindow(p: Pcb, s: Segment, wnd: nat) {
    U32(s.seqno - p.lastack + |s.data|) <= wnd
  }

  /** Sending the first unsent segment. */
  function Transmit(p: Pcb): Pcb
    requires p.unsent != []
  {
    var s := p.unsent[0];
    p.(unsent := p.unsent[1..],
       sndNxt := if SeqLt(p.sndNxt, End(s)) then End(s) else p.sndNxt,
       unacked := if TcpLen(s) > 0 then Place(p.unacked, s) else p.unacked)
  }

  /** tcp_do_output_nagle, or one of the flags that overrule it; inFr is TF_INFR. */
  predicate MaySend(p: Pcb, inFr: bool) {
    || p.unacked == [] || p.nodelay || inFr
    || (p.unsent != [] && (|p.unsent| > 1 || |p.unsent[0].data| >= p.mss))
    || p.nagleMemErr || p.finFlag
  }

  /** p' is p after sending k segments, each of them inside the window and not held back. */
  ghost predicate Sends(p: Pcb, p': Pcb, k: nat, wnd: nat, inFr: bool)
    decreases k
  {
    if k == 0 then p' == p
    else
      && p.unsent != [] && InWindow(p, p.unsent[0], wnd) && MaySend(p, inFr)
      && Sends(Transmit(p), p', k - 1, wnd, inFr)
  }

  lemma {:induction false} SendsOneMore(p: Pcb, q: Pcb, k: nat, wnd: nat, inFr: bool)
    requires Sends(p, q, k, wnd, inFr) && q.unsent != [] && InWindow(q, q.unsent[0], wnd) && MaySend(q, inFr)
    ensures Sends(p, Transmit(q), k + 1, wnd, inFr)
    decreases k
  {
    if k > 0 {
      SendsOneMore(Transmit(p), q, k - 1, wnd, inFr);
    } else {
      assert Sends(Transmit(q), Transmit(q), 0, wnd, inFr);
    }
  }

  /** tcp_output has sent k segments, and stopped for a reason. */
  ghost predicate Flushed(p: Pcb, p': Pcb, k: nat, wnd: nat, inFr: bool) {
    exists q ::
      && Sends(p, q, k, wnd, inFr)
      && (q.unsent == [] || !InWindow(q, q.unsent[0], wnd) || !MaySend(q, inFr))
      && p' == q.(oversize := if q.unsent == [] then 0 else q.oversize, nagleMemErr := false)
  }

  /** tcp_output; wnd is the smaller of the send and the congestion window. */
  method Output(p: Pcb, inInput: bool, ackNow: bool, wnd: nat, inFr: bool) returns (p': Pcb, ghost k: nat)
    ensures if inInput || (ackNow && (p.unsent == [] || !InWindow(p, p.unsent[0], wnd))) then p' == p
      else Flushed(p, p', k, wnd, inFr)
  {
    p', k := p, 0;
    if inInput {
      return;
    }
    if ackNow && (p.unsent == [] || !InWindow(p, p.unsent[0], wnd)) {
      // an empty acknowledgement is sent and nothing is queued
      return;
    }
    while p'.unsent != [] && InWindow(p', p'.unsent[0], wnd)
      invariant Sends(p, p', k, wnd, inFr)
      decreases |p'.unsent|
    {
      if !MaySend(p', inFr) {
        break;
      }
      SendsOneMore(p, p', k, wnd, inFr);
      ghost var sent := Transmit(p');
      var s := p'.unsent[0];
      p' := p'.(unsent := p'.unsent[1..]);
      if SeqLt(p'.sndNxt, End(s)) {
        p' := p'.(sndNxt := End(s));
      }
      if TcpLen(s) > 0 {
        var unacked := p'.unacked;
        if unacked != [] && SeqLt(s.seqno, Last(unacked).seqno) {
          unacked := Splice(unacked, s);
        } else {
          unacked := unacked + [s];
        }
        p' := p'.(unacked := unacked);
      }
      assert p' == sent;
      k := k + 1;
    }
    ghost var q := p';
    if p'.unsent == [] {
      p' := p'.(oversize := 0);
    }
    p' := p'.(nagleMemErr := false);
    assert p' == q.(oversize := if q.unsent == [] then 0 else q.oversize, nagleMemErr := false);
  }

  // ------------------------------------------------------------ retransmission

  function Rexmitted(p: Pcb): Pcb {
    if p.unacked == [] then p
    else p.(unacked := p.unacked[1..], unsent := InsertSorted(p.unsent, p.unacked[0]))
  }

  /** tcp_rexmit */
  method Rexmit(p: Pcb) returns (p': Pcb)
    ensures p' == Rexmitted(p)
  {
    if p.unacked == [] {
      return p;
    }
    var unsent := Splice(p.unsent, p.unacked[0]);
    p' := p.(unacked := p.unacked[1..], unsent := unsent);
  }

  /** tcp_rexmit_rto up to its call of tcp_output */
  function RexmittedAll(p: Pcb): Pcb {
    if p.unacked == [] then p else p.(unsent := p.unacked + p.unsent, unacked := [])
  }

  /** tcp_rexmit_rto: the unsent queue is hung behind the last unacknowledged segment. */
  method RexmitAll(p: Pcb) returns (p': Pcb)
    ensures p' == RexmittedAll(p)
    ensures p'.unacked == [] && p'.unsent == p.unacked + p.unsent
  {
    if p.unacked == [] {
      assert p.unacked + p.unsent == p.unsent;
      return p;
    }
    var i := 0;
    while i + 1 < |p.unacked|
      invariant i < |p.unacked|
    {
      i := i + 1;
    }
    p' := p.(unsent := p.unacked[..i + 1] + p.unsent, unacked := []);
    assert p.unacked[..i + 1] == p.unacked;
  }

  /** Every unacknowledged segment is queued again, in order, in front of what was unsent. */
  lemma {:induction false} AllQueuedAgain(p: Pcb, x: int)
    ensures var q := RexmittedAll(p);
      && q.unacked == [] && |q.unsent| == |p.unacked| + |p.unsent|
      && (forall i | 0 <= i < |p.unacked| :: q.unsent[i] == p.unacked[i])
      && (forall i | 0 <= i < |p.unsent| :: q.unsent[|p.unacked| + i] == p.unsent[i])
      && Count(q.unsent, x) == Count(p.unacked, x) + Count(p.unsent, x)
  {
    CountConcat(p.unacked, p.unsent, x);
  }

  /** tcp_rexmit queues the first unacknowledged segment again, and keeps all others where they
      are, in their order. */
  lemma {:induction false} FirstQueuedAgain(p: Pcb) returns (k: nat)
    requires p.unacked != []
    ensures var q := Rexmitted(p);
      && q.unacked == p.unacked[1..] && k <= |p.unsent|
      && q.unsent == p.unsent[..k] + [p.unacked[0]] + p.unsent[k..]
      && (forall i | 0 <= i < k :: SeqLt(p.unsent[i].seqno, p.unacked[0].seqno))
      && (k < |p.unsent| ==> !SeqLt(p.unsent[k].seqno, p.unacked[0].seqno))
  {
    k := InsertedAt(p.unsent, p.unacked[0]);
  }

  lemma {:induction false} InsertedAt(q: seq<Segment>, s: Segment) returns (k: nat)
    ensures k <= |q| && InsertSorted(q, s) == q[..k] + [s] + q[k..]
    ensures forall i | 0 <= i < k :: SeqLt(q[i].seqno, s.seqno)
    ensures k < |q| ==> !SeqLt(q[k].seqno, s.seqno)
  {
    if q == [] || !SeqLt(q[0].seqno, s.seqno) {
      k := 0;
    } else {
      var l := InsertedAt(q[1..], s);
      k := l + 1;
      assert q[..k] == [q[0]] + q[1..][..l] && q[k..] == q[1..][l..];
      forall i | 0 <= i < k ensures SeqLt(q[i].seqno, s.seqno) {
        if i > 0 {
          assert q[i] == q[1..][i - 1];
        }
      }
    }
  }

  // ----------------------------------------------------------- acknowledgement

  /** How many segments at the head of the unacknowledged queue ackno covers. */
  function AckedPrefix(q: seq<Segment>, ackno: int): (k: nat)
    ensures k <= |q|
  {
    if q == [] || !SeqLeq(End(q[0]), ackno) then 0 else 1 + AckedPrefix(q[1..], ackno)
  }

  /** How many segments at the head of the unsent queue pass for sent and acknowledged. */
  function UnsentPrefix(q: seq<Segment>, ackno: int, sndNxt: int): (k: nat)
    ensures k <= |q|
  {
    if q == [] || !SeqBetween(ackno, End(q[0]), sndNxt) then 0 else 1 + UnsentPrefix(q[1..], ackno, sndNxt)
  }

  /** The byte count reported to the application, one less for a FIN among the removed ones. */
  function LessFins(acked: nat, removed: seq<Segment>): nat {
    if removed == [] then acked
    else LessFins(if acked != 0 && removed[0].fin then acked - 1 else acked, removed[1..])
  }

  predicate NewData(p: Pcb, ackno: int) {
    !SeqLeq(ackno, p.lastack) && SeqBetween(ackno, p.lastack + 1, p.sndNxt)
  }

  /** An acknowledgement of new data moves lastack and frees what it covers. */
  function Advanced(p: Pcb, ackno: int): Pcb {
    if !NewData(p, ackno) then p.(acked := 0)
    else
      var acked, k := U16(ackno - p.lastack), AckedPrefix(p.unacked, ackno);
      p.(acked := LessFins(acked, p.unacked[..k]), sndBuf := p.sndBuf + acked, lastack := ackno,
         unacked := p.unacked[k..], sndQueuelen := p.sndQueuelen - Pbufs(p.unacked[..k]))
  }

  function Swept(p: Pcb, ackno: int): Pcb {
    var k := UnsentPrefix(p.unsent, ackno, p.sndNxt);
    p.(acked := LessFins(p.acked, p.unsent[..k]), unsent := p.unsent[k..],
       sndQueuelen := p.sndQueuelen - Pbufs(p.unsent[..k]))
  }

  lemma {:induction false} LessFinsConcat(acked: nat, a: seq<Segment>, b: seq<Segment>)
    ensures LessFins(acked, a + b) == LessFins(LessFins(acked, a), b)
    decreases a
  {
    if a == [] {
      assert a + b == b;
    } else {
      assert (a + b)[1..] == a[1..] + b;
      LessFinsConcat(if acked != 0 && a[0].fin then acked - 1 else acked, a[1..], b);
    }
  }

  /** One more removed segment. */
  lemma {:induction false} RemoveOne(q: seq<Segment>, k: nat, acked: nat)
    requires k < |q|
    ensures Pbufs(q[..k + 1]) == Pbufs(q[..k]) + q[k].pbufs
    ensures var a := LessFins(acked, q[..k]);
      LessFins(acked, q[..k + 1]) == if a != 0 && q[k].fin then a - 1 else a
    ensures q[k..][1..] == q[k + 1..]
  {
    assert q[..k + 1] == q[..k] + [q[k]];
    assert [q[k]][1..] == [];
    PbufsConcat(q[..k], [q[k]]);
    LessFinsConcat(acked, q[..k], [q[k]]);
  }

  /** The loop over the unacknowledged queue. */
  method FreeAcked(q: seq<Segment>, acked0: nat, queuelen0: int, ackno: int)
    returns (rest: seq<Segment>, acked: nat, queuelen: int)
    ensures var k := AckedPrefix(q, ackno);
      rest == q[k..] && acked == LessFins(acked0, q[..k]) && queuelen == queuelen0 - Pbufs(q[..k])
  {
    rest, acked, queuelen := q, acked0, queuelen0;
    ghost var k := 0;
    while rest != [] && SeqLeq(End(rest[0]), ackno)
      invariant k <= |q| && rest == q[k..] && AckedPrefix(q, ackno) == k + AckedPrefix(rest, ackno)
      invariant acked == LessFins(acked0, q[..k]) && queuelen == queuelen0 - Pbufs(q[..k])
      decreases |rest|
    {
      RemoveOne(q, k, acked0);
      if acked != 0 && rest[0].fin {
        acked := acked - 1;
      }
      queuelen := queuelen - rest[0].pbufs;
      rest := rest[1..];
      k := k + 1;
    }
  }

  /** The loop over the unsent queue. */
  method FreeSwept(q: seq<Segment>, acked0: nat, queuelen0: int, ackno: int, sndNxt: int)
    returns (rest: seq<Segment>, acked: nat, queuelen: int)
    ensures var k := UnsentPrefix(q, ackno, sndNxt);
      rest == q[k..] && acked == LessFins(acked0, q[..k]) && queuelen == queuelen0 - Pbufs(q[..k])
  {
    rest, acked, queuelen := q, acked0, queuelen0;
    ghost var k := 0;
    while rest != [] && SeqBetween(ackno, End(rest[0]), sndNxt)
      invariant k <= |q| && rest == q[k..] && UnsentPrefix(q, ackno, sndNxt) == k + UnsentPrefix(rest, ackno, sndNxt)
      invariant acked == LessFins(acked0, q[..k]) && queuelen == queuelen0 - Pbufs(q[..k])
      decreases |rest|
    {
      RemoveOne(q, k, acked0);
      if acked != 0 && rest[0].fin {
        acked := acked - 1;
      }
      queuelen := queuelen - rest[0].pbufs;
      rest := rest[1..];
      k := k + 1;
    }
  }

  /** The acknowledgement part of tcp_receive. */
  method Acknowledge(p: Pcb, ackno: int) returns (p': Pcb)
    ensures p' == Swept(Advanced(p, ackno), ackno)
  {
    p' := AcknowledgeSent(p, ackno);
    var unsent, reported, queuelen := FreeSwept(p'.unsent, p'.acked, p'.sndQueuelen, ackno, p'.sndNxt);
    p' := p'.(acked := reported, unsent := unsent, sndQueuelen := queuelen);
  }

  /** Its first half: the position and the unacknowledged queue. */
  method AcknowledgeSent(p: Pcb, ackno: int) returns (p': Pcb)
    ensures p' == Advanced(p, ackno)
  {
    if SeqLeq(ackno, p.lastack) {
      p' := p.(acked := 0);
    } else if SeqBetween(ackno, p.lastack + 1, p.sndNxt) {
      var acked := U16(ackno - p.lastack);
      var unacked, reported, queuelen := FreeAcked(p.unacked, acked, p.sndQueuelen, ackno);
      p' := p.(acked := reported, sndBuf := p.sndBuf + acked, lastack := ackno, unacked := unacked,
               sndQueuelen := queuelen);
    } else {
      p' := p.(acked := 0);
    }
  }

  /** The SYN_SENT branch of tcp_process when the peer has acknowledged the SYN. */
  method SynAcknowledged(p: Pcb, ackno: int) returns (p': Pcb)
    requires p.unacked != []
    ensures p' == if U32(ackno) == U32(p.unacked[0].seqno + 1) then Connected(p) else p
  {
    p' := p;
    if U32(ackno) == U32(p.unacked[0].seqno + 1) {
      p' := p'.(sndBuf := p.sndBuf + 1, lastack := p.unacked[0].seqno + 1, state := Open);
      p' := p'.(sndQueuelen := p'.sndQueuelen - 1, unacked := p.unacked[1..]);
    }
  }

  function Connected(p: Pcb): Pcb
    requires p.unacked != []
  {
    p.(sndBuf := p.sndBuf + 1, lastack := p.unacked[0].seqno + 1, state := Open, sndQueuelen := p.sndQueuelen - 1,
       unacked := p.unacked[1..])
  }

  /** The segment size after an option of tcp_parseopt; `limit` is what the route allows, which
      tcp_eff_send_mss takes into account when a connection is set up. */
  function NewMss(option: nat, limit: nat): (m: nat)
    requires limit > 0
    ensures 0 < m <= TCP_MSS && m <= limit
    ensures m == if 0 < option <= TCP_MSS then Min(option, limit) else Min(TCP_MSS, limit)
  {
    Min(if option > TCP_MSS || option == 0 then TCP_MSS else option, limit)
  }
}
