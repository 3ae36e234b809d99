/** What every run of the send side keeps: each unacknowledged sequence number is in exactly one
    queued segment, each segment carries the bytes that belong at its sequence number, and the
    two counters agree with the queues. */
module TcpSendRuns {
  import opened Words
  import opened TcpSend

  /** What has been written: the sequence number of its first byte, the bytes, and whether a FIN
      has been set on a segment that was already queued. */
  datatype Log = Log(first: int, stream: seq<byte>, hung: bool)

  const SPAN: int := TCP_SND_BUF + TCP_MSS + 2

  /** The sequence number behind everything written, a FIN included. */
  function Top(p: Pcb, h: Log): int {
    h.first + |h.stream| + if p.state == Closed then 1 else 0
  }

  /** The segment belongs to the connection: its data is the stream's at its sequence number. */
  predicate Genuine(s: Segment, h: Log, closed: bool, mss: nat) {
    && TcpLen(s) > 0 && s.pbufs > 0 && |s.data| <= mss
    && (s.syn ==> s.data == [] && !s.fin && s.seqno == h.first - 1 && s.pbufs == 1)
    && (!s.syn ==> s.seqno >= h.first)
    && (s.data != [] ==>
      && s.seqno - h.first + |s.data| <= |h.stream|
      && s.data == h.stream[s.seqno - h.first..s.seqno - h.first + |s.data|])
    && (s.fin ==> closed && End(s) == h.first + |h.stream| + 1)
  }

  predicate AllGenuine(q: seq<Segment>, h: Log, closed: bool, mss: nat) {
    q == [] || (Genuine(q[0], h, closed, mss) && AllGenuine(q[1..], h, closed, mss))
  }

  /** No segment lies further behind the ones in front of it than SPAN. */
  predicate Near(q: seq<Segment>, m: int) {
    q == [] || (m - q[0].seqno <= SPAN && Near(q[1..], if m < End(q[0]) then End(q[0]) else m))
  }

  /** How many segments, queued anywhere, cover x. */
  function Cover(p: Pcb, x: int): nat {
    Count(p.unacked, x) + Count(p.unsent, x)
  }

  /** No sequence number is in two segments, and none that is unacknowledged is in no segment. */
  ghost predicate Covered(p: Pcb, h: Log) {
    && (forall x :: Cover(p, x) <= 1)
    && (forall x | p.lastack <= x < Top(p, h) :: Cover(p, x) == 1)
  }

  /** The positions: what is acknowledged, sent and written follow each other. */
  predicate Ordered(p: Pcb, h: Log) {
    && 0 < p.mss <= TCP_MSS
    && h.first - 1 <= p.lastack <= p.sndNxt <= Top(p, h)
    && p.sndLbb == Top(p, h) - (if h.hung then 1 else 0)
    && (h.hung ==> p.state == Closed)
    && (p.state == SynSent ==> p.lastack == h.first - 1)
    && p.sndBuf >= 0 && p.sndBuf + (p.sndLbb - p.lastack) == TCP_SND_BUF
  }

  predicate Queued(p: Pcb, h: Log) {
    && AllGenuine(p.unacked, h, p.state == Closed, p.mss)
    && AllGenuine(p.unsent, h, p.state == Closed, p.mss)
    && Sorted(p.unacked, p.lastack - p.mss - 1, p.sndNxt)
    && (p.unacked != [] ==> End(p.unacked[0]) >= p.lastack)
    && Near(p.unsent, p.sndNxt)
    && p.sndQueuelen == Pbufs(p.unacked) + Pbufs(p.unsent) <= TCP_SND_QUEUELEN
  }

  /** Spare room is only recorded behind a last unsent segment that ends at snd_lbb and has not
      been sent in full. */
  predicate RoomOk(p: Pcb) {
    p.state != Closed && p.oversize > 0 ==>
      p.unsent != [] && p.sndNxt < End(Last(p.unsent)) == p.sndLbb && Last(p.unsent).data != []
      && |Last(p.unsent).data| + OptLen(Last(p.unsent)) + p.oversize <= p.mss
  }

  ghost predicate Inv(p: Pcb, h: Log) {
    Ordered(p, h) && Queued(p, h) && Covered(p, h) && RoomOk(p)
  }

  /** The last unsent segment ends where the next byte will be written. */
  predicate Tail(p: Pcb) {
    p.unsent != [] ==> End(Last(p.unsent)) == p.sndLbb
  }

  // ----------------------------------------------------------------- positions

  lemma {:induction false} GenuineConcat(a: seq<Segment>, b: seq<Segment>, h: Log, closed: bool, mss: nat)
    ensures AllGenuine(a + b, h, closed, mss) <==> AllGenuine(a, h, closed, mss) && AllGenuine(b, h, closed, mss)
  {
    if a == [] {
      assert a + b == b;
    } else {
      assert (a + b)[1..] == a[1..] + b;
      GenuineConcat(a[1..], b, h, closed, mss);
    }
  }

  lemma {:induction false} GenuineAt(q: seq<Segment>, h: Log, closed: bool, mss: nat)
    requires AllGenuine(q, h, closed, mss)
    ensures forall i | 0 <= i < |q| :: Genuine(q[i], h, closed, mss)
    ensures q != [] ==> AllGenuine(q[..|q| - 1], h, closed, mss) && Genuine(Last(q), h, closed, mss)
  {
    if q != [] {
      GenuineAt(q[1..], h, closed, mss);
      forall i | 0 <= i < |q| ensures Genuine(q[i], h, closed, mss) {
        if i > 0 {
          assert q[i] == q[1..][i - 1];
        }
      }
      GenuineConcat(q[..|q| - 1], [Last(q)], h, closed, mss);
      assert q == q[..|q| - 1] + [Last(q)];
    }
  }

  /** A genuine segment ends at or below the top. */
  lemma {:induction false} EndsBelow(s: Segment, h: Log, closed: bool, mss: nat)
    requires Genuine(s, h, closed, mss)
    ensures h.first - 1 <= s.seqno < End(s) <= h.first + |h.stream| + if closed then 1 else 0
    ensures !s.fin ==> End(s) <= h.first + |h.stream|
    ensures TcpLen(s) <= mss + 1
  {
  }

  lemma {:induction false} CountAbove(q: seq<Segment>, h: Log, closed: bool, mss: nat, x: int)
    requires AllGenuine(q, h, closed, mss)
    ensures x >= h.first + |h.stream| + (if closed then 1 else 0) ==> Count(q, x) == 0
  {
    if q != [] {
      EndsBelow(q[0], h, closed, mss);
      CountAbove(q[1..], h, closed, mss, x);
    }
  }

  /** Writing more leaves what is queued genuine. */
  lemma {:induction false} GenuineGrows(q: seq<Segment>, h: Log, more: seq<byte>, mss: nat)
    requires AllGenuine(q, h, false, mss)
    ensures AllGenuine(q, h.(stream := h.stream + more), false, mss)
  {
    if q != [] {
      var s, h' := q[0], h.(stream := h.stream + more);
      if s.data != [] {
        var i := s.seqno - h.first;
        assert h'.stream[i..i + |s.data|] == h.stream[i..i + |s.data|];
      }
      GenuineGrows(q[1..], h, more, mss);
    }
  }

  /** Setting the FIN closes the stream; what is queued stays genuine. */
  lemma {:induction false} GenuineCloses(q: seq<Segment>, h: Log, hung: bool, mss: nat)
    requires AllGenuine(q, h, false, mss)
    ensures AllGenuine(q, h.(hung := hung), true, mss)
  {
    if q != [] {
      GenuineCloses(q[1..], h, hung, mss);
    }
  }

  lemma {:induction false} TilesGenuine(q: seq<Segment>, o: int, bytes: seq<byte>, h: Log, mss: nat)
    requires Tiles(q, o, bytes, mss) && h.first <= o && o - h.first + |bytes| == |h.stream|
    requires bytes == h.stream[o - h.first..]
    ensures AllGenuine(q, h, false, mss)
    decreases q
  {
    if q != [] {
      var n := |q[0].data|;
      assert bytes[..n] == h.stream[o - h.first..o - h.first + n];
      TilesGenuine(q[1..], o + n, bytes[n..], h, mss);
    }
  }

  lemma {:induction false} NearConcat(a: seq<Segment>, b: seq<Segment>, m: int, top: int)
    requires Near(a, m) && m <= top && (forall i | 0 <= i < |a| :: End(a[i]) <= top) && Near(b, top)
    ensures Near(a + b, m)
    decreases a
  {
    if a == [] {
      assert a + b == b;
      NearLess(b, m, top);
    } else {
      assert (a + b)[1..] == a[1..] + b;
      NearConcat(a[1..], b, if m < End(a[0]) then End(a[0]) else m, top);
    }
  }

  lemma {:induction false} NearLess(q: seq<Segment>, m: int, m': int)
    requires Near(q, m') && m <= m'
    ensures Near(q, m)
    decreases q
  {
    if q != [] {
      NearLess(q[1..], if m < End(q[0]) then End(q[0]) else m, if m' < End(q[0]) then End(q[0]) else m');
    }
  }

  lemma {:induction false} TilesNear(q: seq<Segment>, o: int, bytes: seq<byte>, mss: nat, m: int)
    requires Tiles(q, o, bytes, mss) && m <= o
    ensures Near(q, m)
    decreases q
  {
    if q != [] {
      var n := |q[0].data|;
      TilesNear(q[1..], o + n, bytes[n..], mss, End(q[0]));
    }
  }

  // ----------------------------------------------------------------- tcp_write

  /** What is put behind the last unsent segment fits into it. */
  predicate Fitting(u: seq<Segment>, grown: nat, mss: nat) {
    grown > 0 ==> u != [] && Last(u).data != [] && |Last(u).data| + OptLen(Last(u)) + grown <= mss
  }

  /** The pieces of the unsent queue after a write. */
  lemma {:induction false} Pieces(u: seq<Segment>, u': seq<Segment>, o: int, bytes: seq<byte>, grown: nat, mss: nat)
    returns (a: seq<Segment>, t: seq<Segment>, q: seq<Segment>)
    requires Appended(u, u', o, bytes, grown, mss) && Fitting(u, grown, mss)
    ensures u' == a + t + q && Tiles(q, o + grown, bytes[grown..], mss)
    ensures if u == [] then a == [] && t == [] && grown == 0
      else
        var s := Last(u);
        && u == a + [s] && |t| == 1 && s.pbufs <= t[0].pbufs
        && (grown == 0 ==> t[0].pbufs == s.pbufs)
        && t[0] == s.(data := s.data + bytes[..grown], pbufs := t[0].pbufs)
        && (grown > 0 ==> s.data != [] && |s.data| + OptLen(s) + grown <= mss)
  {
    if u == [] {
      a, t, q := [], [], u';
      assert bytes[0..] == bytes;
    } else {
      var n := |u| - 1;
      a, t, q := u[..n], [u'[n]], u'[n + 1..];
      assert u == u[..n] + [u[n]];
      assert u' == u'[..n] + [u'[n]] + u'[n + 1..];
    }
  }

  lemma {:induction false} AcrossEnd(a: seq<byte>, b: seq<byte>, i: nat, n: nat)
    requires i <= |a| && n <= |b|
    ensures (a + b)[i..|a| + n] == a[i..] + b[..n]
  {
  }

  lemma {:induction false} GrownGenuine(s: Segment, t: Segment, bytes: seq<byte>, grown: nat, h: Log, mss: nat)
    requires Genuine(s, h, false, mss) && grown <= |bytes| && s.pbufs <= t.pbufs
    requires t == s.(data := s.data + bytes[..grown], pbufs := t.pbufs)
    requires grown > 0 ==> s.data != [] && |s.data| + OptLen(s) + grown <= mss && End(s) == h.first + |h.stream|
    requires grown == 0 ==> t.pbufs == s.pbufs
    ensures Genuine(t, h.(stream := h.stream + bytes), false, mss)
  {
    var h' := h.(stream := h.stream + bytes);
    if s.data != [] {
      var i := s.seqno - h.first;
      assert h'.stream[i..i + |s.data|] == s.data;
      if grown > 0 {
        AcrossEnd(h.stream, bytes, i, grown);
      } else {
        assert s.data + bytes[..0] == s.data;
      }
    }
  }

  /** Nothing is put behind a last unsent segment that does not end at snd_lbb. */
  predicate WellPlaced(p: Pcb, len: nat) {
    len == 0 || Tail(p) || Room(p.unsent, p.mss) == 0
  }

  /** No byte is put behind a segment that does not end at o. */
  predicate InPlace(u: seq<Segment>, o: int, grown: nat) {
    grown > 0 && u != [] ==> End(Last(u)) == o
  }

  lemma {:induction false} WriteGenuine(u: seq<Segment>, u': seq<Segment>, o: int, bytes: seq<byte>, grown: nat, h: Log, mss: nat)
    requires Appended(u, u', o, bytes, grown, mss) && Fitting(u, grown, mss) && InPlace(u, o, grown)
    requires AllGenuine(u, h, false, mss) && o == h.first + |h.stream|
    ensures AllGenuine(u', h.(stream := h.stream + bytes), false, mss)
  {
    var h' := h.(stream := h.stream + bytes);
    var a, t, q := Pieces(u, u', o, bytes, grown, mss);
    assert h'.stream[o + grown - h.first..] == bytes[grown..];
    TilesGenuine(q, o + grown, bytes[grown..], h', mss);
    if t == [] {
      assert a + t + q == q;
    } else {
      TailGenuine(a, Last(u), t[0], bytes, grown, h, mss);
      assert t == [t[0]];
      GenuineConcat(a + t, q, h', false, mss);
    }
  }

  lemma {:induction false} TailGenuine(a: seq<Segment>, s: Segment, t: Segment, bytes: seq<byte>, grown: nat, h: Log, mss: nat)
    requires AllGenuine(a + [s], h, false, mss) && grown <= |bytes| && s.pbufs <= t.pbufs
    requires t == s.(data := s.data + bytes[..grown], pbufs := t.pbufs)
    requires grown > 0 ==> s.data != [] && |s.data| + OptLen(s) + grown <= mss && End(s) == h.first + |h.stream|
    requires grown == 0 ==> t.pbufs == s.pbufs
    ensures AllGenuine(a + [t], h.(stream := h.stream + bytes), false, mss)
  {
    var h' := h.(stream := h.stream + bytes);
    GenuineConcat(a, [s], h, false, mss);
    GrownGenuine(s, t, bytes, grown, h, mss);
    GenuineGrows(a, h, bytes, mss);
    assert [t][1..] == [];
    GenuineConcat(a, [t], h', false, mss);
  }

  lemma {:induction false} WriteCount(u: seq<Segment>, u': seq<Segment>, o: int, bytes: seq<byte>, grown: nat, mss: nat, x: int)
    requires Appended(u, u', o, bytes, grown, mss) && Fitting(u, grown, mss) && InPlace(u, o, grown)
    ensures Count(u', x) == Count(u, x) + if o <= x < o + |bytes| then 1 else 0
  {
    var a, t, q := Pieces(u, u', o, bytes, grown, mss);
    TilesEnd(q, o + grown, bytes[grown..], mss);
    CountConcat(a + t, q, x);
    CountConcat(a, t, x);
    if t != [] {
      var s := Last(u);
      CountConcat(a, [s], x);
      assert [s][1..] == [] && t[1..] == [];
      assert TcpLen(t[0]) == TcpLen(s) + grown;
    }
  }

  lemma {:induction false} WriteLast(u: seq<Segment>, u': seq<Segment>, o: int, bytes: seq<byte>, grown: nat, mss: nat)
    requires Appended(u, u', o, bytes, grown, mss) && Fitting(u, grown, mss) && InPlace(u, o, grown)
    ensures bytes != [] ==> u' != [] && End(Last(u')) == o + |bytes|
    ensures bytes == [] ==> u' == u
  {
    var a, t, q := Pieces(u, u', o, bytes, grown, mss);
    TilesEnd(q, o + grown, bytes[grown..], mss);
    if q == [] && t != [] {
      assert Last(u') == t[0];
      if grown == 0 {
        assert Last(u).data + bytes[..0] == Last(u).data;
        assert t == [Last(u)];
      }
    }
  }

  lemma {:induction false} WriteNear(u: seq<Segment>, u': seq<Segment>, o: int, bytes: seq<byte>, grown: nat, h: Log, mss: nat, m: int)
    requires Appended(u, u', o, bytes, grown, mss) && Fitting(u, grown, mss) && InPlace(u, o, grown) && mss <= TCP_MSS
    requires AllGenuine(u, h, false, mss) && o == h.first + |h.stream| && Near(u, m) && m <= o
    ensures Near(u', m)
  {
    var a, t, q := Pieces(u, u', o, bytes, grown, mss);
    var top := o + grown;
    TilesNear(q, top, bytes[grown..], mss, top);
    if t == [] {
      assert a + t + q == q;
      NearLess(q, m, top);
    } else {
      EndsAtMost(u, h, false, mss);
      GrownNear(a, Last(u), t[0], m, o, top);
      assert t == [t[0]];
      NearConcat(a + t, q, m, top);
    }
  }

  lemma {:induction false} EndsAtMost(q: seq<Segment>, h: Log, closed: bool, mss: nat)
    requires AllGenuine(q, h, closed, mss)
    ensures forall i | 0 <= i < |q| :: End(q[i]) <= h.first + |h.stream| + if closed then 1 else 0
  {
    GenuineAt(q, h, closed, mss);
    forall i | 0 <= i < |q| ensures End(q[i]) <= h.first + |h.stream| + if closed then 1 else 0 {
      EndsBelow(q[i], h, closed, mss);
    }
  }

  lemma {:induction false} GrownNear(a: seq<Segment>, s: Segment, t: Segment, m: int, lbb: int, top: int)
    requires Near(a + [s], m) && t.seqno == s.seqno && End(t) <= top && lbb <= top
    requires forall i | 0 <= i < |a + [s]| :: End((a + [s])[i]) <= lbb
    ensures Near(a + [t], m)
    ensures forall i | 0 <= i < |a + [t]| :: End((a + [t])[i]) <= top
  {
    NearLastFree(a, s, t, m);
    forall i | 0 <= i < |a| ensures End((a + [t])[i]) <= top {
      assert (a + [t])[i] == (a + [s])[i];
    }
  }

  lemma {:induction false} NearLastFree(a: seq<Segment>, s: Segment, t: Segment, m: int)
    requires Near(a + [s], m) && t.seqno == s.seqno
    ensures Near(a + [t], m)
    decreases a
  {
    if a == [] {
      assert [t][1..] == [];
    } else {
      assert (a + [s])[1..] == a[1..] + [s] && (a + [t])[1..] == a[1..] + [t];
      NearLastFree(a[1..], s, t, if m < End(a[0]) then End(a[0]) else m);
    }
  }

  /** A successful tcp_write keeps everything, and puts the bytes at the end of the stream. */
  lemma {:induction false} WriteKeeps(p: Pcb, p': Pcb, h: Log, bytes: seq<byte>, grown: nat)
    requires Inv(p, h) && Written(p, p', bytes, grown) && WellPlaced(p, |bytes|)
    ensures Inv(p', h.(stream := h.stream + bytes))
    ensures Tail(p) || bytes != [] ==> Tail(p')
  {
    InvFitting(p, p', h, bytes, grown);
    assert InPlace(p.unsent, p.sndLbb, grown);
    WriteQueued(p, p', h, bytes, grown);
    WriteCovered(p, p', h, bytes, grown);
    WriteLast(p.unsent, p'.unsent, p.sndLbb, bytes, grown, p.mss);
  }

  lemma {:induction false} WriteQueued(p: Pcb, p': Pcb, h: Log, bytes: seq<byte>, grown: nat)
    requires Ordered(p, h) && Queued(p, h) && Written(p, p', bytes, grown)
    requires InPlace(p.unsent, p.sndLbb, grown) && Fitting(p.unsent, grown, p.mss)
    ensures Queued(p', h.(stream := h.stream + bytes))
  {
    WriteGenuine(p.unsent, p'.unsent, p.sndLbb, bytes, grown, h, p.mss);
    GenuineGrows(p.unacked, h, bytes, p.mss);
    WriteNear(p.unsent, p'.unsent, p.sndLbb, bytes, grown, h, p.mss, p.sndNxt);
  }

  lemma {:induction false} WriteCovered(p: Pcb, p': Pcb, h: Log, bytes: seq<byte>, grown: nat)
    requires Ordered(p, h) && Queued(p, h) && Covered(p, h)
    requires Written(p, p', bytes, grown) && InPlace(p.unsent, p.sndLbb, grown) && Fitting(p.unsent, grown, p.mss)
    ensures Covered(p', h.(stream := h.stream + bytes))
  {
    forall x ensures Cover(p', x) == Cover(p, x) + if p.sndLbb <= x < p.sndLbb + |bytes| then 1 else 0
    {
      WriteCount(p.unsent, p'.unsent, p.sndLbb, bytes, grown, p.mss, x);
    }
    forall x | x >= p.sndLbb ensures Cover(p, x) == 0 {
      CountAbove(p.unacked, h, false, p.mss, x);
      CountAbove(p.unsent, h, false, p.mss, x);
    }
  }

  /** The size rule tcp_write relies on always holds while it may be called. */
  lemma {:induction false} InvTailFits(p: Pcb, h: Log)
    requires Ordered(p, h) && Queued(p, h) && RoomOk(p) && p.state != Closed
    ensures TailFits(p)
  {
    GenuineAt(p.unsent, h, false, p.mss);
  }

  lemma {:induction false} InvFitting(p: Pcb, p': Pcb, h: Log, bytes: seq<byte>, grown: nat)
    requires Ordered(p, h) && Queued(p, h) && RoomOk(p) && Written(p, p', bytes, grown)
    ensures grown == Min(Room(p.unsent, p.mss), |bytes|) && Fitting(p.unsent, grown, p.mss) && TailFits(p')
  {
    InvTailFits(p, h);
    GrownIsRoom(p, |bytes|);
  }

  /** It keeps everything only then: bytes put behind a segment that does not end at snd_lbb are
      sent with sequence numbers that are not theirs. */
  lemma {:induction false} WriteKeepsExactly(p: Pcb, p': Pcb, h: Log, bytes: seq<byte>, grown: nat)
    requires Inv(p, h) && Written(p, p', bytes, grown)
    ensures Inv(p', h.(stream := h.stream + bytes)) <==> WellPlaced(p, |bytes|)
  {
    if WellPlaced(p, |bytes|) {
      WriteKeeps(p, p', h, bytes, grown);
    } else {
      MisplacedHole(p, p', h, bytes, grown);
    }
  }

  lemma {:induction false} MisplacedHole(p: Pcb, p': Pcb, h: Log, bytes: seq<byte>, grown: nat)
    requires Inv(p, h) && Written(p, p', bytes, grown) && !WellPlaced(p, |bytes|)
    ensures var x := p.sndLbb + grown - 1;
      p'.lastack <= x < Top(p', h.(stream := h.stream + bytes)) && Cover(p', x) == 0
  {
    InvFitting(p, p', h, bytes, grown);
    var x := p.sndLbb + grown - 1;
    CountAbove(p.unacked, h, false, p.mss, x);
    HoleLeft(p.unsent, p'.unsent, p.sndLbb, bytes, grown, h, p.mss);
  }

  lemma {:induction false} HoleLeft(u: seq<Segment>, u': seq<Segment>, o: int, bytes: seq<byte>, grown: nat, h: Log, mss: nat)
    requires Appended(u, u', o, bytes, grown, mss) && Fitting(u, grown, mss) && grown > 0 && u != [] && End(Last(u)) != o
    requires AllGenuine(u, h, false, mss) && o == h.first + |h.stream|
    ensures Count(u', o + grown - 1) == 0
  {
    var x := o + grown - 1;
    var a, t, q := Pieces(u, u', o, bytes, grown, mss);
    var s := Last(u);
    GenuineAt(u, h, false, mss);
    EndsBelow(s, h, false, mss);
    CountAbove(u, h, false, mss, x);
    CountConcat(a, [s], x);
    CountConcat(a + t, q, x);
    CountConcat(a, t, x);
    assert t[1..] == [] && TcpLen(t[0]) == TcpLen(s) + grown;
    TilesEnd(q, o + grown, bytes[grown..], mss);
  }

  // --------------------------------------------------------------- SYN and FIN

  /** The fields tcp_alloc and tcp_connect, or the listener, give a new connection. */
  predicate Fresh(p: Pcb, h: Log) {
    && p.unsent == [] && p.unacked == [] && p.oversize == 0 && p.sndQueuelen == 0 && 0 < p.mss <= TCP_MSS
    && p.sndLbb == p.lastack == h.first - 1 && h.first - 1 <= p.sndNxt <= h.first && p.sndBuf == TCP_SND_BUF
    && p.state != Closed && h.stream == [] && !h.hung
  }

  predicate SynFirst(p: Pcb) {
    p.state == SynSent ==>
      if p.unacked != [] then p.unacked[0].syn else p.unsent != [] && p.unsent[0].syn
  }

  /** A connection starts with its SYN queued. */
  lemma {:induction false} StartHolds(p: Pcb, p': Pcb, h: Log)
    requires Fresh(p, h) && Enqueued(p, p', true, false)
    ensures Inv(p', h) && Tail(p') && SynFirst(p')
  {
    var s := p'.unsent[0];
    assert p'.unsent[1..] == [] && Pbufs(p'.unsent[1..]) == 0;
    forall x ensures Cover(p', x) == if x == h.first - 1 then 1 else 0 {
      assert Count(p'.unsent[1..], x) == 0;
    }
  }

  /** Queueing a FIN of its own keeps everything. */
  lemma {:induction false} FinKeeps(p: Pcb, p': Pcb, h: Log)
    requires Inv(p, h) && p.state == Open && Enqueued(p.(state := Closed), p', false, true)
    ensures Inv(p', h)
  {
    var s := Last(p'.unsent);
    assert [s][1..] == [];
    GenuineCloses(p.unacked, h, false, p.mss);
    GenuineCloses(p.unsent, h, false, p.mss);
    GenuineConcat(p.unsent, [s], h, true, p.mss);
    EndsAtMost(p.unsent, h, false, p.mss);
    NearConcat(p.unsent, [s], p.sndNxt, p.sndLbb);
    PbufsConcat(p.unsent, [s]);
    assert Pbufs([s]) == 1 + Pbufs([s][1..]);
    forall x ensures Cover(p', x) == Cover(p, x) + if x == p.sndLbb then 1 else 0 {
      CountConcat(p.unsent, [s], x);
    }
    CountAbove(p.unacked, h, false, p.mss, p.sndLbb);
    CountAbove(p.unsent, h, false, p.mss, p.sndLbb);
  }

  /** Setting the FIN on the last unsent segment keeps everything exactly when that segment ends
      at snd_lbb. */
  lemma {:induction false} FinHungKeepsExactly(p: Pcb, p': Pcb, h: Log)
    requires Inv(p, h) && p.state == Open && FinHung(p.(state := Closed), p')
    ensures Inv(p', h.(hung := true)) <==> Tail(p)
  {
    if Tail(p) {
      FinHungKeeps(p, p', h);
    } else if Inv(p', h.(hung := true)) {
      GenuineAt(p'.unsent, h.(hung := true), true, p.mss);
    }
  }

  lemma {:induction false} FinHungKeeps(p: Pcb, p': Pcb, h: Log)
    requires Inv(p, h) && p.state == Open && FinHung(p.(state := Closed), p') && Tail(p)
    ensures Inv(p', h.(hung := true))
  {
    var n := |p.unsent| - 1;
    var a, s := p.unsent[..n], Last(p.unsent);
    SplitLast(p.unsent);
    FinHungQueue(a, s, s.(fin := true), h, p.mss, p.sndNxt);
    GenuineCloses(p.unacked, h, true, p.mss);
    CountAbove(p.unacked, h, false, p.mss, p.sndLbb);
    CountAbove(p.unsent, h, false, p.mss, p.sndLbb);
    assert forall x :: Cover(p', x) == Cover(p, x) + if x == p.sndLbb then 1 else 0;
  }

  lemma {:induction false} FinHungQueue(a: seq<Segment>, s: Segment, t: Segment, h: Log, mss: nat, m: int)
    requires AllGenuine(a + [s], h, false, mss) && Near(a + [s], m) && mss <= TCP_MSS
    requires !s.syn && !s.fin && t == s.(fin := true) && End(s) == h.first + |h.stream|
    ensures AllGenuine(a + [t], h.(hung := true), true, mss) && Near(a + [t], m)
    ensures Pbufs(a + [t]) == Pbufs(a + [s])
    ensures forall x :: Count(a + [t], x) == Count(a + [s], x) + if x == End(s) then 1 else 0
  {
    assert [t][1..] == [] && [s][1..] == [];
    GenuineConcat(a, [s], h, false, mss);
    GenuineCloses(a, h, true, mss);
    GenuineConcat(a, [t], h.(hung := true), true, mss);
    NearLastFree(a, s, t, m);
    PbufsConcat(a, [s]);
    PbufsConcat(a, [t]);
    forall x ensures Count(a + [t], x) == Count(a + [s], x) + if x == End(s) then 1 else 0 {
      CountConcat(a, [s], x);
      CountConcat(a, [t], x);
    }
  }

  // --------------------------------------------------------------- tcp_output

  lemma {:induction false} InsertCounts(q: seq<Segment>, s: Segment, x: int)
    ensures Count(InsertSorted(q, s), x) == Count(q, x) + Count([s], x)
    ensures Pbufs(InsertSorted(q, s)) == Pbufs(q) + s.pbufs
  {
    assert [s][1..] == [];
    if q == [] || !SeqLt(q[0].seqno, s.seqno) {
      assert ([s] + q)[1..] == q;
    } else {
      assert InsertSorted(q, s)[1..] == InsertSorted(q[1..], s);
      InsertCounts(q[1..], s, x);
    }
  }

  lemma {:induction false} InsertGenuine(q: seq<Segment>, s: Segment, h: Log, closed: bool, mss: nat)
    requires AllGenuine(q, h, closed, mss) && Genuine(s, h, closed, mss)
    ensures AllGenuine(InsertSorted(q, s), h, closed, mss)
  {
    if q == [] || !SeqLt(q[0].seqno, s.seqno) {
      assert ([s] + q)[1..] == q;
    } else {
      assert InsertSorted(q, s)[1..] == InsertSorted(q[1..], s);
      InsertGenuine(q[1..], s, h, closed, mss);
    }
  }

  /** Sorted insertion of a segment that overlaps none. */
  lemma {:induction false} InsertKeepsOrder(q: seq<Segment>, s: Segment, lo: int, hi: int, hi': int)
    requires Sorted(q, lo, hi) && lo <= s.seqno && TcpLen(s) > 0 && End(s) <= hi' && hi <= hi' < lo + 0x4000_0000
    requires forall x :: Count(q, x) + Count([s], x) <= 1
    ensures Sorted(InsertSorted(q, s), lo, hi')
    decreases q
  {
    assert [s][1..] == [];
    SortedEnds(q, lo, hi);
    assert Count(q, s.seqno) + Count([s], s.seqno) <= 1;
    if q == [] || !SeqLt(q[0].seqno, s.seqno) {
      assert ([s] + q)[1..] == q;
      if q != [] {
        assert Count(q, q[0].seqno) + Count([s], q[0].seqno) <= 1;
        SortedHigher(q, lo, End(s), hi, hi');
      }
    } else {
      assert InsertSorted(q, s)[1..] == InsertSorted(q[1..], s);
      forall x ensures Count(q[1..], x) + Count([s], x) <= 1 {
        assert Count(q, x) + Count([s], x) <= 1;
      }
      InsertKeepsOrder(q[1..], s, End(q[0]), hi, hi');
    }
  }

  lemma {:induction false} SortedEnds(q: seq<Segment>, lo: int, hi: int)
    requires Sorted(q, lo, hi)
    ensures lo <= hi
    ensures forall i | 0 <= i < |q| :: lo <= q[i].seqno < End(q[i]) <= hi
    decreases q
  {
    if q != [] {
      SortedEnds(q[1..], End(q[0]), hi);
      forall i | 0 <= i < |q| ensures lo <= q[i].seqno < End(q[i]) <= hi {
        if i > 0 {
          assert q[i] == q[1..][i - 1];
        }
      }
    }
  }

  lemma {:induction false} SortedHigher(q: seq<Segment>, lo: int, lo': int, hi: int, hi': int)
    requires Sorted(q, lo, hi) && hi <= hi' && (if q == [] then lo' <= hi' else lo' <= q[0].seqno)
    ensures Sorted(q, lo', hi')
    decreases q
  {
    if q != [] {
      SortedEnds(q[1..], End(q[0]), hi);
      SortedHigher(q[1..], End(q[0]), End(q[0]), hi, hi');
    }
  }

  lemma {:induction false} AppendKeepsOrder(q: seq<Segment>, s: Segment, lo: int, hi: int, hi': int)
    requires Sorted(q, lo, hi) && lo <= s.seqno && TcpLen(s) > 0 && End(s) <= hi' && hi <= hi'
    requires q != [] ==> Last(q).seqno <= s.seqno
    requires forall x :: Count(q, x) + Count([s], x) <= 1
    ensures Sorted(q + [s], lo, hi')
    decreases q
  {
    assert [s][1..] == [];
    if q != [] {
      assert (q + [s])[1..] == q[1..] + [s];
      SortedEnds(q, lo, hi);
      if |q| > 1 {
        SortedEnds(q[1..], End(q[0]), hi);
        assert Last(q) == q[1..][|q| - 2];
      }
      assert Count(q, s.seqno) + Count([s], s.seqno) <= 1;
      forall x ensures Count(q[1..], x) + Count([s], x) <= 1 {
        assert Count(q, x) + Count([s], x) <= 1;
      }
      AppendKeepsOrder(q[1..], s, End(q[0]), hi, hi');
    }
  }

  /** Where tcp_output puts a segment it has sent, the unacknowledged queue stays in order. */
  lemma {:induction false} PlaceHolds(q: seq<Segment>, s: Segment, lo: int, hi: int, hi': int)
    requires Sorted(q, lo, hi) && lo <= s.seqno && TcpLen(s) > 0 && End(s) <= hi' && hi <= hi' < lo + 0x4000_0000
    requires forall x :: Count(q, x) + Count([s], x) <= 1
    ensures Sorted(Place(q, s), lo, hi')
    ensures forall x :: Count(Place(q, s), x) == Count(q, x) + Count([s], x)
    ensures Pbufs(Place(q, s)) == Pbufs(q) + s.pbufs
    ensures Place(q, s) != [] && (Place(q, s)[0] == s || (q != [] && Place(q, s)[0] == q[0]))
    ensures q != [] && q[0].seqno < s.seqno ==> Place(q, s)[0] == q[0]
  {
    SortedEnds(q, lo, hi);
    if q != [] && SeqLt(s.seqno, Last(q).seqno) {
      InsertKeepsOrder(q, s, lo, hi, hi');
    } else {
      AppendKeepsOrder(q, s, lo, hi, hi');
    }
    forall x ensures Count(Place(q, s), x) == Count(q, x) + Count([s], x) {
      InsertCounts(q, s, x);
      CountConcat(q, [s], x);
    }
    InsertCounts(q, s, 0);
    PbufsConcat(q, [s]);
    assert Pbufs([s]) == s.pbufs + Pbufs([s][1..]);
  }

  lemma {:induction false} PlaceGenuine(q: seq<Segment>, s: Segment, h: Log, closed: bool, mss: nat)
    requires AllGenuine(q, h, closed, mss) && Genuine(s, h, closed, mss)
    ensures AllGenuine(Place(q, s), h, closed, mss)
  {
    InsertGenuine(q, s, h, closed, mss);
    assert [s][1..] == [];
    GenuineConcat(q, [s], h, closed, mss);
  }

  /** What is known of the first unsent segment when tcp_output finds it inside the window. */
  lemma {:induction false} HeadBounds(p: Pcb, h: Log, wnd: nat)
    requires Ordered(p, h) && Queued(p, h) && p.unsent != [] && InWindow(p, p.unsent[0], wnd) && wnd <= 0xFFFF
    ensures var s := p.unsent[0];
      && Genuine(s, h, p.state == Closed, p.mss)
      && p.lastack <= s.seqno + |s.data| && p.lastack <= End(s) <= Top(p, h)
      && s.seqno >= p.lastack - p.mss
      && (SeqLt(p.sndNxt, End(s)) <==> p.sndNxt < End(s))
  {
    EndsBelow(p.unsent[0], h, p.state == Closed, p.mss);
  }

  /** Sending one segment inside the window keeps everything. */
  lemma {:induction false} TransmitKeeps(p: Pcb, h: Log, wnd: nat)
    requires Inv(p, h) && p.unsent != [] && InWindow(p, p.unsent[0], wnd) && wnd <= 0xFFFF
    ensures var q := Transmit(p);
      && Ordered(q, h) && Queued(q, h) && Covered(q, h)
      && (Tail(p) ==> Tail(q)) && (SynFirst(p) ==> SynFirst(q))
      && (q.unsent != [] ==> RoomOk(q))
  {
    var q := Transmit(p);
    HeadBounds(p, h, wnd);
    TransmitQueued(p, h, wnd);
    assert forall x :: Cover(q, x) == Cover(p, x);
    SynStays(p, h, wnd);
    if q.unsent != [] {
      assert Last(q.unsent) == Last(p.unsent);
      if p.state != Closed && p.oversize > 0 {
        RoomStays(p, h);
      }
    }
  }

  lemma {:induction false} TransmitQueued(p: Pcb, h: Log, wnd: nat)
    requires Ordered(p, h) && Queued(p, h) && p.unsent != [] && InWindow(p, p.unsent[0], wnd) && wnd <= 0xFFFF
    requires forall x :: Cover(p, x) <= 1
    ensures Queued(Transmit(p), h)
    ensures forall x :: Cover(Transmit(p), x) == Cover(p, x)
  {
    var s, q := p.unsent[0], Transmit(p);
    HeadBounds(p, h, wnd);
    HeadCount(p);
    PlaceHolds(p.unacked, s, p.lastack - p.mss - 1, p.sndNxt, q.sndNxt);
    PlaceGenuine(p.unacked, s, h, p.state == Closed, p.mss);
  }

  lemma {:induction false} HeadCount(p: Pcb)
    requires p.unsent != [] && forall x :: Cover(p, x) <= 1
    ensures forall x :: Count(p.unsent, x) == Count([p.unsent[0]], x) + Count(p.unsent[1..], x)
    ensures forall x :: Count(p.unacked, x) + Count([p.unsent[0]], x) <= 1
  {
    var s := p.unsent[0];
    assert [s] + p.unsent[1..] == p.unsent;
    forall x ensures Count(p.unsent, x) == Count([s], x) + Count(p.unsent[1..], x) {
      CountConcat([s], p.unsent[1..], x);
    }
    forall x ensures Count(p.unacked, x) + Count([s], x) <= 1 {
      assert Cover(p, x) <= 1;
    }
  }

  lemma {:induction false} SynStays(p: Pcb, h: Log, wnd: nat)
    requires Ordered(p, h) && Queued(p, h) && p.unsent != [] && InWindow(p, p.unsent[0], wnd) && wnd <= 0xFFFF
    requires forall x :: Cover(p, x) <= 1
    ensures SynFirst(p) ==> SynFirst(Transmit(p))
  {
    var s := p.unsent[0];
    HeadBounds(p, h, wnd);
    if p.state == SynSent && p.unacked != [] && p.unacked[0].syn {
      var y := p.unacked[0].seqno;
      assert Count(p.unacked, y) >= 1 && Cover(p, y) <= 1;
      assert s.seqno != y;
      HeadCount(p);
      PlaceHolds(p.unacked, s, p.lastack - p.mss - 1, p.sndNxt, Transmit(p).sndNxt);
    }
  }

  /** Only the last unsent segment reaches snd_lbb, if it does. */
  lemma {:induction false} RoomStays(p: Pcb, h: Log)
    requires Inv(p, h) && |p.unsent| > 1 && p.state != Closed && p.oversize > 0
    ensures var q := Transmit(p); q.sndNxt < End(Last(q.unsent))
  {
    var s, x := p.unsent[0], p.sndLbb - 1;
    assert Cover(p, x) <= 1;
    SplitLast(p.unsent);
    var a := p.unsent[..|p.unsent| - 1];
    assert a[0] == s;
    GenuineAt(p.unsent, h, false, p.mss);
    EndsBelow(s, h, false, p.mss);
    assert Count([Last(p.unsent)], x) >= 1;
    assert Count(a, x) == 0;
    if SeqLt(p.sndNxt, End(s)) {
      assert End(s) < p.sndLbb;
    }
  }

  ghost predicate InvSending(p: Pcb, h: Log) {
    Ordered(p, h) && Queued(p, h) && Covered(p, h) && (p.unsent != [] ==> RoomOk(p))
  }

  lemma {:induction false} SendsKeep(p: Pcb, q: Pcb, k: nat, wnd: nat, inFr: bool, h: Log)
    requires InvSending(p, h) && Sends(p, q, k, wnd, inFr) && wnd <= 0xFFFF
    ensures InvSending(q, h) && (Tail(p) ==> Tail(q)) && (SynFirst(p) ==> SynFirst(q))
    decreases k
  {
    if k > 0 {
      TransmitKeeps(p, h, wnd);
      SendsKeep(Transmit(p), q, k - 1, wnd, inFr, h);
    }
  }

  /** tcp_output keeps everything, and the tail. */
  lemma {:induction false} OutputKeeps(p: Pcb, p': Pcb, k: nat, wnd: nat, inFr: bool, h: Log)
    requires Inv(p, h) && wnd <= 0xFFFF && Flushed(p, p', k, wnd, inFr)
    ensures Inv(p', h) && (Tail(p) ==> Tail(p')) && (SynFirst(p) ==> SynFirst(p'))
  {
    var q :| Sends(p, q, k, wnd, inFr) && p' == q.(oversize := if q.unsent == [] then 0 else q.oversize, nagleMemErr := false);
    SendsKeep(p, q, k, wnd, inFr, h);
    assert forall x :: Cover(p', x) == Cover(q, x);
  }

  /** Nothing overrules Nagle's rule. */
  predicate Nagling(p: Pcb, inFr: bool) {
    !p.nodelay && !inFr && !p.nagleMemErr && !p.finFlag
  }

  predicate SameRules(p: Pcb, q: Pcb) {
    q.lastack == p.lastack && q.mss == p.mss && q.nodelay == p.nodelay && q.nagleMemErr == p.nagleMemErr && q.finFlag == p.finFlag
  }

  /** The first k unsent segments have been sent: all inside the window, and a last short one alone
      only if nothing was outstanding, or nagling was overruled. */
  ghost predicate SentFirst(p: Pcb, q: Pcb, k: nat, wnd: nat, inFr: bool) {
    && k <= |p.unsent| && q.unsent == p.unsent[k..] && SameRules(p, q)
    && (forall i | 0 <= i < k :: 0 <= p.unsent[i].seqno + |p.unsent[i].data| - p.lastack <= wnd)
    && (q.sndNxt == p.sndNxt || exists i | 0 <= i < k :: q.sndNxt == End(p.unsent[i]))
    && (k > 0 ==> q.unacked != [])
    && (k > 0 && k == |p.unsent| && Nagling(p, inFr) && |p.unsent[k - 1].data| < p.mss ==> p.unacked == [] && k == 1)
  }

  lemma {:induction false} SentMore(p: Pcb, t: Pcb, q: Pcb, k: nat, wnd: nat, inFr: bool, k': nat)
    requires p.unsent != [] && t.unsent == p.unsent[1..] && t.unacked != [] && SameRules(p, t)
    requires 0 <= p.unsent[0].seqno + |p.unsent[0].data| - p.lastack <= wnd
    requires t.sndNxt == p.sndNxt || t.sndNxt == End(p.unsent[0])
    requires MaySend(p, inFr) && SentFirst(t, q, k, wnd, inFr) && (k == 0 ==> q == t)
    requires k' == k + 1
    ensures SentFirst(p, q, k', wnd, inFr)
  {
    assert q.unsent == p.unsent[k + 1..];
    forall i | 0 < i < k + 1 ensures 0 <= p.unsent[i].seqno + |p.unsent[i].data| - p.lastack <= wnd {
      assert p.unsent[i] == t.unsent[i - 1];
    }
    if q.sndNxt != p.sndNxt && q.sndNxt != End(p.unsent[0]) {
      var i :| 0 <= i < k && q.sndNxt == End(t.unsent[i]);
      assert t.unsent[i] == p.unsent[i + 1];
    }
    if k > 0 && k + 1 == |p.unsent| {
      assert p.unsent[k] == t.unsent[k - 1];
    }
  }

  lemma {:induction false} SendsFirst(p: Pcb, q: Pcb, k: nat, wnd: nat, inFr: bool, h: Log)
    requires InvSending(p, h) && Sends(p, q, k, wnd, inFr) && wnd <= 0xFFFF
    ensures SentFirst(p, q, k, wnd, inFr)
    decreases k
  {
    if k > 0 {
      var t, l := Transmit(p), k - 1;
      TransmitKeeps(p, h, wnd);
      SendsFirst(t, q, l, wnd, inFr, h);
      HeadSent(p, wnd, h);
      SentMore(p, t, q, l, wnd, inFr, k);
    }
  }

  lemma {:induction false} HeadSent(p: Pcb, wnd: nat, h: Log)
    requires Ordered(p, h) && Queued(p, h) && p.unsent != [] && InWindow(p, p.unsent[0], wnd) && wnd <= 0xFFFF
    ensures var t, s := Transmit(p), p.unsent[0];
      && t.unsent == p.unsent[1..] && t.unacked != [] && SameRules(p, t)
      && 0 <= s.seqno + |s.data| - p.lastack <= wnd
      && (t.sndNxt == p.sndNxt || t.sndNxt == End(s))
  {
    HeadBounds(p, h, wnd);
    PlaceSome(p.unacked, p.unsent[0]);
  }

  lemma {:induction false} PlaceSome(q: seq<Segment>, s: Segment)
    ensures Place(q, s) != []
  {
  }

  /** tcp_output sends from the head of the unsent queue whatever lies in the window and is not held
      back. It stops at a segment that ends outside the window, or at a single short one while data is
      outstanding and nothing overrules Nagle's rule. */
  lemma {:induction false} OutputExact(p: Pcb, p': Pcb, k: nat, wnd: nat, inFr: bool, h: Log) returns (q: Pcb)
    requires Inv(p, h) && wnd <= 0xFFFF && Flushed(p, p', k, wnd, inFr)
    ensures SentFirst(p, q, k, wnd, inFr) && p'.unsent == p.unsent[k..] && p'.unacked == q.unacked && p'.sndNxt == q.sndNxt
    ensures k < |p.unsent| ==>
      var s := p.unsent[k];
      || !(0 <= s.seqno + |s.data| - p.lastack <= wnd)
      || (p'.unacked != [] && Nagling(p, inFr) && k + 1 == |p.unsent| && |s.data| < p.mss)
  {
    q :| Sends(p, q, k, wnd, inFr)
      && (q.unsent == [] || !InWindow(q, q.unsent[0], wnd) || !MaySend(q, inFr))
      && p' == q.(oversize := if q.unsent == [] then 0 else q.oversize, nagleMemErr := false);
    SendsFirst(p, q, k, wnd, inFr, h);
    if k < |p.unsent| {
      assert q.unsent[0] == p.unsent[k];
      WindowMeans(q, p.unsent[k], wnd, h, p);
    }
  }

  lemma {:induction false} WindowMeans(q: Pcb, s: Segment, wnd: nat, h: Log, p: Pcb)
    requires Inv(p, h) && q.lastack == p.lastack && s in p.unsent && wnd <= 0xFFFF
    ensures InWindow(q, s, wnd) <==> 0 <= s.seqno + |s.data| - p.lastack <= wnd
  {
    GenuineAt(p.unsent, h, p.state == Closed, p.mss);
    EndsBelow(s, h, p.state == Closed, p.mss);
    NearAt(p.unsent, p.sndNxt, s);
  }

  lemma {:induction false} NearAt(q: seq<Segment>, m: int, s: Segment)
    requires Near(q, m) && s in q
    ensures m - s.seqno <= SPAN
    decreases q
  {
    if s != q[0] {
      NearAt(q[1..], if m < End(q[0]) then End(q[0]) else m, s);
    }
  }

  // ------------------------------------------------------------ retransmission

  lemma {:induction false} InsertNear(q: seq<Segment>, s: Segment, m: int, top: int, h: Log, closed: bool, mss: nat)
    requires AllGenuine(q, h, closed, mss) && mss <= TCP_MSS && Near(q, m) && top == h.first + |h.stream| + (if closed then 1 else 0)
    requires m - s.seqno <= SPAN && End(s) <= m <= top && top - s.seqno < 0x1000_0000
    ensures Near(InsertSorted(q, s), m)
    decreases q
  {
    if q == [] || !SeqLt(q[0].seqno, s.seqno) {
      assert ([s] + q)[1..] == q;
    } else {
      EndsBelow(q[0], h, closed, mss);
      assert InsertSorted(q, s)[1..] == InsertSorted(q[1..], s);
      InsertNear(q[1..], s, if m < End(q[0]) then End(q[0]) else m, top, h, closed, mss);
    }
  }

  /** A segment in front of the last one's sequence number stays in front of it. */
  lemma {:induction false} InsertBeforeLast(q: seq<Segment>, s: Segment, m: int)
    requires Near(q, m) && q != [] && s.seqno < Last(q).seqno < s.seqno + 0x1000_0000
    ensures InsertSorted(q, s) != [] && Last(InsertSorted(q, s)) == Last(q)
    decreases q
  {
    if !SeqLt(q[0].seqno, s.seqno) {
      assert Last([s] + q) == Last(q);
    } else {
      assert |q| > 1;
      assert Last(q) == Last(q[1..]);
      InsertBeforeLast(q[1..], s, if m < End(q[0]) then End(q[0]) else m);
      assert Last([q[0]] + InsertSorted(q[1..], s)) == Last(InsertSorted(q[1..], s));
    }
  }

  lemma {:induction false} CountMember(q: seq<Segment>, i: nat, x: int)
    requires i < |q| && q[i].seqno <= x < End(q[i])
    ensures Count(q, x) >= 1
  {
    if i > 0 {
      CountMember(q[1..], i - 1, x);
    }
  }

  /** Of two queued segments the one that reaches further starts further. */
  lemma {:induction false} LastIsLater(p: Pcb, h: Log)
    requires Ordered(p, h) && Queued(p, h) && (forall x :: Cover(p, x) <= 1) && p.unacked != [] && p.unsent != []
    requires End(p.unacked[0]) <= End(Last(p.unsent))
    ensures p.unacked[0].seqno < Last(p.unsent).seqno
  {
    var x := p.unacked[0].seqno;
    assert Cover(p, x) <= 1;
    if x >= Last(p.unsent).seqno {
      CountMember(p.unacked, 0, x);
      CountMember(p.unsent, |p.unsent| - 1, x);
      assert false;
    }
  }

  /** tcp_rexmit keeps everything. */
  lemma {:induction false} RexmitKeeps(p: Pcb, h: Log)
    requires Inv(p, h)
    ensures Inv(Rexmitted(p), h)
  {
    if p.unacked != [] {
      var u, q := p.unacked[0], Rexmitted(p);
      RexmitQueued(p, h);
      forall x ensures Cover(q, x) == Cover(p, x) {
        InsertCounts(p.unsent, u, x);
        assert [u][1..] == [];
      }
      if p.state != Closed && p.oversize > 0 {
        RexmitRoom(p, h);
      }
    }
  }

  lemma {:induction false} RexmitQueued(p: Pcb, h: Log)
    requires Ordered(p, h) && Queued(p, h) && p.unacked != []
    ensures Queued(Rexmitted(p), h)
  {
    var u := p.unacked[0];
    SortedEnds(p.unacked, p.lastack - p.mss - 1, p.sndNxt);
    InsertGenuine(p.unsent, u, h, p.state == Closed, p.mss);
    InsertNear(p.unsent, u, p.sndNxt, Top(p, h), h, p.state == Closed, p.mss);
    InsertCounts(p.unsent, u, 0);
    RestSorted(p.unacked, p.lastack, p.mss, p.sndNxt);
  }

  lemma {:induction false} RexmitRoom(p: Pcb, h: Log)
    requires Inv(p, h) && p.unacked != [] && p.state != Closed && p.oversize > 0
    ensures RoomOk(Rexmitted(p))
  {
    SortedEnds(p.unacked, p.lastack - p.mss - 1, p.sndNxt);
    LastIsLater(p, h);
    GenuineAt(p.unsent, h, false, p.mss);
    InsertBeforeLast(p.unsent, p.unacked[0], p.sndNxt);
  }

  lemma {:induction false} RestSorted(q: seq<Segment>, lastack: int, mss: nat, hi: int)
    requires q != [] && Sorted(q, lastack - mss - 1, hi) && End(q[0]) >= lastack
    ensures Sorted(q[1..], lastack - mss - 1, hi)
    ensures q[1..] != [] ==> End(q[1..][0]) >= lastack
  {
    SortedEnds(q, lastack - mss - 1, hi);
    SortedHigher(q[1..], End(q[0]), lastack - mss - 1, hi, hi);
  }

  /** tcp_rexmit loses the tail exactly when it puts a segment that others follow on an empty
      unsent queue. */
  lemma {:induction false} RexmitTail(p: Pcb, h: Log)
    requires Inv(p, h) && Tail(p) && p.state != Closed
    ensures Tail(Rexmitted(p)) <==> p.unsent != [] || |p.unacked| <= 1
  {
    if p.unacked != [] {
      var u := p.unacked[0];
      SortedEnds(p.unacked, p.lastack - p.mss - 1, p.sndNxt);
      if p.unsent != [] {
        LastIsLater(p, h);
        GenuineAt(p.unsent, h, false, p.mss);
        InsertBeforeLast(p.unsent, u, p.sndNxt);
      } else if |p.unacked| > 1 {
        SortedEnds(p.unacked[1..], End(u), p.sndNxt);
        assert p.unacked[1] == p.unacked[1..][0];
        assert End(u) <= p.unacked[1].seqno < Top(p, h);
        assert Last(Rexmitted(p).unsent) == u;
      } else {
        assert Last(p.unacked) == u;
        LastSent(p, h);
      }
    }
  }

  /** With nothing unsent, the last unacknowledged segment reaches the top. */
  lemma {:induction false} LastSent(p: Pcb, h: Log)
    requires Inv(p, h) && p.unsent == [] && p.unacked != []
    ensures End(Last(p.unacked)) == Top(p, h)
  {
    var x := Top(p, h) - 1;
    GenuineAt(p.unacked, h, p.state == Closed, p.mss);
    EndsBelow(Last(p.unacked), h, p.state == Closed, p.mss);
    SortedEnds(p.unacked, p.lastack - p.mss - 1, p.sndNxt);
    SortedLast(p.unacked, p.lastack - p.mss - 1, p.sndNxt, x);
    if p.lastack <= x {
      assert Cover(p, x) == 1;
    }
  }

  lemma {:induction false} SortedLast(q: seq<Segment>, lo: int, hi: int, x: int)
    requires Sorted(q, lo, hi) && q != []
    ensures End(Last(q)) >= End(q[0])
    ensures x >= End(Last(q)) ==> Count(q, x) == 0
    decreases q
  {
    if |q| > 1 {
      assert Last(q) == Last(q[1..]);
      SortedLast(q[1..], End(q[0]), hi, x);
    } else {
      assert q[1..] == [];
    }
  }

  /** tcp_rexmit_rto keeps everything, and the tail. */
  lemma {:induction false} RexmitAllKeeps(p: Pcb, h: Log)
    requires Inv(p, h)
    ensures Inv(RexmittedAll(p), h) && (SynFirst(p) ==> SynFirst(RexmittedAll(p)))
    ensures Tail(p) && p.state != Closed ==> Tail(RexmittedAll(p))
  {
    if p.unacked != [] {
      var q := RexmittedAll(p);
      GenuineConcat(p.unacked, p.unsent, h, p.state == Closed, p.mss);
      PbufsConcat(p.unacked, p.unsent);
      SortedEnds(p.unacked, p.lastack - p.mss - 1, p.sndNxt);
      SortedNear(p.unacked, p.lastack - p.mss - 1, p.sndNxt, p.sndNxt);
      NearConcat(p.unacked, p.unsent, p.sndNxt, p.sndNxt);
      forall x ensures Cover(q, x) == Cover(p, x) {
        CountConcat(p.unacked, p.unsent, x);
      }
      if p.unsent == [] {
        assert Last(q.unsent) == Last(p.unacked);
        LastSent(p, h);
      } else {
        assert Last(q.unsent) == Last(p.unsent);
      }
    }
  }

  lemma {:induction false} SortedNear(q: seq<Segment>, lo: int, hi: int, m: int)
    requires Sorted(q, lo, hi) && hi <= m && m - lo <= SPAN
    ensures Near(q, m)
    decreases q
  {
    if q != [] {
      SortedEnds(q, lo, hi);
      SortedNear(q[1..], End(q[0]), hi, m);
    }
  }

  // ----------------------------------------------------------- acknowledgement

  /** A 32-bit acknowledgement number, as the integer nearest to lastack that it stands for. */
  predicate Nearest(p: Pcb, ackno: int) {
    -0x8000_0000 <= ackno - p.lastack < 0x8000_0000
  }

  /** The acknowledgement lies half the sequence space behind a first unsent segment that was
      never sent in full, where the signed differences no longer tell old from new. */
  predicate Misjudged(p: Pcb, ackno: int) {
    p.unsent != [] && p.sndNxt - 0x8000_0000 <= ackno < End(p.unsent[0]) - 0x8000_0000
  }

  /** What is removed at the head of the unacknowledged queue ends at or below ackno. */
  lemma {:induction false} AckedOnly(q: seq<Segment>, lo: int, hi: int, ackno: int, mss: nat, h: Log, closed: bool)
    requires Sorted(q, lo, hi) && lo <= ackno <= hi < lo + 0x4000_0000 && AllGenuine(q, h, closed, mss)
    ensures var k := AckedPrefix(q, ackno);
      && Sorted(q[k..], if ackno - mss - 1 < lo then lo else ackno - mss - 1, hi)
      && (q[k..] != [] ==> End(q[k..][0]) > ackno)
      && AllGenuine(q[k..], h, closed, mss)
      && Pbufs(q) == Pbufs(q[..k]) + Pbufs(q[k..])
    ensures forall x ::
      var r := Count(q[AckedPrefix(q, ackno)..], x);
      r <= Count(q, x) && (x >= ackno ==> r == Count(q, x))
    decreases q
  {
    var k := AckedPrefix(q, ackno);
    assert q == q[..k] + q[k..];
    PbufsConcat(q[..k], q[k..]);
    if q != [] {
      SortedEnds(q, lo, hi);
      if k > 0 {
        assert q[k..] == q[1..][k - 1..];
        AckedOnly(q[1..], End(q[0]), hi, ackno, mss, h, closed);
        SortedHigher(q[k..], if ackno - mss - 1 < End(q[0]) then End(q[0]) else ackno - mss - 1,
                     if ackno - mss - 1 < lo then lo else ackno - mss - 1, hi, hi);
      } else {
        assert q[k..] == q;
        EndsBelow(q[0], h, closed, mss);
        SortedHigher(q, lo, if ackno - mss - 1 < lo then lo else ackno - mss - 1, hi, hi);
      }
    }
  }

  lemma {:induction false} NewDataIs(p: Pcb, h: Log, ackno: int)
    requires Ordered(p, h) && Nearest(p, ackno)
    ensures NewData(p, ackno) <==> p.lastack < ackno <= p.sndNxt
    ensures NewData(p, ackno) ==> U16(ackno - p.lastack) == ackno - p.lastack
  {
  }

  /** Moving lastack and freeing what it covers keeps everything. */
  lemma {:induction false} AdvancedKeeps(p: Pcb, h: Log, ackno: int)
    requires Inv(p, h) && Nearest(p, ackno) && p.state != SynSent
    ensures var q := Advanced(p, ackno);
      && Inv(q, h) && q.unsent == p.unsent && q.sndNxt == p.sndNxt && q.sndLbb == p.sndLbb
      && q.state == p.state && q.mss == p.mss
      && q.lastack == if p.lastack < ackno <= p.sndNxt then ackno else p.lastack
  {
    NewDataIs(p, h, ackno);
    if NewData(p, ackno) {
      NewDataKeeps(p, h, ackno);
    } else {
      assert forall x :: Cover(Advanced(p, ackno), x) == Cover(p, x);
    }
  }

  lemma {:induction false} NewDataKeeps(p: Pcb, h: Log, ackno: int)
    requires Inv(p, h) && Nearest(p, ackno) && p.state != SynSent && NewData(p, ackno)
    requires p.lastack < ackno <= p.sndNxt && U16(ackno - p.lastack) == ackno - p.lastack
    ensures Inv(Advanced(p, ackno), h)
  {
    var q := Advanced(p, ackno);
    AckedOnly(p.unacked, p.lastack - p.mss - 1, p.sndNxt, ackno, p.mss, h, p.state == Closed);
    SortedEnds(q.unacked, if ackno - p.mss - 1 < p.lastack - p.mss - 1 then p.lastack - p.mss - 1 else ackno - p.mss - 1, p.sndNxt);
    assert forall x :: Cover(q, x) <= Cover(p, x) && (x >= ackno ==> Cover(q, x) == Cover(p, x));
  }

  /** What is removed at the head of the unsent queue ends at or below ackno, unless it is
      misjudged. */
  lemma {:induction false} SweptHead(q: seq<Segment>, ackno: int, sndNxt: int, h: Log, closed: bool, mss: nat, lastack: int)
    requires q != [] && AllGenuine(q, h, closed, mss) && SeqBetween(ackno, End(q[0]), sndNxt)
    requires lastack <= sndNxt <= h.first + |h.stream| + (if closed then 1 else 0) <= lastack + 0x1_0000
    requires q[0].seqno >= sndNxt - 0x1_0000 && -0x8000_0000 <= ackno - lastack < 0x8000_0000
    requires !(sndNxt - 0x8000_0000 <= ackno < End(q[0]) - 0x8000_0000)
    ensures End(q[0]) <= ackno <= sndNxt
    ensures q[1..] != [] ==> !(sndNxt - 0x8000_0000 <= ackno < End(q[1]) - 0x8000_0000)
  {
    EndsBelow(q[0], h, closed, mss);
    if q[1..] != [] {
      EndsBelow(q[1], h, closed, mss);
    }
  }

  lemma {:induction false} SweptOnly(q: seq<Segment>, m: int, ackno: int, sndNxt: int, h: Log, closed: bool, mss: nat, lastack: int)
    requires Near(q, m) && sndNxt <= m <= h.first + |h.stream| + (if closed then 1 else 0) <= lastack + 0x1_0000
    requires AllGenuine(q, h, closed, mss) && lastack <= sndNxt && -0x8000_0000 <= ackno - lastack < 0x8000_0000
    requires q != [] ==> !(sndNxt - 0x8000_0000 <= ackno < End(q[0]) - 0x8000_0000)
    ensures var k := UnsentPrefix(q, ackno, sndNxt);
      && Near(q[k..], sndNxt) && AllGenuine(q[k..], h, closed, mss)
      && (k > 0 ==> ackno <= sndNxt)
      && (q != [] && End(Last(q)) > sndNxt ==> k < |q|)
    ensures forall x ::
      var r := Count(q[UnsentPrefix(q, ackno, sndNxt)..], x);
      r <= Count(q, x) && (x >= ackno ==> r == Count(q, x))
    decreases q
  {
    var k := UnsentPrefix(q, ackno, sndNxt);
    if q != [] {
      if k > 0 {
        SweptHead(q, ackno, sndNxt, h, closed, mss, lastack);
        assert q[k..] == q[1..][k - 1..];
        assert |q| > 1 ==> Last(q) == Last(q[1..]);
        EndsBelow(q[0], h, closed, mss);
        SweptOnly(q[1..], m, ackno, sndNxt, h, closed, mss, lastack);
      } else {
        assert q[k..] == q;
        NearLess(q, sndNxt, m);
      }
    }
  }

  lemma {:induction false} PbufsCut(q: seq<Segment>, k: nat)
    requires k <= |q|
    ensures Pbufs(q) == Pbufs(q[..k]) + Pbufs(q[k..])
  {
    assert q == q[..k] + q[k..];
    PbufsConcat(q[..k], q[k..]);
  }

  lemma {:induction false} SweptQueued(p: Pcb, h: Log, ackno: int)
    requires Ordered(p, h) && Queued(p, h) && Nearest(p, ackno) && !Misjudged(p, ackno)
    ensures var q := Swept(p, ackno);
      Ordered(q, h) && Queued(q, h)
  {
    PbufsCut(p.unsent, UnsentPrefix(p.unsent, ackno, p.sndNxt));
    SweptOnly(p.unsent, p.sndNxt, ackno, p.sndNxt, h, p.state == Closed, p.mss, p.lastack);
  }

  lemma {:induction false} SweptCounts(p: Pcb, h: Log, ackno: int)
    requires Ordered(p, h) && Queued(p, h) && Nearest(p, ackno) && !Misjudged(p, ackno)
    ensures var q, k := Swept(p, ackno), UnsentPrefix(p.unsent, ackno, p.sndNxt);
      && (k > 0 ==> ackno <= p.sndNxt)
      && (p.unsent != [] && End(Last(p.unsent)) > p.sndNxt ==> k < |p.unsent|)
      && (forall x :: Cover(q, x) <= Cover(p, x) && (x >= ackno ==> Cover(q, x) == Cover(p, x)))
  {
    SweptOnly(p.unsent, p.sndNxt, ackno, p.sndNxt, h, p.state == Closed, p.mss, p.lastack);
  }

  lemma {:induction false} SweptKeeps(p: Pcb, h: Log, ackno: int)
    requires Inv(p, h) && Nearest(p, ackno) && !Misjudged(p, ackno) && (ackno <= p.lastack || p.sndNxt < ackno)
    ensures var q := Swept(p, ackno);
      Inv(q, h) && (q.unsent != [] ==> p.unsent != [] && Last(q.unsent) == Last(p.unsent))
  {
    var q, k := Swept(p, ackno), UnsentPrefix(p.unsent, ackno, p.sndNxt);
    SweptQueued(p, h, ackno);
    SweptCounts(p, h, ackno);
    if k == 0 {
      assert q.unsent == p.unsent;
    }
    if k < |p.unsent| {
      assert Last(q.unsent) == Last(p.unsent);
    }
    SweptCovered(p, q, h, ackno, k);
  }

  lemma {:induction false} SweptCovered(p: Pcb, q: Pcb, h: Log, ackno: int, k: nat)
    requires Covered(p, h) && q.lastack == p.lastack && Top(q, h) == Top(p, h)
    requires forall x :: Cover(q, x) <= Cover(p, x) && (x >= ackno ==> Cover(q, x) == Cover(p, x))
    requires k == 0 ==> q.unsent == p.unsent && q.unacked == p.unacked
    requires k > 0 ==> ackno <= p.lastack
    ensures Covered(q, h)
  {
    forall x | q.lastack <= x < Top(q, h) ensures Cover(q, x) == 1 {
      assert Cover(p, x) == 1;
    }
    forall x ensures Cover(q, x) <= 1 {
      assert Cover(p, x) <= 1;
    }
  }

  /** An acknowledgement keeps everything exactly when it is not half the sequence space behind a
      segment that was never sent; such a one is thrown away unsent. */
  lemma {:induction false} AckKeepsExactly(p: Pcb, h: Log, ackno: int)
    requires Inv(p, h) && Nearest(p, ackno) && p.state != SynSent
    ensures var q := Swept(Advanced(p, ackno), ackno);
      Inv(q, h) <==> !Misjudged(p, ackno)
  {
    var r, q := Advanced(p, ackno), Swept(Advanced(p, ackno), ackno);
    AdvancedKeeps(p, h, ackno);
    if !Misjudged(p, ackno) {
      SweptKeeps(r, h, ackno);
    } else {
      var s, x, k := p.unsent[0], End(p.unsent[0]) - 1, UnsentPrefix(p.unsent, ackno, p.sndNxt);
      EndsBelow(s, h, p.state == Closed, p.mss);
      assert k > 0;
      assert p.unsent == [s] + p.unsent[1..] && p.unsent[1..] == p.unsent[1..k] + p.unsent[k..];
      CountConcat([s], p.unsent[1..], x);
      CountConcat(p.unsent[1..k], p.unsent[k..], x);
      assert Cover(r, x) <= 1 && Count([s], x) == 1;
      assert Cover(q, x) == 0 && q.lastack <= x < Top(q, h);
    }
  }

  /** An acknowledgement keeps the tail. */
  lemma {:induction false} AckTail(p: Pcb, h: Log, ackno: int)
    requires Inv(p, h) && Nearest(p, ackno) && p.state != SynSent && !Misjudged(p, ackno) && Tail(p)
    ensures Tail(Swept(Advanced(p, ackno), ackno))
  {
    AdvancedKeeps(p, h, ackno);
    SweptKeeps(Advanced(p, ackno), h, ackno);
  }

  lemma {:induction false} FinsAt(q: seq<Segment>, h: Log, mss: nat, acked: nat, x: int)
    requires AllGenuine(q, h, true, mss) && x == h.first + |h.stream| && Count(q, x) <= acked
    ensures LessFins(acked, q) == acked - Count(q, x)
  {
    if q != [] {
      EndsBelow(q[0], h, true, mss);
      FinsAt(q[1..], h, mss, if acked != 0 && q[0].fin then acked - 1 else acked, x);
    }
  }

  lemma {:induction false} NoFins(q: seq<Segment>, h: Log, mss: nat, acked: nat)
    requires AllGenuine(q, h, false, mss)
    ensures LessFins(acked, q) == acked
  {
    if q != [] {
      NoFins(q[1..], h, mss, acked);
    }
  }

  /** The FIN counts towards what is removed exactly when the acknowledgement covers it. */
  lemma {:induction false} FinRemoved(p: Pcb, h: Log, ackno: int)
    requires Inv(p, h) && p.state == Closed && p.lastack < ackno <= p.sndNxt
    ensures var j, k, x := AckedPrefix(p.unacked, ackno), UnsentPrefix(p.unsent, ackno, p.sndNxt), Top(p, h) - 1;
      Count(p.unacked[..j], x) + Count(p.unsent[..k], x) == if ackno == Top(p, h) then 1 else 0
  {
    var j, k, x := AckedPrefix(p.unacked, ackno), UnsentPrefix(p.unsent, ackno, p.sndNxt), Top(p, h) - 1;
    CutCount(p.unacked, j, x);
    CutCount(p.unsent, k, x);
    assert Cover(p, x) == 1;
    if ackno == Top(p, h) {
      AllAcked(p.unacked, h, p.mss, ackno, p.lastack - p.mss - 1, p.sndNxt);
      AllSwept(p.unsent, h, p.mss, ackno, p.sndNxt, p.sndNxt);
    } else {
      RestCovers(p, h, ackno, x);
    }
  }

  lemma {:induction false} CutCount(q: seq<Segment>, k: nat, x: int)
    requires k <= |q|
    ensures Count(q, x) == Count(q[..k], x) + Count(q[k..], x)
    ensures k == |q| ==> Count(q[..k], x) == Count(q, x)
  {
    assert q == q[..k] + q[k..];
    CountConcat(q[..k], q[k..], x);
  }

  /** What is not removed covers everything from the acknowledgement on. */
  lemma {:induction false} RestCovers(p: Pcb, h: Log, ackno: int, x: int)
    requires Ordered(p, h) && Queued(p, h) && p.lastack < ackno <= p.sndNxt && ackno <= x
    ensures Count(p.unacked[AckedPrefix(p.unacked, ackno)..], x) == Count(p.unacked, x)
    ensures Count(p.unsent[UnsentPrefix(p.unsent, ackno, p.sndNxt)..], x) == Count(p.unsent, x)
  {
    AckedOnly(p.unacked, p.lastack - p.mss - 1, p.sndNxt, ackno, p.mss, h, p.state == Closed);
    SweptOnly(p.unsent, p.sndNxt, ackno, p.sndNxt, h, p.state == Closed, p.mss, p.lastack);
  }

  lemma {:induction false} AllAcked(q: seq<Segment>, h: Log, mss: nat, ackno: int, lo: int, hi: int)
    requires AllGenuine(q, h, true, mss) && ackno == h.first + |h.stream| + 1
    requires Sorted(q, lo, hi) && ackno < lo + 0x4000_0000
    ensures AckedPrefix(q, ackno) == |q|
    decreases q
  {
    if q != [] {
      EndsBelow(q[0], h, true, mss);
      AllAcked(q[1..], h, mss, ackno, End(q[0]), hi);
    }
  }

  lemma {:induction false} AllSwept(q: seq<Segment>, h: Log, mss: nat, ackno: int, m: int, sndNxt: int)
    requires AllGenuine(q, h, true, mss) && ackno == sndNxt == h.first + |h.stream| + 1 && Near(q, m) && m == sndNxt
    ensures UnsentPrefix(q, ackno, sndNxt) == |q|
    decreases q
  {
    if q != [] {
      EndsBelow(q[0], h, true, mss);
      AllSwept(q[1..], h, mss, ackno, m, sndNxt);
    }
  }

  lemma {:induction false} RestOf(q: seq<Segment>)
    requires q != []
    ensures forall i {:trigger q[i]} | 0 < i < |q| :: q[i] == q[1..][i - 1]
  {
  }

  lemma {:induction false} AckedPrefixIs(q: seq<Segment>, lo: int, hi: int, ackno: int)
    requires Sorted(q, lo, hi) && lo <= ackno <= hi < lo + 0x4000_0000
    ensures var j := AckedPrefix(q, ackno);
      && (forall i | 0 <= i < j :: End(q[i]) <= ackno) && (forall i | j <= i < |q| :: ackno < End(q[i]))
    decreases q
  {
    if q != [] {
      var j := AckedPrefix(q, ackno);
      SortedEnds(q, lo, hi);
      RestOf(q);
      if j > 0 {
        AckedPrefixIs(q[1..], End(q[0]), hi, ackno);
      } else {
        SortedEnds(q[1..], End(q[0]), hi);
      }
    }
  }

  lemma {:induction false} UnsentPrefixIs(q: seq<Segment>, m: int, ackno: int, sndNxt: int, h: Log, closed: bool, mss: nat, lastack: int)
    requires Near(q, m) && sndNxt <= m <= h.first + |h.stream| + (if closed then 1 else 0) <= lastack + 0x1_0000
    requires AllGenuine(q, h, closed, mss) && lastack <= ackno <= sndNxt
    ensures var k := UnsentPrefix(q, ackno, sndNxt);
      && (forall i | 0 <= i < k :: End(q[i]) <= ackno) && (k < |q| ==> ackno < End(q[k]))
    decreases q
  {
    if q != [] {
      var k := UnsentPrefix(q, ackno, sndNxt);
      EndsBelow(q[0], h, closed, mss);
      if k > 0 {
        RestOf(q);
        UnsentPrefixIs(q[1..], if m < End(q[0]) then End(q[0]) else m, ackno, sndNxt, h, closed, mss, lastack);
      }
    }
  }

  /** An acknowledgement of new data moves lastack to it, and removes from the head of each queue what
      it covers in full: from the unacknowledged one all of that, from the unsent one up to the first
      segment that it does not cover. */
  lemma {:induction false} AckFrees(p: Pcb, h: Log, ackno: int) returns (j: nat, k: nat)
    requires Inv(p, h) && p.state != SynSent && p.lastack < ackno <= p.sndNxt
    ensures j <= |p.unacked| && k <= |p.unsent|
    ensures var q := Swept(Advanced(p, ackno), ackno);
      && q.lastack == ackno && q.unacked == p.unacked[j..] && q.unsent == p.unsent[k..]
      && q.sndBuf == p.sndBuf + (ackno - p.lastack)
    ensures (forall i | 0 <= i < j :: End(p.unacked[i]) <= ackno) && (forall i | j <= i < |p.unacked| :: ackno < End(p.unacked[i]))
    ensures (forall i | 0 <= i < k :: End(p.unsent[i]) <= ackno) && (k < |p.unsent| ==> ackno < End(p.unsent[k]))
  {
    NewDataIs(p, h, ackno);
    j, k := AckedPrefix(p.unacked, ackno), UnsentPrefix(p.unsent, ackno, p.sndNxt);
    AckedPrefixIs(p.unacked, p.lastack - p.mss - 1, p.sndNxt, ackno);
    UnsentPrefixIs(p.unsent, p.sndNxt, ackno, p.sndNxt, h, p.state == Closed, p.mss, p.lastack);
  }

  /** Any other one changes neither the unacknowledged queue nor lastack and snd_buf. */
  lemma {:induction false} OldAckFreesNothing(p: Pcb, h: Log, ackno: int)
    requires Inv(p, h) && Nearest(p, ackno) && !(p.lastack < ackno <= p.sndNxt)
    ensures var q := Swept(Advanced(p, ackno), ackno);
      q.lastack == p.lastack && q.unacked == p.unacked && q.sndBuf == p.sndBuf
  {
    NewDataIs(p, h, ackno);
  }

  /** What the application is told was acknowledged is what the acknowledgement covers for the
      first time, a FIN not counted. */
  lemma {:induction false} AckReports(p: Pcb, h: Log, ackno: int)
    requires Inv(p, h) && Nearest(p, ackno) && p.state != SynSent && !Misjudged(p, ackno)
    ensures Swept(Advanced(p, ackno), ackno).acked ==
      if p.lastack < ackno <= p.sndNxt then ackno - p.lastack - (if p.state == Closed && ackno == Top(p, h) then 1 else 0)
      else 0
  {
    NewDataIs(p, h, ackno);
    if !NewData(p, ackno) {
      NothingReported(p.unsent[..UnsentPrefix(p.unsent, ackno, p.sndNxt)]);
    } else {
      AckReportsNew(p, h, ackno);
    }
  }

  lemma {:induction false} AckReportsNew(p: Pcb, h: Log, ackno: int)
    requires Inv(p, h) && p.lastack < ackno <= p.sndNxt
    ensures var n, j, k := ackno - p.lastack, AckedPrefix(p.unacked, ackno), UnsentPrefix(p.unsent, ackno, p.sndNxt);
      LessFins(LessFins(n, p.unacked[..j]), p.unsent[..k]) ==
      n - if p.state == Closed && ackno == Top(p, h) then 1 else 0
  {
    var n, j, k := ackno - p.lastack, AckedPrefix(p.unacked, ackno), UnsentPrefix(p.unsent, ackno, p.sndNxt);
    PrefixGenuine(p.unacked, j, h, p.state == Closed, p.mss);
    PrefixGenuine(p.unsent, k, h, p.state == Closed, p.mss);
    if p.state == Closed {
      FinRemoved(p, h, ackno);
      FinsAt(p.unacked[..j], h, p.mss, n, Top(p, h) - 1);
      FinsAt(p.unsent[..k], h, p.mss, LessFins(n, p.unacked[..j]), Top(p, h) - 1);
    } else {
      NoFins(p.unacked[..j], h, p.mss, n);
      NoFins(p.unsent[..k], h, p.mss, n);
    }
  }

  lemma {:induction false} PrefixGenuine(q: seq<Segment>, k: nat, h: Log, closed: bool, mss: nat)
    requires k <= |q| && AllGenuine(q, h, closed, mss)
    ensures AllGenuine(q[..k], h, closed, mss)
  {
    assert q == q[..k] + q[k..];
    GenuineConcat(q[..k], q[k..], h, closed, mss);
  }

  lemma {:induction false} NothingReported(q: seq<Segment>)
    ensures LessFins(0, q) == 0
  {
    if q != [] {
      NothingReported(q[1..]);
    }
  }

  // ---------------------------------------------------------------------- runs

  /** The SYN the peer has acknowledged leaves the queue. */
  lemma {:induction false} ConnectKeeps(p: Pcb, h: Log)
    requires Inv(p, h) && SynFirst(p) && p.state == SynSent && p.unacked != []
    ensures Inv(Connected(p), h) && (Tail(p) ==> Tail(Connected(p)))
  {
    var u, q := p.unacked[0], Connected(p);
    SortedEnds(p.unacked, p.lastack - p.mss - 1, p.sndNxt);
    SortedHigher(q.unacked, h.first, h.first - p.mss - 1, p.sndNxt, p.sndNxt);
    SortedEnds(q.unacked, h.first, p.sndNxt);
    assert forall x :: Cover(q, x) <= Cover(p, x) && (x >= h.first ==> Cover(q, x) == Cover(p, x));
  }

  /** The connection is open then: the SYN is acknowledged and in neither queue, and every other
      segment is where it was. */
  lemma {:induction false} ConnectOpens(p: Pcb, h: Log)
    requires Inv(p, h) && SynFirst(p) && p.state == SynSent && p.unacked != []
    ensures var q := Connected(p);
      && q.state == Open && q.lastack == h.first && q.sndBuf + (q.sndLbb - h.first) == TCP_SND_BUF
      && q.unacked == p.unacked[1..] && q.unsent == p.unsent && p.unacked[0].syn
      && (forall s | s in q.unacked || s in q.unsent :: !s.syn)
  {
    var q, x := Connected(p), h.first - 1;
    GenuineAt(p.unacked, h, false, p.mss);
    GenuineAt(p.unsent, h, false, p.mss);
    assert Cover(p, x) <= 1 && Count(p.unacked, x) == 1 + Count(q.unacked, x);
    forall i | 0 <= i < |q.unacked| ensures !q.unacked[i].syn {
      assert q.unacked[i] == p.unacked[i + 1];
      if q.unacked[i].syn {
        CountMember(q.unacked, i, x);
      }
    }
    forall i | 0 <= i < |q.unsent| ensures !q.unsent[i].syn {
      if q.unsent[i].syn {
        CountMember(q.unsent, i, x);
      }
    }
  }

  /** Every queued segment fits the segment size m, and so does the spare room recorded behind the
      last unsent one. */
  predicate Fits(p: Pcb, m: nat) {
    && Short(p.unacked, m) && Short(p.unsent, m)
    && (p.state != Closed && p.oversize > 0 && p.unsent != [] ==>
      |Last(p.unsent).data| + OptLen(Last(p.unsent)) + p.oversize <= m)
  }

  predicate Short(q: seq<Segment>, m: nat) {
    q == [] || (|q[0].data| <= m && Short(q[1..], m))
  }

  lemma {:induction false} ShortGenuine(q: seq<Segment>, h: Log, closed: bool, mss: nat, m: nat)
    requires AllGenuine(q, h, closed, mss)
    ensures AllGenuine(q, h, closed, m) <==> Short(q, m)
  {
    if q != [] {
      ShortGenuine(q[1..], h, closed, mss, m);
    }
  }

  /** A new segment size keeps everything exactly if what is queued fits it. */
  lemma {:induction false} ResizeKeepsExactly(p: Pcb, h: Log, m: nat)
    requires Inv(p, h) && 0 < m <= TCP_MSS
    ensures Inv(p.(mss := m), h) <==> Fits(p, m)
  {
    var q, closed := p.(mss := m), p.state == Closed;
    ShortGenuine(p.unacked, h, closed, p.mss, m);
    ShortGenuine(p.unsent, h, closed, p.mss, m);
    if Fits(p, m) && p.unacked != [] {
      SortedEnds(p.unacked, p.lastack - p.mss - 1, p.sndNxt);
      SortedHigher(p.unacked, p.lastack - p.mss - 1, p.lastack - m - 1, p.sndNxt, p.sndNxt);
    }
    assert forall x :: Cover(q, x) == Cover(p, x);
  }

  /** A larger segment size always keeps everything. */
  lemma {:induction false} LargerFits(p: Pcb, h: Log, m: nat)
    requires Inv(p, h) && p.mss <= m
    ensures Fits(p, m)
  {
    LongerShort(p.unacked, h, p.state == Closed, p.mss, m);
    LongerShort(p.unsent, h, p.state == Closed, p.mss, m);
  }

  lemma {:induction false} LongerShort(q: seq<Segment>, h: Log, closed: bool, mss: nat, m: nat)
    requires AllGenuine(q, h, closed, mss) && mss <= m
    ensures Short(q, m)
  {
    if q != [] {
      LongerShort(q[1..], h, closed, mss, m);
    }
  }

  datatype Event =
    | Negotiating(option: nat, limit: nat)
    | Writing(bytes: seq<byte>, grown: nat)
    | Closing
    | Sending(k: nat, wnd: nat, inFr: bool)
    | Acking(ackno: int)
    | Rexmitting
    | RexmittingAll
    | Connecting
    | Failing

  /** One call on the connection. Writing and closing happen only while nothing would be put
      behind a segment that does not end at snd_lbb; a new segment size is one that everything
      queued fits. */
  ghost predicate Step(p: Pcb, h: Log, e: Event, p': Pcb, h': Log) {
    match e
    case Negotiating(option, limit) =>
      limit > 0 && Fits(p, NewMss(option, limit)) && p' == p.(mss := NewMss(option, limit)) && h' == h
    case Writing(bytes, grown) =>
      Written(p, p', bytes, grown) && WellPlaced(p, |bytes|) && h' == h.(stream := h.stream + bytes)
    case Closing =>
      && p.state == Open
      && if CanCarryFin(p) then FinHung(p.(state := Closed), p') && Tail(p) && h' == h.(hung := true)
         else Enqueued(p.(state := Closed), p', false, true) && h' == h
    case Sending(k, wnd, inFr) => Flushed(p, p', k, wnd, inFr) && wnd <= 0xFFFF && h' == h
    case Acking(ackno) =>
      && p.state != SynSent && Nearest(p, ackno) && !Misjudged(p, ackno)
      && p' == Swept(Advanced(p, ackno), ackno) && h' == h
    case Rexmitting => p.state != SynSent && p' == Rexmitted(p) && h' == h
    case RexmittingAll => p' == RexmittedAll(p) && h' == h
    case Connecting => p.state == SynSent && p.unacked != [] && p' == Connected(p) && h' == h
    case Failing => p' == p.(nagleMemErr := p'.nagleMemErr) && h' == h
  }

  lemma {:induction false} StepKeepsInv(p: Pcb, h: Log, e: Event, p': Pcb, h': Log)
    requires Inv(p, h) && SynFirst(p) && Step(p, h, e, p', h')
    ensures Inv(p', h')
  {
    match e
    case Negotiating(option, limit) => ResizeKeepsExactly(p, h, NewMss(option, limit));
    case Writing(bytes, grown) => WriteKeeps(p, p', h, bytes, grown);
    case Closing =>
      if CanCarryFin(p) {
        FinHungKeepsExactly(p, p', h);
      } else {
        FinKeeps(p, p', h);
      }
    case Sending(k, wnd, inFr) => OutputKeeps(p, p', k, wnd, inFr, h);
    case Acking(ackno) => AckKeepsExactly(p, h, ackno);
    case Rexmitting => RexmitKeeps(p, h);
    case RexmittingAll => RexmitAllKeeps(p, h);
    case Connecting => ConnectKeeps(p, h);
    case Failing => FailKeeps(p, h, p'.nagleMemErr);
  }

  lemma {:induction false} FailKeeps(p: Pcb, h: Log, nagleMemErr: bool)
    requires Inv(p, h)
    ensures Inv(p.(nagleMemErr := nagleMemErr), h)
  {
    assert forall x :: Cover(p.(nagleMemErr := nagleMemErr), x) == Cover(p, x);
  }

  lemma {:induction false} WriteKeepsSyn(p: Pcb, p': Pcb, bytes: seq<byte>, grown: nat)
    requires SynFirst(p) && Written(p, p', bytes, grown)
    ensures SynFirst(p')
  {
    if p.state == SynSent && p.unacked == [] {
      var n := |p.unsent| - 1;
      assert n > 0 ==> p'.unsent[0] == p'.unsent[..n][0];
    }
  }

  /** While the SYN is outstanding it stays the first segment. */
  lemma {:induction false} StepKeepsSyn(p: Pcb, h: Log, e: Event, p': Pcb, h': Log)
    requires Inv(p, h) && SynFirst(p) && Step(p, h, e, p', h')
    ensures SynFirst(p')
  {
    match e
    case Writing(bytes, grown) => WriteKeepsSyn(p, p', bytes, grown);
    case Sending(k, wnd, inFr) => OutputKeeps(p, p', k, wnd, inFr, h);
    case Acking(ackno) => AdvancedKeeps(p, h, ackno);
    case RexmittingAll => RexmitAllKeeps(p, h);
    case Negotiating(_, _) =>
    case Closing =>
    case Rexmitting =>
    case Connecting =>
    case Failing =>
  }

  lemma {:induction false} StepKeeps(p: Pcb, h: Log, e: Event, p': Pcb, h': Log)
    requires Inv(p, h) && SynFirst(p) && Step(p, h, e, p', h')
    ensures Inv(p', h') && SynFirst(p')
  {
    StepKeepsInv(p, h, e, p', h');
    StepKeepsSyn(p, h, e, p', h');
  }

  /** The tail stays at snd_lbb, so that writing and closing stay possible, through everything
      but a fast retransmission onto an empty unsent queue. */
  lemma {:induction false} StepKeepsTail(p: Pcb, h: Log, e: Event, p': Pcb, h': Log)
    requires Inv(p, h) && SynFirst(p) && Step(p, h, e, p', h') && Tail(p) && p'.state != Closed
    requires e == Rexmitting ==> p.unsent != [] || |p.unacked| <= 1
    ensures Tail(p')
  {
    match e
    case Negotiating(option, limit) => ResizeKeepsExactly(p, h, NewMss(option, limit));
    case Writing(bytes, grown) => WriteKeeps(p, p', h, bytes, grown);
    case Closing =>
    case Sending(k, wnd, inFr) => OutputKeeps(p, p', k, wnd, inFr, h);
    case Acking(ackno) => AckTail(p, h, ackno);
    case Rexmitting => RexmitTail(p, h);
    case RexmittingAll => RexmitAllKeeps(p, h);
    case Connecting => ConnectKeeps(p, h);
    case Failing =>
  }

  ghost predicate Run(ps: seq<Pcb>, hs: seq<Log>, es: seq<Event>) {
    |ps| == |hs| == |es| + 1 && forall i | 0 <= i < |es| :: Step(ps[i], hs[i], es[i], ps[i + 1], hs[i + 1])
  }

  lemma {:induction false} RunKeeps(ps: seq<Pcb>, hs: seq<Log>, es: seq<Event>, n: nat)
    requires Run(ps, hs, es) && Inv(ps[0], hs[0]) && SynFirst(ps[0]) && n <= |es|
    ensures Inv(ps[n], hs[n]) && SynFirst(ps[n])
  {
    if n > 0 {
      RunKeeps(ps, hs, es, n - 1);
      StepKeeps(ps[n - 1], hs[n - 1], es[n - 1], ps[n], hs[n]);
    }
  }

  ghost predicate CarriesStream(s: Segment, h: Log) {
    s.data != [] ==>
      var i := s.seqno - h.first;
      0 <= i && i + |s.data| <= |h.stream| && s.data == h.stream[i..i + |s.data|]
  }

  lemma {:induction false} QueuedCarries(q: seq<Segment>, h: Log, closed: bool, mss: nat)
    requires AllGenuine(q, h, closed, mss)
    ensures forall s | s in q :: CarriesStream(s, h) && |s.data| <= mss
  {
    GenuineAt(q, h, closed, mss);
  }

  /** From connection set-up on, whatever is called in whatever order: every sequence number that
      is written and not acknowledged is in exactly one segment of one of the two queues, every
      queued segment carries exactly the written bytes that belong at its sequence number, the
      unacknowledged queue is in order, and the two counters are exact. */
  lemma {:induction false} RunConserves(p0: Pcb, ps: seq<Pcb>, hs: seq<Log>, es: seq<Event>)
    requires Run(ps, hs, es) && Fresh(p0, hs[0]) && Enqueued(p0, ps[0], true, false)
    ensures var p, h := ps[|es|], hs[|es|];
      && (forall x | p.lastack <= x < Top(p, h) :: Count(p.unacked, x) + Count(p.unsent, x) == 1)
      && (forall x :: Count(p.unacked, x) + Count(p.unsent, x) <= 1)
      && (forall s | s in p.unacked || s in p.unsent :: CarriesStream(s, h) && |s.data| <= p.mss)
      && Sorted(p.unacked, p.lastack - p.mss - 1, p.sndNxt)
      && p.sndQueuelen == Pbufs(p.unacked) + Pbufs(p.unsent) <= TCP_SND_QUEUELEN
      && p.sndBuf + (p.sndLbb - p.lastack) == TCP_SND_BUF
      && 0 <= p.sndBuf <= TCP_SND_BUF + (if h.hung then 1 else 0)
  {
    StartHolds(p0, ps[0], hs[0]);
    RunKeeps(ps, hs, es, |es|);
    var p, h := ps[|es|], hs[|es|];
    QueuedCarries(p.unacked, h, p.state == Closed, p.mss);
    QueuedCarries(p.unsent, h, p.state == Closed, p.mss);
    InvConserves(p, h);
  }

  lemma {:induction false} InvConserves(p: Pcb, h: Log)
    requires Inv(p, h)
    ensures forall x | p.lastack <= x < Top(p, h) :: Count(p.unacked, x) + Count(p.unsent, x) == 1
    ensures forall x :: Count(p.unacked, x) + Count(p.unsent, x) <= 1
  {
    assert forall x :: Cover(p, x) == Count(p.unacked, x) + Count(p.unsent, x);
  }

  // ------------------------------------------------------------------ examples

  lemma {:induction false} OneMoreStep(ps: seq<Pcb>, hs: seq<Log>, es: seq<Event>, e: Event, p: Pcb, h: Log)
    requires Run(ps, hs, es) && Step(ps[|es|], hs[|es|], e, p, h)
    ensures Run(ps + [p], hs + [h], es + [e])
  {
  }

  /** What tcp_output leaves of a connection with one unsent segment. */
  function SentOne(p: Pcb): Pcb
    requires p.unsent != []
  {
    Transmit(p).(oversize := 0, nagleMemErr := false)
  }

  lemma {:induction false} SendingOne(p: Pcb, wnd: nat)
    requires |p.unsent| == 1 && InWindow(p, p.unsent[0], wnd) && MaySend(p, false)
    ensures Flushed(p, SentOne(p), 1, wnd, false)
  {
    assert Sends(Transmit(p), Transmit(p), 0, wnd, false);
    assert Sends(p, Transmit(p), 1, wnd, false);
  }

  /** Writing onto an empty unsent queue, without a copy. */
  function WroteOne(p: Pcb, bytes: seq<byte>): Pcb {
    p.(unsent := [Segment(p.sndLbb, bytes, false, false, 2)], sndQueuelen := p.sndQueuelen + 2, oversize := 0,
       sndLbb := p.sndLbb + |bytes|, sndBuf := p.sndBuf - |bytes|)
  }

  lemma {:induction false} WritingOne(p: Pcb, bytes: seq<byte>)
    requires p.unsent == [] && WriteChecks(p, |bytes|) == Ok && 0 < |bytes| <= p.mss && p.sndQueuelen < 7
    ensures Written(p, WroteOne(p, bytes), bytes, 0)
  {
    var u := WroteOne(p, bytes).unsent;
    assert u[1..] == [] && bytes[..|bytes|] == bytes && bytes[|bytes|..] == [];
    assert Tiles(u[1..], p.sndLbb + |bytes|, bytes[|bytes|..], p.mss);
    assert Pbufs(u) == 2 + Pbufs(u[1..]);
  }

  /** The connection right after tcp_connect, its SYN queued and then sent. */
  const Unopened := Pcb(SynSent, 536, 99, 100, 99, TCP_SND_BUF, 0, 0, [], [], 0, true, false, false)
  const Syn := Segment(99, [], true, false, 1)
  const Opening := Unopened.(unsent := [Syn], sndLbb := 100, sndBuf := TCP_SND_BUF - 1, sndQueuelen := 1)
  const SynOut := Opening.(unsent := [], unacked := [Syn])
  const Idle := SynOut.(unacked := [], state := Open, lastack := 100, sndBuf := TCP_SND_BUF, sndQueuelen := 0)

  /** A run starts with connection set-up. */
  ghost predicate FromStart(ps: seq<Pcb>, hs: seq<Log>, es: seq<Event>) {
    Run(ps, hs, es) && Fresh(Unopened, hs[0]) && Enqueued(Unopened, ps[0], true, false)
  }

  lemma {:induction false} OpeningRun() returns (ps: seq<Pcb>, hs: seq<Log>, es: seq<Event>)
    ensures FromStart(ps, hs, es) && ps[|es|] == SynOut && hs[|es|] == Log(100, [], false)
  {
    var h := Log(100, [], false);
    SendingOne(Opening, 536);
    assert SentOne(Opening) == SynOut;
    ps, hs, es := [Opening, SynOut], [h, h], [Sending(1, 536, false)];
  }

  lemma {:induction false} ConnectedRun() returns (ps: seq<Pcb>, hs: seq<Log>, es: seq<Event>)
    ensures FromStart(ps, hs, es) && ps[|es|] == Idle && hs[|es|] == Log(100, [], false)
  {
    ps, hs, es := OpeningRun();
    assert Connected(SynOut) == Idle;
    OneMoreStep(ps, hs, es, Connecting, Idle, hs[|es|]);
    ps, hs, es := ps + [Idle], hs + [hs[|es|]], es + [Connecting];
  }

  /** A run can go on by writing onto an empty unsent queue. */
  lemma {:induction false} OnWriting(ps: seq<Pcb>, hs: seq<Log>, es: seq<Event>, bytes: seq<byte>)
    returns (ps': seq<Pcb>, hs': seq<Log>, es': seq<Event>)
    requires FromStart(ps, hs, es)
    requires var p := ps[|es|];
      p.unsent == [] && WriteChecks(p, |bytes|) == Ok && 0 < |bytes| <= p.mss && p.sndQueuelen < 7
    ensures FromStart(ps', hs', es') && ps'[|es'|] == WroteOne(ps[|es|], bytes)
    ensures hs'[|es'|] == hs[|es|].(stream := hs[|es|].stream + bytes)
  {
    var p, h := ps[|es|], hs[|es|];
    WritingOne(p, bytes);
    var e, p', h' := Writing(bytes, 0), WroteOne(p, bytes), h.(stream := h.stream + bytes);
    OneMoreStep(ps, hs, es, e, p', h');
    ps', hs', es' := ps + [p'], hs + [h'], es + [e];
  }

  /** A run can go on by sending the one unsent segment. */
  lemma {:induction false} OnSending(ps: seq<Pcb>, hs: seq<Log>, es: seq<Event>)
    returns (ps': seq<Pcb>, hs': seq<Log>, es': seq<Event>)
    requires FromStart(ps, hs, es)
    requires var p := ps[|es|]; |p.unsent| == 1 && InWindow(p, p.unsent[0], 536) && MaySend(p, false)
    ensures FromStart(ps', hs', es') && ps'[|es'|] == SentOne(ps[|es|]) && hs'[|es'|] == hs[|es|]
  {
    var p, h, e := ps[|es|], hs[|es|], Sending(1, 536, false);
    SendingOne(p, 536);
    OneMoreStep(ps, hs, es, e, SentOne(p), h);
    ps', hs', es' := ps + [SentOne(p)], hs + [h], es + [e];
  }

  const A := Segment(100, [1], false, false, 2)
  const B := Segment(101, [2], false, false, 2)
  const TwoOut := Idle.(unacked := [A, B], sndNxt := 102, sndLbb := 102, sndBuf := TCP_SND_BUF - 2, sndQueuelen := 4)
  const Resent := TwoOut.(unsent := [A], unacked := [B])

  lemma {:induction false} TwoOutRun() returns (ps: seq<Pcb>, hs: seq<Log>, es: seq<Event>)
    ensures FromStart(ps, hs, es) && ps[|es|] == TwoOut && hs[|es|] == Log(100, [1, 2], false)
  {
    ps, hs, es := ConnectedRun();
    ps, hs, es := OnWriting(ps, hs, es, [1]);
    ps, hs, es := OnSending(ps, hs, es);
    ps, hs, es := OnWriting(ps, hs, es, [2]);
    ps, hs, es := OnSending(ps, hs, es);
    assert ps[|es|].unacked == [A, B];
  }

  lemma {:induction false} ResentRun() returns (ps: seq<Pcb>, hs: seq<Log>, es: seq<Event>)
    ensures FromStart(ps, hs, es) && ps[|es|] == Resent && hs[|es|] == Log(100, [1, 2], false)
  {
    ps, hs, es := TwoOutRun();
    assert Rexmitted(TwoOut) == Resent;
    OneMoreStep(ps, hs, es, Rexmitting, Resent, hs[|es|]);
    ps, hs, es := ps + [Resent], hs + [hs[|es|]], es + [Rexmitting];
    assert Sends(Resent, Resent, 0, 0, false);
    assert Flushed(Resent, Resent, 0, 0, false);
    OneMoreStep(ps, hs, es, Sending(0, 0, false), Resent, hs[|es|]);
    ps, hs, es := ps + [Resent], hs + [hs[|es|]], es + [Sending(0, 0, false)];
  }

  /** A run in which writing goes wrong: two segments are outstanding, a fast retransmission moves
      the first one to the empty unsent queue, the window keeps tcp_output from sending it, and
      tcp_write puts a new byte behind it. */
  lemma {:induction false} MisplacedExample()
    returns (ps: seq<Pcb>, hs: seq<Log>, es: seq<Event>, p': Pcb)
    ensures FromStart(ps, hs, es) && ps[|es|] == Resent && hs[|es|] == Log(100, [1, 2], false)
    ensures Written(Resent, p', [7], 1) && p'.unsent == [Segment(100, [1, 7], false, false, 3)]
    ensures !Inv(p', Log(100, [1, 2, 7], false))
  {
    ps, hs, es := ResentRun();
    var h, t := hs[|es|], Segment(100, [1, 7], false, false, 3);
    StartHolds(Unopened, ps[0], hs[0]);
    RunKeeps(ps, hs, es, |es|);
    p' := Resent.(unsent := [t], sndQueuelen := 5, sndLbb := 103, sndBuf := TCP_SND_BUF - 3);
    assert [1] + [7][..1] == [1, 7] && [1, 2] + [7] == [1, 2, 7];
    assert [A][..0] == [t][..0] && [A][1..] == [] && [t][1..] == [] && [7][1..] == [];
    assert Pbufs([A]) == 2 + Pbufs([A][1..]) && Pbufs([t]) == 3 + Pbufs([t][1..]);
    WriteKeepsExactly(Resent, p', h, [7], 1);
  }

  /** A run after which an acknowledgement number half the sequence space behind makes the code
      throw away a segment that was never sent. */
  lemma {:induction false} MisjudgedExample()
    returns (ps: seq<Pcb>, hs: seq<Log>, es: seq<Event>, ackno: int)
    ensures FromStart(ps, hs, es) && ps[|es|] == WroteOne(Idle, [1]) && Nearest(ps[|es|], ackno)
    ensures ackno < ps[|es|].lastack == ps[|es|].sndNxt && Swept(Advanced(ps[|es|], ackno), ackno).unsent == []
  {
    ps, hs, es := ConnectedRun();
    ps, hs, es := OnWriting(ps, hs, es, [1]);
    ackno := 100 - 0x8000_0000;
    assert ps[|es|].unsent[1..] == [];
    assert UnsentPrefix(ps[|es|].unsent[1..], ackno, 100) == 0;
  }

  /** A run after which a smaller segment size breaks the size limit: two bytes are queued when the
      answer to the SYN asks for segments of one byte. The room in the last segment wraps, and the
      next byte is put behind the two. */
  lemma {:induction false} ResizeExample()
    returns (ps: seq<Pcb>, hs: seq<Log>, es: seq<Event>, q: Pcb, p': Pcb)
    ensures FromStart(ps, hs, es) && ps[|es|] == WroteOne(SynOut, [1, 2]) && !Fits(ps[|es|], NewMss(1, 1460))
    ensures q == Connected(ps[|es|].(mss := NewMss(1, 1460))) && q.mss == 1
    ensures Written(q, p', [3], 1) && p'.unsent == [Segment(100, [1, 2, 3], false, false, 3)]
  {
    ps, hs, es := OpeningRun();
    ps, hs, es := OnWriting(ps, hs, es, [1, 2]);
    q := Connected(ps[|es|].(mss := 1));
    var s, t := Segment(100, [1, 2], false, false, 2), Segment(100, [1, 2, 3], false, false, 3);
    p' := q.(unsent := [t], sndQueuelen := 3, sndLbb := 103, sndBuf := TCP_SND_BUF - 3);
    assert [1, 2] + [3][..1] == [1, 2, 3];
    assert [s][..0] == [t][..0] && [s][1..] == [] && [t][1..] == [] && [3][1..] == [];
    assert Pbufs([s]) == 2 + Pbufs([s][1..]) && Pbufs([t]) == 3 + Pbufs([t][1..]);
  }
}
