/** Reads from a TCP socket: lwip_recvfrom with data left over from earlier reads, and the credit
    it returns to the receive window. */
module SocketStream {
  import opened Words
  import opened Options
  import PbufCopy

  /** A received pbuf chain and its push flag. */
  datatype Packet = Packet(chain: PbufCopy.Chain, push: bool)

  /** What the stack posts to the mailbox: a packet, or that the peer has closed. */
  datatype Message = Arrived(packet: Packet) | Close

  /** What came of netconn_recv_tcp_pbuf: a packet, the end of the stream, or an error. */
  datatype Fetch = Fetched | Closed | Failed

  /** Why a read ends: the buffer is full, a pushed packet has been read, no more events are counted,
      it only peeked, it may not wait, or there was no packet. */
  datatype Why = Full | Pushed | Drained | Peeked | WouldBlock | NoPacket(fetch: Fetch)

  function Data(p: Packet): seq<byte> {
    PbufCopy.Flat(p.chain)
  }

  function Bytes(m: Message): seq<byte> {
    if m.Arrived? then Data(m.packet) else []
  }

  function AllData(q: seq<Message>): seq<byte> {
    if q == [] then [] else Bytes(q[0]) + AllData(q[1..])
  }

  /** What a fetched packet still holds behind the offset. */
  function Left(last: Option<Packet>, offset: nat): seq<byte> {
    if last == None || offset >= |Data(last.value)| then [] else Data(last.value)[offset..]
  }

  /** Packet lengths are 16-bit values. */
  predicate Short(q: seq<Message>) {
    forall i | 0 <= i < |q| :: |Bytes(q[i])| <= 0xFFFF
  }

  /** do_recv: a credit is passed to tcp_recved in pieces of sixteen bits that add up to it. */
  method DoRecv(len: nat) returns (credited: nat, pieces: seq<nat>)
    requires len <= 0xFFFF_FFFF
    ensures credited == len && Sum(pieces) == len && pieces != []
    ensures forall i | 0 <= i < |pieces| :: pieces[i] <= 0xFFFF && (i + 1 < |pieces| ==> pieces[i] == 0xFFFF)
  {
    var remaining := len;
    credited, pieces := 0, [];
    var again := true;
    while again
      invariant credited + remaining == len && Sum(pieces) == credited
      invariant !again ==> remaining == 0 && pieces != []
      invariant again && pieces != [] ==> remaining > 0
      invariant forall i | 0 <= i < |pieces| :: pieces[i] <= 0xFFFF && (remaining > 0 || i + 1 < |pieces| ==> pieces[i] == 0xFFFF)
      decreases remaining, again
    {
      var recved := if remaining > 0xFFFF then 0xFFFF else remaining;
      SumMore(pieces, recved);
      pieces := pieces + [recved];
      credited := credited + recved;
      remaining := remaining - recved;
      again := remaining != 0;
    }
  }

  function Sum(q: seq<nat>): nat {
    if q == [] then 0 else q[0] + Sum(q[1..])
  }

  lemma {:induction false} SumMore(q: seq<nat>, n: nat)
    ensures Sum(q + [n]) == Sum(q) + n
  {
    if q == [] {
      assert q + [n] == [n] && [n][1..] == [];
    } else {
      assert (q + [n])[1..] == q[1..] + [n];
      SumMore(q[1..], n);
    }
  }

  /** struct lwip_sock as far as reading goes. The mailbox holds what has been posted and not been
      fetched; that packets arrive while a read is under way is the same as their being there
      before, since a read never asks how many there are. */
  datatype Reader = Reader(lastdata: Option<Packet>, lastoffset: nat, mailbox: seq<Message>) {
    predicate Valid() {
      && Short(mailbox)
      && if lastdata == None then lastoffset == 0
         else lastoffset <= |Data(lastdata.value)| <= 0xFFFF
    }

    function AtHand(): seq<byte> {
      Left(lastdata, lastoffset)
    }

    /** Everything posted that has not been read. */
    function Unread(): seq<byte> {
      AtHand() + AllData(mailbox)
    }

    /** What a read finds first: the rest of the packet at hand, or else the first packet posted. */
    function First(): seq<byte> {
      if lastdata.Some? then AtHand() else if mailbox != [] then Bytes(mailbox[0]) else []
    }
  }

  /** netconn_recv_tcp_pbuf, and keeping what it returns. It refuses after a fatal error, and gives up
      when nothing has come in time. */
  method FetchPacket(r: Reader, fatal: bool) returns (r': Reader, fetch: Fetch)
    requires r.Valid() && r.lastdata == None
    ensures r'.Valid() && r'.Unread() == r.Unread()
    ensures fetch == if fatal || r.mailbox == [] then Failed else if r.mailbox[0].Arrived? then Fetched else Closed
    ensures r'.mailbox == if fetch == Failed then r.mailbox else r.mailbox[1..]
    ensures r'.lastdata == if fetch == Fetched then Some(r.mailbox[0].packet) else None
    ensures fetch == Fetched ==> r'.AtHand() == Bytes(r.mailbox[0])
  {
    if fatal || r.mailbox == [] {
      return r, Failed;
    }
    var m := r.mailbox[0];
    if m == Close {
      return r.(mailbox := r.mailbox[1..]), Closed;
    }
    assert Data(m.packet)[0..] == Data(m.packet);
    r', fetch := Reader(Some(m.packet), 0, r.mailbox[1..]), Fetched;
  }

  /** Copying from the packet at hand, and moving on in it or freeing it unless peeking. */
  method TakeSome(r: Reader, len: nat, peek: bool) returns (r': Reader, piece: seq<byte>)
    requires r.Valid() && r.lastdata.Some?
    ensures r'.Valid() && r'.mailbox == r.mailbox
    ensures piece <= r.AtHand() && |piece| == Min(len, |r.AtHand()|)
    ensures if peek then r' == r else piece + r'.AtHand() == r.AtHand()
    ensures !peek ==> if |piece| < len || piece == r.AtHand() then r'.lastdata == None else r'.lastdata == r.lastdata
  {
    var p := r.lastdata.value;
    var buflen: nat := |Data(p)| - r.lastoffset;
    var copylen := if len > buflen then buflen else len;
    piece := PbufCopy.CopyPartial(p.chain, copylen, r.lastoffset);
    SliceOfLeft(Data(p), r.lastoffset, copylen);
    r' := r;
    if !peek {
      if buflen - copylen > 0 {
        r' := r.(lastoffset := r.lastoffset + copylen);
      } else {
        r' := r.(lastdata := None, lastoffset := 0);
      }
    }
  }

  /** The part of the loop behind the fetch: bytes are added to what has been read. */
  method TakeMore(r: Reader, mem: seq<byte>, left: nat, peek: bool, ghost was: seq<byte>) returns (r': Reader, mem': seq<byte>)
    requires r.Valid() && r.lastdata.Some? && Kept(r, mem, peek, was) && (peek ==> mem == [])
    ensures r'.Valid() && r'.mailbox == r.mailbox && Kept(r', mem', peek, was)
    ensures |mem'| == |mem| + Min(left, |r.AtHand()|)
    ensures !peek && |mem'| < |mem| + left ==> r'.lastdata == None
  {
    var piece;
    r', piece := TakeSome(r, left, peek);
    mem' := mem + piece;
    Chunks(mem, piece, r'.AtHand(), r.AtHand(), AllData(r.mailbox));
  }

  /** What has been read and what is unread make up what was there, or nothing has been taken. */
  predicate Kept(r: Reader, mem: seq<byte>, peek: bool, was: seq<byte>) {
    if peek then r.Unread() == was && mem <= was else mem + r.Unread() == was
  }

  /** What lwip_recvfrom does to a socket. Before the i-th fetch idle(i) tells whether no event is
      counted and fatal(i) whether the connection has failed; drained(i) is the test behind the i-th
      copy. `credited` is handed to netconn_recved on the way out. */
  ghost predicate Reads(r: Reader, r': Reader, len: nat, peek: bool, dontwait: bool,
                        idle: nat -> bool, fatal: nat -> bool, drained: nat -> bool,
                        result: int, mem: seq<byte>, credited: nat, why: Why) {
    // the bytes
    && credited == |mem| <= len && Kept(r', mem, peek, r.Unread())
    && (credited == |r.Unread()| - |r'.Unread()| <==> !peek || mem == [])
    && result == (if mem == [] && (why == WouldBlock || why == NoPacket(Failed)) then -1 else |mem|)
    // what is there at once is read
    && (r.lastdata.Some? || (!(dontwait && idle(0)) && !fatal(0)) ==> |mem| >= Min(len, |r.First()|))
    // and otherwise the read fails, or reports the end of the stream
    && (r.lastdata == None && dontwait && idle(0) ==> mem == [] && why == WouldBlock)
    && (r.lastdata == None && !(dontwait && idle(0)) && (fatal(0) || r.mailbox == []) ==> mem == [] && why == NoPacket(Failed))
    && (r.lastdata == None && !(dontwait && idle(0)) && !fatal(0) && r.mailbox != [] && r.mailbox[0] == Close ==>
          mem == [] && why == NoPacket(Closed))
    // it stops for the reason it gives, and leaves nothing of a packet unless the buffer is full
    && Stopped(why, r, r', |mem|, len, peek, dontwait, idle, fatal, drained)
    && (!peek && |mem| < len ==> r'.lastdata == None)
  }

  /** The reason a read gives for ending holds. */
  ghost predicate Stopped(why: Why, r: Reader, r': Reader, got: nat, len: nat, peek: bool, dontwait: bool,
                          idle: nat -> bool, fatal: nat -> bool, drained: nat -> bool) {
    match why
    case Full => got == len
    case Pushed => SomePush(r)
    case Drained => exists i :: drained(i)
    case Peeked => peek
    case WouldBlock => dontwait && exists i :: idle(i)
    case NoPacket(Closed) => Close in r.mailbox
    case NoPacket(Failed) => r'.mailbox == [] || exists i :: fatal(i)
    case NoPacket(Fetched) => false
  }

  /** Between two turns of the loop: i of them are over and none has ended the read. */
  ghost predicate Reading(r0: Reader, r: Reader, i: nat, mem: seq<byte>, len: nat, peek: bool, dontwait: bool,
                          idle: nat -> bool, fatal: nat -> bool) {
    && r.Valid() && |mem| <= len && Kept(r, mem, peek, r0.Unread()) && (peek ==> mem == [])
    && (SomePush(r) ==> SomePush(r0)) && (Close in r.mailbox ==> Close in r0.mailbox)
    && if i == 0 then r == r0 && mem == []
       else !peek && r.lastdata == None && |mem| < len && Begun(r0, mem, len, dontwait, idle, fatal)
  }

  /** The first turn has found something, and taken what it could of it. */
  ghost predicate Begun(r0: Reader, mem: seq<byte>, len: nat, dontwait: bool, idle: nat -> bool, fatal: nat -> bool) {
    && (r0.lastdata.Some? || (!(dontwait && idle(0)) && !fatal(0) && r0.mailbox != [] && r0.mailbox[0].Arrived?))
    && |mem| >= Min(len, |r0.First()|)
  }

  /** lwip_recvfrom on a TCP socket. */
  method ReadStream(r: Reader, len: nat, peek: bool, dontwait: bool, idle: nat -> bool, fatal: nat -> bool, drained: nat -> bool)
    returns (r': Reader, result: int, mem: seq<byte>, credited: nat, why: Why)
    requires r.Valid()
    ensures r'.Valid() && Reads(r, r', len, peek, dontwait, idle, fatal, drained, result, mem, credited, why)
  {
    r', mem := r, [];
    var i := 0;
    while true
      invariant Reading(r, r', i, mem, len, peek, dontwait, idle, fatal)
      decreases |r'.mailbox| + if r'.lastdata.Some? then 1 else 0
    {
      var next, j, data, done, reason := Turn(r', i, mem, len, peek, dontwait, idle, fatal, drained, r);
      if done {
        why := reason;
        result, mem, credited := ReturnSoFar(data, if why == WouldBlock || why == NoPacket(Failed) then -1 else 0);
        return next, result, mem, credited, why;
      }
      r', mem, i := next, data, j;
    }
  }

  /** In a turn: a packet is at hand. */
  ghost predicate Holding(r0: Reader, r: Reader, i: nat, mem: seq<byte>, len: nat, peek: bool, dontwait: bool,
                          idle: nat -> bool, fatal: nat -> bool) {
    && r.Valid() && r.lastdata.Some? && |mem| <= len && Kept(r, mem, peek, r0.Unread()) && (peek ==> mem == [])
    && (SomePush(r) ==> SomePush(r0)) && (Close in r.mailbox ==> Close in r0.mailbox)
    && if i == 0 then mem == [] && r.AtHand() == r0.First()
         && (r0.lastdata.Some? || (!(dontwait && idle(0)) && !fatal(0) && r0.mailbox != [] && r0.mailbox[0].Arrived?))
       else !peek && Begun(r0, mem, len, dontwait, idle, fatal)
  }

  /** One turn of the loop. */
  method Turn(r: Reader, i: nat, mem: seq<byte>, len: nat, peek: bool, dontwait: bool,
              idle: nat -> bool, fatal: nat -> bool, drained: nat -> bool, ghost r0: Reader)
    returns (r': Reader, i': nat, mem': seq<byte>, done: bool, why: Why)
    requires Reading(r0, r, i, mem, len, peek, dontwait, idle, fatal)
    ensures !done ==>
      && i' == i + 1 && Reading(r0, r', i', mem', len, peek, dontwait, idle, fatal)
      && |r'.mailbox| + (if r'.lastdata.Some? then 1 else 0) < |r.mailbox| + if r.lastdata.Some? then 1 else 0
    ensures done ==> r'.Valid() && Ended(r0, r', mem', len, peek, dontwait, idle, fatal, drained, why)
  {
    r', done, why := Obtain(r, i, mem, len, peek, dontwait, idle, fatal, drained, r0);
    i', mem' := i + 1, mem;
    if !done {
      r', mem', done, why := Take(r', i, mem, len, peek, dontwait, idle, fatal, drained, r0, i');
    }
  }

  /** The first part of a turn: without a packet at hand one is fetched, or the read ends. */
  method Obtain(r: Reader, i: nat, mem: seq<byte>, len: nat, peek: bool, dontwait: bool,
                idle: nat -> bool, fatal: nat -> bool, ghost drained: nat -> bool, ghost r0: Reader)
    returns (r': Reader, done: bool, why: Why)
    requires Reading(r0, r, i, mem, len, peek, dontwait, idle, fatal)
    ensures !done ==>
      && Holding(r0, r', i, mem, len, peek, dontwait, idle, fatal)
      && |r'.mailbox| + 1 <= |r.mailbox| + if r.lastdata.Some? then 1 else 0
    ensures done ==> r'.Valid() && Ended(r0, r', mem, len, peek, dontwait, idle, fatal, drained, why)
  {
    r', done, why := r, false, Full;
    if r'.lastdata == None {
      if dontwait && idle(i) {
        done, why := true, WouldBlock;
        return;
      }
      var fetch;
      r', fetch := FetchPacket(r', fatal(i));
      if fetch != Fetched {
        done, why := true, NoPacket(fetch);
      }
    }
  }

  /** The second part: bytes are taken from it, and the tests for the end are made. */
  method Take(r: Reader, i: nat, mem: seq<byte>, len: nat, peek: bool, ghost dontwait: bool,
              ghost idle: nat -> bool, ghost fatal: nat -> bool, drained: nat -> bool, ghost r0: Reader, ghost i': nat)
    returns (r': Reader, mem': seq<byte>, done: bool, why: Why)
    requires Holding(r0, r, i, mem, len, peek, dontwait, idle, fatal) && i' == i + 1
    ensures !done ==> Reading(r0, r', i', mem', len, peek, dontwait, idle, fatal) && r'.mailbox == r.mailbox
    ensures done ==> r'.Valid() && Ended(r0, r', mem', len, peek, dontwait, idle, fatal, drained, why)
  {
    var push := r.lastdata.value.push;
    r', mem' := TakeMore(r, mem, len - |mem|, peek, r0.Unread());
    var left := len - |mem'|;
    done := left == 0 || push || drained(i) || peek;
    why := if left == 0 then Full else if push then Pushed else if drained(i) then Drained else Why.Peeked;
  }

  /** The read is over: Reads, before the result and the credit are worked out. */
  ghost predicate Ended(r: Reader, r': Reader, mem: seq<byte>, len: nat, peek: bool, dontwait: bool,
                        idle: nat -> bool, fatal: nat -> bool, drained: nat -> bool, why: Why) {
    && |mem| <= len && Kept(r', mem, peek, r.Unread())
    && (if mem == [] && (why == WouldBlock || why.NoPacket?) then NothingAtOnce(r, len, dontwait, idle, fatal, why)
        else Begun(r, mem, len, dontwait, idle, fatal))
    && Stopped(why, r, r', |mem|, len, peek, dontwait, idle, fatal, drained)
    && (!peek && |mem| < len ==> r'.lastdata == None)
  }

  /** The first turn, or a later one after empty packets, has ended the read without a byte. */
  ghost predicate NothingAtOnce(r: Reader, len: nat, dontwait: bool, idle: nat -> bool, fatal: nat -> bool, why: Why) {
    || Begun(r, [], len, dontwait, idle, fatal)
    || (r.lastdata == None && if dontwait && idle(0) then why == WouldBlock
        else if fatal(0) || r.mailbox == [] then why == NoPacket(Failed)
        else r.mailbox[0] == Close && why == NoPacket(Closed))
  }

  class Socket {
    var lastdata: Option<Packet>
    var lastoffset: nat
    var mailbox: seq<Message>

    function Now(): Reader reads this {
      Reader(lastdata, lastoffset, mailbox)
    }

    constructor ()
      ensures Now().Valid() && Now() == Reader(None, 0, [])
    {
      lastdata, lastoffset, mailbox := None, 0, [];
    }

    /** The stack posts a message. */
    method Post(m: Message)
      requires Now().Valid() && |Bytes(m)| <= 0xFFFF
      modifies this
      ensures Now().Valid() && Now() == old(Now()).(mailbox := old(mailbox) + [m])
      ensures Now().Unread() == old(Now().Unread()) + Bytes(m)
    {
      AllDataMore(mailbox, m);
      mailbox := mailbox + [m];
    }

    /** lwip_recvfrom */
    method RecvFrom(len: nat, peek: bool, dontwait: bool, idle: nat -> bool, fatal: nat -> bool, drained: nat -> bool)
      returns (result: int, mem: seq<byte>, credited: nat, why: Why)
      requires Now().Valid()
      modifies this
      ensures Now().Valid()
      ensures Reads(old(Now()), Now(), len, peek, dontwait, idle, fatal, drained, result, mem, credited, why)
    {
      var r;
      r, result, mem, credited, why := ReadStream(Reader(lastdata, lastoffset, mailbox), len, peek, dontwait, idle, fatal, drained);
      lastdata, lastoffset, mailbox := r.lastdata, r.lastoffset, r.mailbox;
    }
  }

  /** Some packet at hand or posted is pushed. */
  predicate SomePush(r: Reader) {
    (r.lastdata.Some? && r.lastdata.value.push) || exists m | m in r.mailbox :: m.Arrived? && m.packet.push
  }

  function Min(a: nat, b: nat): nat {
    if a < b then a else b
  }

  /** The ways out of lwip_recvfrom: what was read so far is credited and returned, otherwise the
      given result. */
  method ReturnSoFar(mem: seq<byte>, otherwise: int) returns (result: int, r: seq<byte>, credited: nat)
    requires otherwise == 0 || otherwise == -1
    ensures r == mem && credited == |mem|
    ensures result == if |mem| > 0 then |mem| else otherwise
  {
    r, credited, result := mem, 0, otherwise;
    if |mem| > 0 {
      credited, result := |mem|, |mem|;
    }
  }

  lemma {:induction false} AllDataMore(q: seq<Message>, p: Message)
    ensures AllData(q + [p]) == AllData(q) + Bytes(p)
  {
    if q == [] {
      assert q + [p] == [p] && |[p][1..]| == 0;
    } else {
      assert (q + [p])[1..] == q[1..] + [p];
      AllDataMore(q[1..], p);
    }
  }

  lemma {:induction false} Chunks(mem: seq<byte>, piece: seq<byte>, left: seq<byte>, had: seq<byte>, rest: seq<byte>)
    ensures piece + left == had ==> mem + (had + rest) == (mem + piece) + (left + rest)
    ensures piece <= had && mem == [] ==> mem + piece <= had + rest
  {
    if piece + left == had {
      assert had + rest == piece + (left + rest);
    }
  }

  lemma {:induction false} SliceOfLeft(d: seq<byte>, o: nat, n: nat)
    requires o + n <= |d|
    ensures PbufCopy.Slice(d, o, n) == d[o..o + n]
    ensures d[o..o + n] + d[o + n..] == d[o..]
  {
  }

  /** One post, read or peek: the posted bytes, or the returned ones. */
  datatype Action = Posted(data: seq<byte>) | Read(data: seq<byte>) | Peeked(data: seq<byte>)

  function AllPosted(a: seq<Action>): seq<byte> {
    if a == [] then [] else (if a[0].Posted? then a[0].data else []) + AllPosted(a[1..])
  }

  function AllRead(a: seq<Action>): seq<byte> {
    if a == [] then [] else (if a[0].Read? then a[0].data else []) + AllRead(a[1..])
  }

  /** What all reads and peeks credit to the receive window. */
  function AllCredited(a: seq<Action>): nat {
    if a == [] then 0 else (if a[0].Posted? then 0 else |a[0].data|) + AllCredited(a[1..])
  }

  predicate PeeksNothing(a: seq<Action>) {
    a == [] || ((a[0].Peeked? ==> a[0].data == []) && PeeksNothing(a[1..]))
  }

  /** What Post and RecvFrom promise of the unread bytes. */
  predicate Follows(before: seq<byte>, a: Action, after: seq<byte>) {
    match a
    case Posted(data) => after == before + data
    case Read(data) => data + after == before
    case Peeked(data) => after == before && data <= before
  }

  predicate Story(unread: seq<seq<byte>>, a: seq<Action>) {
    |unread| == |a| + 1 && forall i | 0 <= i < |a| :: Follows(unread[i], a[i], unread[i + 1])
  }

  lemma {:induction false} StoryRest(unread: seq<seq<byte>>, a: seq<Action>)
    requires Story(unread, a) && a != []
    ensures Story(unread[1..], a[1..]) && Follows(unread[0], a[0], unread[1])
  {
    var u, t := unread[1..], a[1..];
    forall i | 0 <= i < |t| ensures Follows(u[i], t[i], u[i + 1]) {
      assert Follows(unread[i + 1], a[i + 1], unread[i + 2]);
    }
  }

  lemma {:induction false} OneAction(before: seq<byte>, a: Action, after: seq<byte>, r: seq<byte>, p: seq<byte>, rest: seq<byte>)
    requires Follows(before, a, after) && r + rest == after + p
    ensures ((if a.Read? then a.data else []) + r) + rest == before + ((if a.Posted? then a.data else []) + p)
  {
    match a
    case Posted(data) =>
      assert [] + r == r && before + (data + p) == after + p;
    case Read(data) =>
      assert [] + p == p && data + (r + rest) == (data + r) + rest && data + (after + p) == before + p;
    case Peeked(data) =>
      assert [] + r == r && [] + p == p;
  }

  /** Over any interleaving of posts, reads and peeks, what has been read followed by what is unread
      is the posted stream: nothing is lost, repeated or reordered. */
  lemma {:induction false} FlatStream(unread: seq<seq<byte>>, a: seq<Action>)
    requires Story(unread, a)
    ensures AllRead(a) + unread[|a|] == unread[0] + AllPosted(a)
  {
    if a != [] {
      StoryRest(unread, a);
      FlatStream(unread[1..], a[1..]);
      OneAction(unread[0], a[0], unread[1], AllRead(a[1..]), AllPosted(a[1..]), unread[|a|]);
    }
  }

  /** What has been credited to the receive window is what has been consumed, exactly if no peek
      returned anything: peeked bytes are credited, and again when they are read. */
  lemma {:induction false} CreditExact(unread: seq<seq<byte>>, a: seq<Action>)
    requires Story(unread, a)
    ensures AllCredited(a) >= |AllRead(a)| == |unread[0]| + |AllPosted(a)| - |unread[|a|]|
    ensures AllCredited(a) == |AllRead(a)| <==> PeeksNothing(a)
  {
    FlatStream(unread, a);
    CreditedReads(a);
  }

  lemma {:induction false} CreditedReads(a: seq<Action>)
    ensures AllCredited(a) >= |AllRead(a)| && (AllCredited(a) == |AllRead(a)| <==> PeeksNothing(a))
  {
    if a != [] {
      CreditedReads(a[1..]);
    }
  }
}
