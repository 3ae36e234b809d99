/** The operations of a TCP netconn as the stack's thread runs them: the handlers of api_msg.c for
    write, connect, close and delete, and the callbacks that finish what they could not finish at
    once. One application call is outstanding at a time; it sleeps on op_completed. */
module Netconn {
  import opened Words
  import opened Options

  datatype State = Idle | Write | Listen | Connect | Close

  datatype Err = Ok | Mem | WouldBlock | InProgress | IsConn | Conn | Clsd | Val | Other

  /** struct api_msg_msg: the call, the bytes to write if it is a write, and whether it may block. */
  datatype Call = Call(id: nat, data: seq<byte>, dontblock: bool)

  /** What a call returned, and what tcp_write had taken of its bytes by then. */
  datatype Result = Result(id: nat, err: Err, data: seq<byte>, sent: seq<byte>)

  /** struct netconn, with the bytes tcp_write has taken during the write in progress, the call
      the application sleeps in, the number of signals on op_completed, and all results so far. */
  datatype Connection = Connection(
    state: State, pcb: bool, connecting: bool, currentMsg: Option<Call>, inNonblockingConnect: bool,
    writeOffset: nat, fatal: bool, sent: seq<byte>, waiting: Option<nat>, signals: nat, results: seq<Result>,
    nextId: nat)

  predicate Busy(c: Connection) {
    c.state == Write || c.state == Close || (c.state == Connect && !c.inNonblockingConnect)
  }

  /** Calls are answered in the order in which they were made, each once. */
  predicate Numbered(r: seq<Result>) {
    forall i | 0 <= i < |r| :: r[i].id == i && Honest(r[i])
  }

  /** A write that reports success has handed over all its bytes; in every case what tcp_write
      took is a prefix. */
  predicate Honest(r: Result) {
    r.sent <= r.data && (r.err == Ok ==> r.sent == r.data)
  }

  predicate Inv(c: Connection) {
    && (c.currentMsg.Some? <==> Busy(c))
    && (c.state == Write || c.state == Close || c.state == Connect ==> c.pcb)
    && (c.connecting <==> c.state == Connect)
    && (c.inNonblockingConnect ==> c.state == Connect || !c.pcb)
    && Numbered(c.results) && |c.results| + (if c.currentMsg.Some? then 1 else 0) == c.nextId
    && (c.currentMsg.Some? ==>
      c.currentMsg.value.id == c.nextId - 1 && c.waiting == Some(c.currentMsg.value.id) && c.signals == 0)
    && (c.currentMsg == None && c.waiting.Some? ==> c.signals == 1 && c.waiting.value == c.nextId - 1)
    && (c.waiting == None ==> c.signals == 0)
    && (c.state == Write ==>
      var d := c.currentMsg.value.data; c.writeOffset < |d| && c.sent == d[..c.writeOffset])
    && (c.state != Write && c.currentMsg.Some? ==> c.currentMsg.value.data == [] && c.sent == [])
  }

  /** The call in progress ends with err and its thread is woken. */
  function Finish(c: Connection, err: Err): Connection
    requires c.currentMsg.Some?
  {
    var m := c.currentMsg.value;
    c.(state := Idle, currentMsg := None, signals := c.signals + 1,
       results := c.results + [Result(m.id, err, m.data, c.sent)])
  }

  /** A handler answers its message without having started anything. */
  function Answer(c: Connection, err: Err): Connection
    requires c.waiting.Some?
  {
    c.(signals := c.signals + 1, results := c.results + [Result(c.waiting.value, err, [], [])])
  }

  /** The application makes a call and goes to sleep. */
  function Called(c: Connection): Connection {
    c.(waiting := Some(c.nextId), nextId := c.nextId + 1)
  }

  // ------------------------------------------------------------------ handlers

  /** How much do_writemore offers to tcp_write. */
  function Offer(left: nat, available: nat): nat {
    var len := if left > 0xFFFF then 0xFFFF else left;
    if available < len then available else len
  }

  /** What a round of a write comes to, given the send buffer, whether the connection is
      nonblocking by now, and what tcp_write would return. A write that may not block is given up
      when it cannot be handed over in one piece. */
  function Verdict(c: Connection, available: nat, nonblocking: bool, tcpWrite: Err): Err
    requires c.currentMsg.Some? && c.writeOffset <= |c.currentMsg.value.data|
  {
    var m := c.currentMsg.value;
    if (nonblocking || m.dontblock) && (Offer(|m.data| - c.writeOffset, available) < |m.data| || tcpWrite == Mem) then
      WouldBlock
    else tcpWrite
  }

  /** The write goes on with the next bytes taken, ends with the last of them, waits for memory, or
      ends with an error. */
  ghost predicate Wrote(c: Connection, c': Connection, available: nat, err: Err) {
    && c.state == Write && c.currentMsg.Some?
    && var d := c.currentMsg.value.data;
      && c.writeOffset <= |d|
      && var n := c.writeOffset + Offer(|d| - c.writeOffset, available);
        if err == Ok then
          var taken := c.(sent := c.sent + d[c.writeOffset..n], writeOffset := n);
          c' == if n == |d| then Finish(taken, Ok).(writeOffset := 0) else taken
        else if err == Mem then c' == c
        else c' == Finish(c, err)
  }

  /** do_writemore. tcp_write takes all of what it is offered or nothing. */
  method DoWritemore(c: Connection, available: nat, nonblocking: bool, tcpWrite: Err) returns (c': Connection)
    requires c.state == Write && c.currentMsg.Some? && c.writeOffset < |c.currentMsg.value.data|
    ensures Wrote(c, c', available, Verdict(c, available, nonblocking, tcpWrite))
  {
    var m := c.currentMsg.value;
    var dontblock := nonblocking || m.dontblock;
    var err := Ok;
    var len := Offer(|m.data| - c.writeOffset, available);
    if dontblock && len < |m.data| {
      err := Mem;
    }
    if err == Ok {
      err := tcpWrite;
    }
    var finished, n := false, c.writeOffset;
    if dontblock && err == Mem {
      finished := true;
      err := WouldBlock;
    } else if err == Ok {
      n := n + len;
      finished := n == |m.data|;
    } else if err != Mem {
      finished := true;
    }
    c' := Settle(c, n, finished, err);
  }

  /** The end of do_writemore: the offset is moved behind what tcp_write has taken, and a finished
      write wakes its caller. */
  method Settle(c: Connection, n: nat, finished: bool, err: Err) returns (c': Connection)
    requires c.currentMsg.Some? && c.writeOffset <= n <= |c.currentMsg.value.data|
    ensures
      var d := c.currentMsg.value.data;
      var t := if err == Ok then c.(sent := c.sent + d[c.writeOffset..n], writeOffset := n) else c;
      c' == if !finished then t
            else if err == Ok && n == |d| then Finish(t, err).(writeOffset := 0) else Finish(t, err)
  {
    var d := c.currentMsg.value.data;
    c' := c;
    if err == Ok {
      c' := c'.(sent := c'.sent + d[c'.writeOffset..n], writeOffset := n);
    }
    if finished {
      if err == Ok && n == |d| {
        c' := c'.(writeOffset := 0);
      }
      c' := Finish(c', err);
    }
  }

  /** A write that ends leaves its offset behind exactly when some bytes had been taken before this
      round and now either it may not block or tcp_write fails for another reason than memory. */
  lemma {:induction false} OffsetAfterWrite(c: Connection, c': Connection, available: nat, nonblocking: bool, tcpWrite: Err)
    requires c.state == Write && c.currentMsg.Some? && c.writeOffset < |c.currentMsg.value.data|
    requires Wrote(c, c', available, Verdict(c, available, nonblocking, tcpWrite))
    ensures c'.state == Idle && c'.writeOffset != 0 <==>
      c.writeOffset > 0 && (nonblocking || c.currentMsg.value.dontblock || (tcpWrite != Ok && tcpWrite != Mem))
  {
  }

  /** A write call under way. */
  function Writing(c: Connection, data: seq<byte>, dontblock: bool): Connection {
    Called(c).(state := Write, currentMsg := Some(Call(c.nextId, data, dontblock)), writeOffset := 0, sent := [])
  }

  /** What do_write makes of a write call: it is refused exactly after a fatal error, while
      something else is under way, or without a control block; otherwise its first round is run. */
  ghost predicate WriteCalled(c: Connection, c': Connection, data: seq<byte>, dontblock: bool,
                              nonblocking: bool, available: nat, tcpWrite: Err) {
    if c.fatal then c' == Answer(Called(c), Other)
    else if c.state != Idle then c' == Answer(Called(c), InProgress)
    else if !c.pcb then c' == Answer(Called(c), Conn)
    else
      var n := Writing(c, data, dontblock);
      Wrote(n, c', available, Verdict(n, available, nonblocking, tcpWrite))
  }

  /** do_write */
  method DoWrite(c: Connection, data: seq<byte>, dontblock: bool, nonblocking: bool, available: nat, tcpWrite: Err)
    returns (c': Connection)
    requires data != []
    ensures WriteCalled(c, c', data, dontblock, nonblocking, available, tcpWrite)
  {
    var b := Called(c);
    if b.fatal {
      return Answer(b, Other);
    }
    if b.state != Idle {
      return Answer(b, InProgress);
    }
    if !b.pcb {
      return Answer(b, Conn);
    }
    b := b.(state := Write, currentMsg := Some(Call(c.nextId, data, dontblock)), writeOffset := 0, sent := []);
    c' := DoWritemore(b, available, nonblocking, tcpWrite);
  }

  /** The error do_connect refuses with, or Ok when the connection is being opened. */
  function ConnectVerdict(c: Connection, tcpConnect: Err): Err {
    if !c.pcb then Clsd else if c.state != Idle then IsConn else tcpConnect
  }

  /** What do_connect makes of a connect call: refused, under way, or under way with nobody
      waiting. */
  ghost predicate ConnectCalled(c: Connection, c': Connection, nonblocking: bool, tcpConnect: Err) {
    var b, err := Called(c), ConnectVerdict(c, tcpConnect);
    var n := b.(state := Connect, connecting := true, inNonblockingConnect := nonblocking);
    if err != Ok then c' == Answer(b, err)
    else if nonblocking then c' == Answer(n, InProgress)
    else c' == n.(currentMsg := Some(Call(c.nextId, [], false)), sent := [])
  }

  /** do_connect; tcpConnect is what tcp_connect returns. */
  method DoConnect(c: Connection, nonblocking: bool, tcpConnect: Err) returns (c': Connection)
    ensures ConnectCalled(c, c', nonblocking, tcpConnect)
  {
    var b := Called(c);
    if !b.pcb {
      return Answer(b, Clsd);
    }
    if b.state != Idle {
      return Answer(b, IsConn);
    }
    if tcpConnect != Ok {
      return Answer(b, tcpConnect);
    }
    c' := b.(state := Connect, connecting := true, inNonblockingConnect := nonblocking);
    if nonblocking {
      c' := Answer(c', InProgress);
    } else {
      c' := c'.(currentMsg := Some(Call(c.nextId, [], false)), sent := []);
    }
  }

  /** The error do_listen refuses with, or Ok when the connection listens. */
  function ListenVerdict(c: Connection, listening: bool, mbox: Err): Err {
    if c.fatal then Other else if !c.pcb || c.state != Idle then Conn else if !listening then Mem else mbox
  }

  /** A listen call is always answered at once. The control block is lost exactly when only the
      mailbox for new connections could not be had. */
  ghost predicate ListenCalled(c: Connection, c': Connection, listening: bool, mbox: Err) {
    var b, err := Called(c), ListenVerdict(c, listening, mbox);
    var reached := !c.fatal && c.pcb && c.state == Idle && listening;
    c' == Answer(b.(state := if err == Ok then Listen else c.state, pcb := c.pcb && (reached ==> mbox == Ok)), err)
  }

  /** do_listen; listening tells whether the listening control block could be allocated, mbox
      what came of the mailbox for new connections. */
  method DoListen(c: Connection, listening: bool, mbox: Err) returns (c': Connection)
    ensures ListenCalled(c, c', listening, mbox)
  {
    var b := Called(c);
    var err := Other;
    if !b.fatal {
      err := Conn;
      if b.pcb && b.state == Idle {
        if !listening {
          err := Mem;
        } else {
          err := mbox;
          if err == Ok {
            b := b.(state := Listen);
          } else {
            b := b.(pcb := false);
          }
        }
      }
    }
    c' := Answer(b, err);
  }

  /** do_connected, which TCP calls once for a connection being opened. */
  method DoConnected(c: Connection, err: Err) returns (c': Connection)
    requires Inv(c) && c.connecting
    ensures c' == Opened(c, err)
  {
    var wasBlocking := !c.inNonblockingConnect;
    c' := c.(inNonblockingConnect := false, state := Idle, connecting := false, currentMsg := None);
    if c.currentMsg.Some? {
      c' := c'.(results := c.results + [Result(c.currentMsg.value.id, err, c.currentMsg.value.data, c.sent)]);
    }
    if wasBlocking {
      c' := c'.(signals := c'.signals + 1);
    }
  }

  /** The connection attempt is over; only a blocking one has somebody to wake. */
  function Opened(c: Connection, err: Err): Connection
    requires c.connecting && (c.currentMsg.Some? <==> !c.inNonblockingConnect)
  {
    var n := if c.inNonblockingConnect then c else Finish(c, err);
    n.(state := Idle, connecting := false, inNonblockingConnect := false)
  }

  /** do_close_internal; tcpClose is what tcp_close or tcp_shutdown returns. */
  method DoCloseInternal(c: Connection, tcpClose: Err) returns (c': Connection)
    requires c.state == Close && c.pcb && c.currentMsg.Some?
    ensures c' == if tcpClose == Ok then Finish(c, Ok).(pcb := false) else c
  {
    c' := c;
    if tcpClose == Ok {
      var m := c'.currentMsg.value;
      c' := c'.(results := c'.results + [Result(m.id, Ok, m.data, c'.sent)]);
      c' := c'.(currentMsg := None, state := Idle, pcb := false, signals := c'.signals + 1);
    }
  }

  /** A close or delete call under way has been tried: done, or to be tried again. */
  ghost predicate CloseTried(c: Connection, c': Connection, tcpClose: Err) {
    var n := Called(c).(state := Close, currentMsg := Some(Call(c.nextId, [], false)), sent := [], connecting := false);
    c' == if tcpClose == Ok then Finish(n, Ok).(pcb := false) else n
  }

  /** What do_close makes of a close call; both tells whether both directions are shut down. */
  ghost predicate CloseCalled(c: Connection, c': Connection, both: bool, tcpClose: Err) {
    var b := Called(c);
    if c.state != Idle && c.state != Listen then c' == Answer(b, InProgress)
    else if !c.pcb then c' == Answer(b, Val)
    else if !both && c.state == Listen then c' == Answer(b, Conn)
    else CloseTried(c, c', tcpClose)
  }

  /** do_close */
  method DoClose(c: Connection, both: bool, tcpClose: Err) returns (c': Connection)
    requires !c.connecting || c.state == Connect
    ensures CloseCalled(c, c', both, tcpClose)
  {
    var b := Called(c);
    if b.state != Idle && b.state != Listen {
      return Answer(b, InProgress);
    }
    if !b.pcb {
      return Answer(b, Val);
    }
    if !both && b.state == Listen {
      return Answer(b, Conn);
    }
    b := b.(state := Close, currentMsg := Some(Call(c.nextId, [], false)), sent := []);
    c' := DoCloseInternal(b, tcpClose);
  }

  /** What do_delconn makes of a delete call: unlike a close it is let through while a connection is
      being opened. */
  ghost predicate DeleteCalled(c: Connection, c': Connection, tcpClose: Err) {
    var b := Called(c);
    if c.state == Write || c.state == Close then c' == Answer(b, InProgress)
    else if !c.pcb then c' == Answer(b, Ok)
    else CloseTried(c, c', tcpClose)
  }

  /** do_delconn. tcp_close cannot fail on a connection that is still being opened. */
  method DoDelconn(c: Connection, tcpClose: Err) returns (c': Connection)
    requires c.connecting ==> tcpClose == Ok
    ensures DeleteCalled(c, c', tcpClose)
  {
    var b := Called(c);
    if b.state != Idle && b.state != Listen && b.state != Connect {
      return Answer(b, InProgress);
    }
    if !b.pcb {
      return Answer(b, Ok);
    }
    b := b.(state := Close, currentMsg := Some(Call(c.nextId, [], false)), sent := [], connecting := false);
    c' := DoCloseInternal(b, tcpClose);
  }

  // ----------------------------------------------------------------- callbacks

  /** What sent_tcp and poll_tcp do for the call in progress: one more round of a write, one more
      attempt to close. */
  ghost predicate Retried(c: Connection, c': Connection, available: nat, nonblocking: bool, tcpWrite: Err, tcpClose: Err) {
    if c.state == Write then
      && c.currentMsg.Some? && c.writeOffset <= |c.currentMsg.value.data|
      && Wrote(c, c', available, Verdict(c, available, nonblocking, tcpWrite))
    else if c.state == Close && tcpClose == Ok then c.currentMsg.Some? && c' == Finish(c, Ok).(pcb := false)
    else c' == c
  }

  method Retry(c: Connection, available: nat, nonblocking: bool, tcpWrite: Err, tcpClose: Err) returns (c': Connection)
    requires Inv(c)
    ensures Retried(c, c', available, nonblocking, tcpWrite, tcpClose)
  {
    c' := c;
    if c.state == Write {
      c' := DoWritemore(c, available, nonblocking, tcpWrite);
    } else if c.state == Close {
      c' := DoCloseInternal(c, tcpClose);
    }
  }

  /** err_tcp: the connection is gone. */
  method ErrTcp(c: Connection, err: Err) returns (c': Connection)
    requires Inv(c)
    ensures c' == Lost(c, err)
  {
    c' := c.(pcb := false, fatal := true, connecting := false);
    var oldState := c'.state;
    c' := c'.(state := Idle);
    if oldState == Write || oldState == Close || oldState == Connect {
      var wasNonblockingConnect := c'.inNonblockingConnect;
      c' := c'.(inNonblockingConnect := false);
      if !wasNonblockingConnect {
        var m := c'.currentMsg.value;
        c' := c'.(results := c'.results + [Result(m.id, err, m.data, c'.sent)]);
        c' := c'.(currentMsg := None, signals := c'.signals + 1);
      }
    }
  }

  /** Whoever waits is told, and nobody is who does not. */
  function Lost(c: Connection, err: Err): Connection {
    var n := c.(pcb := false, fatal := true, connecting := false);
    var m := if c.currentMsg.Some? then Finish(n, err) else n.(state := Idle);
    if c.state == Write || c.state == Close || c.state == Connect then m.(inNonblockingConnect := false) else m
  }

  /** The waiting thread takes the signal and returns to the application. */
  function Returned(c: Connection): Connection
    requires c.signals > 0
  {
    c.(signals := c.signals - 1, waiting := None)
  }

  // ---------------------------------------------------------------------- runs

  /** What happens in the stack's thread, with what the layers below return, or the application
      waking up. */
  datatype Event =
    | CallWrite(data: seq<byte>, dontblock: bool, nonblocking: bool, available: nat, tcpWrite: Err)
    | CallConnect(nonblocking: bool, tcpConnect: Err)
    | CallListen(listening: bool, mbox: Err)
    | CallClose(both: bool, tcpClose: Err)
    | CallDelete(tcpClose: Err)
    | Callback(available: nat, nonblocking: bool, tcpWrite: Err, tcpClose: Err)
    | Connected(err: Err)
    | Aborted(err: Err)
    | Wake

  ghost predicate Step(c: Connection, e: Event, c': Connection) {
    match e
    case CallWrite(data, dontblock, nonblocking, available, tcpWrite) =>
      c.waiting == None && data != [] && WriteCalled(c, c', data, dontblock, nonblocking, available, tcpWrite)
    case CallConnect(nonblocking, tcpConnect) => c.waiting == None && ConnectCalled(c, c', nonblocking, tcpConnect)
    case CallListen(listening, mbox) => c.waiting == None && ListenCalled(c, c', listening, mbox)
    case CallClose(both, tcpClose) => c.waiting == None && CloseCalled(c, c', both, tcpClose)
    case CallDelete(tcpClose) =>
      c.waiting == None && (c.connecting ==> tcpClose == Ok) && DeleteCalled(c, c', tcpClose)
    case Callback(available, nonblocking, tcpWrite, tcpClose) =>
      Retried(c, c', available, nonblocking, tcpWrite, tcpClose)
    case Connected(err) => c.connecting && (c.currentMsg.Some? <==> !c.inNonblockingConnect) && c' == Opened(c, err)
    case Aborted(err) => c' == Lost(c, err) && err != Ok
    case Wake => c.signals > 0 && c' == Returned(c)
  }

  /** What one event may do to the results: nothing, or add one with one signal. */
  predicate Grows(c: Connection, c': Connection) {
    || (c'.results == c.results && c'.signals == c.signals)
    || (|c'.results| == |c.results| + 1 && c'.results[..|c.results|] == c.results && c'.signals == c.signals + 1)
  }

  lemma {:induction false} WroteKeeps(c: Connection, c': Connection, available: nat, err: Err)
    requires Inv(c) && Wrote(c, c', available, err)
    ensures Inv(c') && Grows(c, c')
  {
    var d := c.currentMsg.value.data;
    var n := c.writeOffset + Offer(|d| - c.writeOffset, available);
    assert c.sent + d[c.writeOffset..n] == d[..n];
  }

  lemma {:induction false} WriteCallKeeps(c: Connection, c': Connection, data: seq<byte>, dontblock: bool,
                                          nonblocking: bool, available: nat, tcpWrite: Err)
    requires Inv(c) && c.waiting == None && data != []
    requires WriteCalled(c, c', data, dontblock, nonblocking, available, tcpWrite)
    ensures Inv(c') && Grows(c, c')
  {
    if !(c.fatal || c.state != Idle || !c.pcb) {
      var n := Writing(c, data, dontblock);
      WroteKeeps(n, c', available, Verdict(n, available, nonblocking, tcpWrite));
    }
  }

  lemma {:induction false} AnswerKeeps(c: Connection, b: Connection, err: Err)
    requires Inv(c) && c.waiting == None && b == Called(c).(state := b.state, pcb := b.pcb)
    requires b.state == c.state || (c.state == Idle && b.state == Listen)
    requires b.pcb == c.pcb || c.state == Idle || c.state == Listen
    requires b.pcb ==> c.pcb
    ensures Inv(Answer(b, err)) && Grows(c, Answer(b, err))
  {
  }

  lemma {:induction false} ConnectCallKeeps(c: Connection, c': Connection, nonblocking: bool, tcpConnect: Err)
    requires Inv(c) && c.waiting == None && ConnectCalled(c, c', nonblocking, tcpConnect)
    ensures Inv(c') && Grows(c, c')
  {
    AnswerKeeps(c, Called(c), ConnectVerdict(c, tcpConnect));
  }

  lemma {:induction false} ListenCallKeeps(c: Connection, c': Connection, listening: bool, mbox: Err)
    requires Inv(c) && c.waiting == None && ListenCalled(c, c', listening, mbox)
    ensures Inv(c') && Grows(c, c')
  {
    var b, err := Called(c), ListenVerdict(c, listening, mbox);
    var reached := !c.fatal && c.pcb && c.state == Idle && listening;
    AnswerKeeps(c, b.(state := if err == Ok then Listen else c.state, pcb := c.pcb && (reached ==> mbox == Ok)), err);
  }

  lemma {:induction false} CloseTriedKeeps(c: Connection, c': Connection, tcpClose: Err)
    requires Inv(c) && c.waiting == None && c.pcb && c.state != Write && c.state != Close
    requires CloseTried(c, c', tcpClose) && (c.connecting ==> tcpClose == Ok)
    ensures Inv(c') && Grows(c, c')
  {
  }

  lemma {:induction false} CloseCallKeeps(c: Connection, c': Connection, both: bool, tcpClose: Err)
    requires Inv(c) && c.waiting == None && CloseCalled(c, c', both, tcpClose)
    ensures Inv(c') && Grows(c, c')
  {
    if c.state != Idle && c.state != Listen {
      AnswerKeeps(c, Called(c), InProgress);
    } else if !c.pcb {
      AnswerKeeps(c, Called(c), Val);
    } else if !both && c.state == Listen {
      AnswerKeeps(c, Called(c), Conn);
    } else {
      CloseTriedKeeps(c, c', tcpClose);
    }
  }

  lemma {:induction false} DeleteCallKeeps(c: Connection, c': Connection, tcpClose: Err)
    requires Inv(c) && c.waiting == None && DeleteCalled(c, c', tcpClose) && (c.connecting ==> tcpClose == Ok)
    ensures Inv(c') && Grows(c, c')
  {
    if c.state == Write || c.state == Close {
      AnswerKeeps(c, Called(c), InProgress);
    } else if !c.pcb {
      AnswerKeeps(c, Called(c), Ok);
    } else {
      CloseTriedKeeps(c, c', tcpClose);
    }
  }

  lemma {:induction false} RetryKeeps(c: Connection, c': Connection, available: nat, nonblocking: bool, tcpWrite: Err, tcpClose: Err)
    requires Inv(c) && Retried(c, c', available, nonblocking, tcpWrite, tcpClose)
    ensures Inv(c') && Grows(c, c')
  {
    if c.state == Write {
      WroteKeeps(c, c', available, Verdict(c, available, nonblocking, tcpWrite));
    }
  }

  lemma {:induction false} OpenedKeeps(c: Connection, err: Err)
    requires Inv(c) && c.connecting
    ensures Inv(Opened(c, err)) && Grows(c, Opened(c, err))
  {
  }

  lemma {:induction false} LostKeeps(c: Connection, err: Err)
    requires Inv(c) && err != Ok
    ensures Inv(Lost(c, err)) && Grows(c, Lost(c, err))
  {
  }

  /** Every event keeps: the current message is set exactly while a write, a close or a blocking
      connect is in progress, and whoever sleeps is either in that call or signalled once. */
  lemma {:induction false} StepKeeps(c: Connection, e: Event, c': Connection)
    requires Inv(c) && Step(c, e, c')
    ensures Inv(c') && (e != Wake ==> Grows(c, c'))
  {
    match e
    case CallWrite(data, dontblock, nonblocking, available, tcpWrite) =>
      WriteCallKeeps(c, c', data, dontblock, nonblocking, available, tcpWrite);
    case CallConnect(nonblocking, tcpConnect) => ConnectCallKeeps(c, c', nonblocking, tcpConnect);
    case CallListen(listening, mbox) => ListenCallKeeps(c, c', listening, mbox);
    case CallClose(both, tcpClose) => CloseCallKeeps(c, c', both, tcpClose);
    case CallDelete(tcpClose) => DeleteCallKeeps(c, c', tcpClose);
    case Callback(available, nonblocking, tcpWrite, tcpClose) =>
      RetryKeeps(c, c', available, nonblocking, tcpWrite, tcpClose);
    case Connected(err) => OpenedKeeps(c, err);
    case Aborted(err) => LostKeeps(c, err);
    case Wake =>
  }

  // ------------------------------------------------------- what callers are told

  /** What is offered is the least of what is left, what fits into a length field and what the send
      buffer takes. */
  lemma {:induction false} OfferIsLeast(left: nat, available: nat)
    ensures Offer(left, available) <= left && Offer(left, available) <= 0xFFFF && Offer(left, available) <= available
    ensures Offer(left, available) == left || Offer(left, available) == 0xFFFF || Offer(left, available) == available
  {
  }

  /** What a round of a write tells its caller, `left` bytes of `total` being left: all is taken, it
      would have to wait, or what tcp_write says. */
  function RoundTells(left: nat, total: nat, mayBlock: bool, available: nat, tcpWrite: Err): Option<Err> {
    if !mayBlock then
      if left < total || available < total || total > 0xFFFF || tcpWrite == Mem then Some(WouldBlock) else Some(tcpWrite)
    else if tcpWrite == Ok then if left <= available && left <= 0xFFFF then Some(Ok) else None
    else if tcpWrite == Mem then None
    else Some(tcpWrite)
  }

  /** The error an event reports to the caller, if it reports one. */
  function Told(c: Connection, e: Event): Option<Err>
    requires Inv(c)
  {
    match e
    case CallWrite(data, dontblock, nonblocking, available, tcpWrite) =>
      if c.fatal then Some(Other) else if c.state != Idle then Some(InProgress) else if !c.pcb then Some(Conn)
      else RoundTells(|data|, |data|, !nonblocking && !dontblock, available, tcpWrite)
    case CallConnect(nonblocking, tcpConnect) =>
      if !c.pcb then Some(Clsd) else if c.state != Idle then Some(IsConn) else if tcpConnect != Ok then Some(tcpConnect)
      else if nonblocking then Some(InProgress) else None
    case CallListen(listening, mbox) =>
      if c.fatal then Some(Other) else if !c.pcb || c.state != Idle then Some(Conn) else if !listening then Some(Mem) else Some(mbox)
    case CallClose(both, tcpClose) =>
      if c.state != Idle && c.state != Listen then Some(InProgress) else if !c.pcb then Some(Val)
      else if !both && c.state == Listen then Some(Conn) else if tcpClose == Ok then Some(Ok) else None
    case CallDelete(tcpClose) =>
      if c.state == Write || c.state == Close then Some(InProgress)
      else if !c.pcb || tcpClose == Ok then Some(Ok) else None
    case Callback(available, nonblocking, tcpWrite, tcpClose) =>
      if c.state == Write then
        var m := c.currentMsg.value;
        RoundTells(|m.data| - c.writeOffset, |m.data|, !nonblocking && !m.dontblock, available, tcpWrite)
      else if c.state == Close && tcpClose == Ok then Some(Ok)
      else None
    case Connected(err) => if c.inNonblockingConnect then None else Some(err)
    case Aborted(err) => if c.currentMsg.Some? then Some(err) else None
    case Wake => None
  }

  /** The state after an event. */
  function StateAfter(c: Connection, e: Event): State
    requires Inv(c)
  {
    match e
    case CallWrite(_, _, _, _, _) =>
      if c.fatal || c.state != Idle || !c.pcb then c.state else if Told(c, e) == None then Write else Idle
    case CallConnect(_, tcpConnect) => if c.pcb && c.state == Idle && tcpConnect == Ok then Connect else c.state
    case CallListen(listening, mbox) =>
      if !c.fatal && c.pcb && c.state == Idle && listening && mbox == Ok then Listen else c.state
    case CallClose(both, tcpClose) =>
      if c.pcb && (c.state == Idle || (c.state == Listen && both)) then if tcpClose == Ok then Idle else Close else c.state
    case CallDelete(tcpClose) =>
      if c.pcb && c.state != Write && c.state != Close then if tcpClose == Ok then Idle else Close else c.state
    case Callback(_, _, _, tcpClose) =>
      if c.state == Write then if Told(c, e) == None then Write else Idle
      else if c.state == Close && tcpClose == Ok then Idle
      else c.state
    case Connected(_) => Idle
    case Aborted(_) => Idle
    case Wake => c.state
  }

  /** Whether the event gives up the control block. */
  predicate LosesPcb(c: Connection, e: Event)
    requires Inv(c)
  {
    match e
    case CallListen(listening, mbox) => !c.fatal && c.pcb && c.state == Idle && listening && mbox != Ok
    case CallClose(both, tcpClose) => (c.state == Idle || (c.state == Listen && both)) && tcpClose == Ok
    case CallDelete(tcpClose) => c.state != Write && c.state != Close && tcpClose == Ok
    case Callback(_, _, _, tcpClose) => c.state == Close && tcpClose == Ok
    case Aborted(_) => true
    case _ => false
  }

  /** c' has got from c to state and one more result, of the given error, or none. */
  predicate Reports(c: Connection, c': Connection, told: Option<Err>, state: State, pcb: bool) {
    && c'.state == state && c'.pcb == pcb
    && if told == None then c'.results == c.results && c'.signals == c.signals
       else
         && |c'.results| == |c.results| + 1 && c'.results[..|c.results|] == c.results
         && c'.results[|c.results|].err == told.value && c'.results[|c.results|].id == c'.nextId - 1
         && c'.signals == c.signals + 1
  }

  lemma {:induction false} WroteReports(c: Connection, c': Connection, available: nat, nonblocking: bool, tcpWrite: Err)
    requires Inv(c) && c.state == Write && Wrote(c, c', available, Verdict(c, available, nonblocking, tcpWrite))
    ensures var m := c.currentMsg.value;
      var told := RoundTells(|m.data| - c.writeOffset, |m.data|, !nonblocking && !m.dontblock, available, tcpWrite);
      && Reports(c, c', told, if told == None then Write else Idle, c.pcb)
      && c'.nextId == c.nextId
      && (told == None ==>
            c'.sent == m.data[..c.writeOffset + if tcpWrite == Ok then Offer(|m.data| - c.writeOffset, available) else 0])
  {
    var d := c.currentMsg.value.data;
    var n := c.writeOffset + Offer(|d| - c.writeOffset, available);
    assert c.sent + d[c.writeOffset..n] == d[..n];
  }

  lemma {:induction false} OpenReports(c: Connection, e: Event, c': Connection)
    requires Inv(c) && Step(c, e, c') && (e.CallConnect? || e.CallListen?)
    ensures Reports(c, c', Told(c, e), StateAfter(c, e), c.pcb && !LosesPcb(c, e))
  {
  }

  lemma {:induction false} CloseReports(c: Connection, e: Event, c': Connection)
    requires Inv(c) && Step(c, e, c') && (e.CallClose? || e.CallDelete?)
    ensures Reports(c, c', Told(c, e), StateAfter(c, e), c.pcb && !LosesPcb(c, e))
  {
  }

  lemma {:induction false} WriteReports(c: Connection, e: Event, c': Connection)
    requires Inv(c) && Step(c, e, c') && e.CallWrite?
    ensures Reports(c, c', Told(c, e), StateAfter(c, e), c.pcb && !LosesPcb(c, e))
  {
    if !(c.fatal || c.state != Idle || !c.pcb) {
      WroteReports(Writing(c, e.data, e.dontblock), c', e.available, e.nonblocking, e.tcpWrite);
    }
  }

  lemma {:induction false} CallbackReports(c: Connection, e: Event, c': Connection)
    requires Inv(c) && Step(c, e, c') && (e.Callback? || e.Connected? || e.Aborted?)
    ensures Reports(c, c', Told(c, e), StateAfter(c, e), c.pcb && !LosesPcb(c, e))
  {
    if e.Callback? && c.state == Write {
      WroteReports(c, c', e.available, e.nonblocking, e.tcpWrite);
    }
  }

  /** Every event tells the caller exactly what it should be told, once, and leaves the connection in
      the state that goes with it. */
  lemma {:induction false} StepReports(c: Connection, e: Event, c': Connection)
    requires Inv(c) && Step(c, e, c') && e != Wake
    ensures Reports(c, c', Told(c, e), StateAfter(c, e), c.pcb && !LosesPcb(c, e))
  {
    match e
    case CallWrite(_, _, _, _, _) => WriteReports(c, e, c');
    case CallConnect(_, _) => OpenReports(c, e, c');
    case CallListen(_, _) => OpenReports(c, e, c');
    case CallClose(_, _) => CloseReports(c, e, c');
    case CallDelete(_) => CloseReports(c, e, c');
    case _ => CallbackReports(c, e, c');
  }

  /** In every run each result is what the event that gave it told the caller. */
  lemma {:induction false} ResultsTold(cs: seq<Connection>, es: seq<Event>, n: nat, i: nat) returns (k: nat)
    requires Run(cs, es) && Fresh(cs[0]) && n <= |es| && i < |cs[n].results|
    ensures k < n && Inv(cs[k]) && |cs[k].results| == i && Told(cs[k], es[k]) == Some(cs[n].results[i].err)
  {
    var m := n - 1;
    RunKeeps(cs, es, m);
    assert Step(cs[m], es[m], cs[n]);
    if es[m] != Wake {
      StepReports(cs[m], es[m], cs[n]);
    }
    if i < |cs[m].results| {
      k := ResultsTold(cs, es, m, i);
      assert cs[n].results[i] == cs[m].results[i];
    } else {
      k := m;
    }
  }

  predicate Fresh(c: Connection) {
    c == Connection(Idle, c.pcb, false, None, false, 0, c.fatal, [], None, 0, [], 0)
  }

  ghost predicate Run(cs: seq<Connection>, es: seq<Event>) {
    |cs| == |es| + 1 && forall i | 0 <= i < |es| :: Step(cs[i], es[i], cs[i + 1])
  }

  lemma {:induction false} RunKeeps(cs: seq<Connection>, es: seq<Event>, n: nat)
    requires Run(cs, es) && Fresh(cs[0]) && n <= |es|
    ensures Inv(cs[n])
  {
    if n > 0 {
      RunKeeps(cs, es, n - 1);
      StepKeeps(cs[n - 1], es[n - 1], cs[n]);
    }
  }

  /** In every run: call number i has exactly one result once it is over, the i-th; at most the
      newest call is still in progress, exactly while the message is set; nobody has more than one
      signal waiting; and a write that succeeded has handed over all its bytes in order. */
  lemma {:induction false} CallsCompleteOnce(cs: seq<Connection>, es: seq<Event>)
    requires Run(cs, es) && Fresh(cs[0])
    ensures var c := cs[|es|];
      && (forall i | 0 <= i < |c.results| :: c.results[i].id == i && c.results[i].sent <= c.results[i].data)
      && (forall i | 0 <= i < |c.results| && c.results[i].err == Ok :: c.results[i].sent == c.results[i].data)
      && |c.results| == c.nextId - (if Busy(c) then 1 else 0) && (c.currentMsg.Some? <==> Busy(c))
      && c.signals == (if c.waiting.Some? && !Busy(c) then 1 else 0)
  {
    RunKeeps(cs, es, |es|);
  }

  lemma {:induction false} ResultsStep(cs: seq<Connection>, es: seq<Event>, i: nat)
    requires Run(cs, es) && Fresh(cs[0]) && i < |es|
    ensures cs[i].results <= cs[i + 1].results
  {
    RunKeeps(cs, es, i);
    StepKeeps(cs[i], es[i], cs[i + 1]);
  }

  lemma {:induction false} Longer(r: seq<seq<Result>>, i: nat, j: nat)
    requires i <= j < |r| && forall k | 0 < k < |r| :: r[k - 1] <= r[k]
    ensures r[i] <= r[j]
    decreases j
  {
    if i < j {
      Longer(r, i, j - 1);
      assert r[j - 1] <= r[j];
    }
  }

  /** Results are never taken back or changed. */
  lemma {:induction false} ResultsStand(cs: seq<Connection>, es: seq<Event>, i: nat, j: nat)
    requires Run(cs, es) && Fresh(cs[0]) && i <= j <= |es|
    ensures cs[i].results <= cs[j].results
  {
    var r := seq(|cs|, k requires 0 <= k < |cs| => cs[k].results);
    forall k | 0 < k < |r| ensures r[k - 1] <= r[k] {
      ResultsStep(cs, es, k - 1);
    }
    Longer(r, i, j);
  }

  /** A run that leaves an offset behind: of a blocking write of two bytes one is taken, then the
      application makes the connection nonblocking, and the next callback gives the write up. */
  lemma {:induction false} OffsetLeftExample() returns (cs: seq<Connection>, es: seq<Event>)
    ensures Run(cs, es) && Fresh(cs[0])
    ensures var c := cs[|es|]; c.state == Idle && c.writeOffset == 1
    ensures cs[|es|].results == [Result(0, WouldBlock, [1, 2], [1])]
  {
    var c0 := Connection(Idle, true, false, None, false, 0, false, [], None, 0, [], 0);
    var w := Writing(c0, [1, 2], false);
    var c1 := w.(writeOffset := 1, sent := [1]);
    assert w.sent + [1, 2][0..1] == [1];
    es := [CallWrite([1, 2], false, false, 1, Ok), Callback(1, true, Ok, Ok)];
    cs := [c0, c1, Finish(c1, WouldBlock)];
  }
}
