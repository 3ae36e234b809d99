/** The delta list of timers.c: each timeout stores the time behind the one in front of it. It
    stands for absolute deadlines on the clock of time waited at the mailbox. */
module Timers {
  /** struct sys_timeo */
  datatype Timeo = Timeo(time: nat, handler: nat, arg: nat)

  /** A timeout by its deadline. */
  datatype Entry = Entry(due: nat, handler: nat, arg: nat)

  /** The deadlines a delta list stands for when `now` has been waited. */
  function Due(l: seq<Timeo>, now: nat): seq<Entry>
    decreases l
  {
    if l == [] then []
    else [Entry(now + l[0].time, l[0].handler, l[0].arg)] + Due(l[1..], now + l[0].time)
  }

  /** The queue with e behind everything that is due no later: equal deadlines stay in the order in
      which they were set. */
  function Insert(q: seq<Entry>, e: Entry): seq<Entry> {
    if q == [] || q[0].due > e.due then [e] + q else [q[0]] + Insert(q[1..], e)
  }

  /** The queue without its first entry for the handler and argument. */
  function Cancel(q: seq<Entry>, handler: nat, arg: nat): seq<Entry> {
    if q == [] then []
    else if q[0].handler == handler && q[0].arg == arg then q[1..]
    else [q[0]] + Cancel(q[1..], handler, arg)
  }

  predicate Ordered(q: seq<Entry>) {
    forall i, j | 0 <= i < j < |q| :: q[i].due <= q[j].due
  }

  function Total(l: seq<Timeo>): nat {
    if l == [] then 0 else l[0].time + Total(l[1..])
  }

  lemma {:induction false} DueConcat(a: seq<Timeo>, b: seq<Timeo>, now: nat)
    ensures Due(a + b, now) == Due(a, now) + Due(b, now + Total(a))
    decreases a
  {
    if a == [] {
      assert a + b == b;
    } else {
      assert (a + b)[1..] == a[1..] + b;
      DueConcat(a[1..], b, now + a[0].time);
    }
  }

  lemma {:induction false} DueBehind(a: seq<Timeo>, b: seq<Timeo>, now: nat, at: nat)
    requires at == now + Total(a)
    ensures Due(a + b, now) == Due(a, now) + Due(b, at)
  {
    DueConcat(a, b, now);
  }

  lemma {:induction false} TotalMore(l: seq<Timeo>, t: Timeo)
    ensures Total(l + [t]) == Total(l) + t.time
  {
    if l == [] {
      assert l + [t] == [t] && [t][1..] == [];
    } else {
      assert (l + [t])[1..] == l[1..] + [t];
      TotalMore(l[1..], t);
    }
  }

  /** A delta list is always in order of deadlines. */
  lemma {:induction false} DueOrdered(l: seq<Timeo>, now: nat)
    ensures Ordered(Due(l, now)) && |Due(l, now)| == |l|
    ensures forall i | 0 <= i < |l| :: now <= Due(l, now)[i].due <= now + Total(l)
    decreases l
  {
    if l != [] {
      DueOrdered(l[1..], now + l[0].time);
      var q := Due(l, now);
      assert q[1..] == Due(l[1..], now + l[0].time);
      forall i | 0 <= i < |l| ensures now <= q[i].due <= now + Total(l) {
        if i > 0 {
          assert q[i] == q[1..][i - 1];
        }
      }
      forall i, j | 0 <= i < j < |q| ensures q[i].due <= q[j].due {
        assert q[j] == q[1..][j - 1];
        if i > 0 {
          assert q[i] == q[1..][i - 1];
        }
      }
    }
  }

  /** Entries due no later are passed, the others are not. */
  lemma {:induction false} InsertBehind(a: seq<Entry>, b: seq<Entry>, e: Entry)
    requires forall i | 0 <= i < |a| :: a[i].due <= e.due
    requires b != [] ==> b[0].due > e.due
    ensures Insert(a + b, e) == a + [e] + b
  {
    if a == [] {
      assert a + b == b;
    } else {
      assert (a + b)[1..] == a[1..] + b;
      InsertBehind(a[1..], b, e);
      assert [a[0]] + (a[1..] + [e] + b) == a + [e] + b;
    }
  }

  /** Splitting a gap leaves what is behind it where it was. */
  lemma {:induction false} SplitGap(l: seq<Timeo>, k: nat, t: Timeo, now: nat)
    requires k <= |l| && (k < |l| ==> t.time < l[k].time)
    ensures var rest := if k < |l| then [l[k].(time := l[k].time - t.time)] + l[k + 1..] else [];
      Due(l[..k] + [t] + rest, now) == Insert(Due(l, now), Entry(now + Total(l[..k]) + t.time, t.handler, t.arg))
  {
    var rest := if k < |l| then [l[k].(time := l[k].time - t.time)] + l[k + 1..] else [];
    var at := now + Total(l[..k]);
    GapRest(l, k, t, at);
    GapFilled(l[..k], l[k..], t, rest, now, at, Entry(at + t.time, t.handler, t.arg));
    assert l == l[..k] + l[k..];
  }

  lemma {:induction false} GapFilled(front: seq<Timeo>, back: seq<Timeo>, t: Timeo, rest: seq<Timeo>, now: nat, at: nat, e: Entry)
    requires at == now + Total(front) && at <= e.due && Due([t] + rest, at) == [e] + Due(back, at)
    requires Due(back, at) != [] ==> Due(back, at)[0].due > e.due
    ensures Due(front + [t] + rest, now) == Insert(Due(front + back, now), e)
  {
    var a, b := Due(front, now), Due(back, at);
    assert front + [t] + rest == front + ([t] + rest);
    DueBehind(front, back, now, at);
    DueBehind(front, [t] + rest, now, at);
    DueOrdered(front, now);
    GapJoined(a, b, e);
  }

  lemma {:induction false} GapJoined(a: seq<Entry>, b: seq<Entry>, e: Entry)
    requires (forall i | 0 <= i < |a| :: a[i].due <= e.due) && (b != [] ==> b[0].due > e.due)
    ensures Insert(a + b, e) == a + ([e] + b)
  {
    InsertBehind(a, b, e);
    assert a + [e] + b == a + ([e] + b);
  }

  lemma {:induction false} GapRest(l: seq<Timeo>, k: nat, t: Timeo, at: nat)
    requires k <= |l| && (k < |l| ==> t.time < l[k].time)
    ensures var rest := if k < |l| then [l[k].(time := l[k].time - t.time)] + l[k + 1..] else [];
      Due([t] + rest, at) == [Entry(at + t.time, t.handler, t.arg)] + Due(l[k..], at)
    ensures Due(l[k..], at) != [] ==> Due(l[k..], at)[0].due > at + t.time
  {
    var rest := if k < |l| then [l[k].(time := l[k].time - t.time)] + l[k + 1..] else [];
    assert ([t] + rest)[1..] == rest;
    if k < |l| {
      assert rest[1..] == l[k + 1..] && l[k..][1..] == l[k + 1..];
    } else {
      assert l[k..] == [];
    }
  }

  lemma {:induction false} DueCancel(l: seq<Timeo>, k: nat, now: nat)
    requires k < |l|
    requires forall i | 0 <= i < k :: !(l[i].handler == l[k].handler && l[i].arg == l[k].arg)
    ensures var rest := if k + 1 < |l| then [l[k + 1].(time := l[k + 1].time + l[k].time)] + l[k + 2..] else [];
      Due(l[..k] + rest, now) == Cancel(Due(l, now), l[k].handler, l[k].arg)
    decreases k
  {
    var rest := if k + 1 < |l| then [l[k + 1].(time := l[k + 1].time + l[k].time)] + l[k + 2..] else [];
    if k == 0 {
      assert l[..0] + rest == rest;
      assert Due(l, now)[1..] == Due(l[1..], now + l[0].time);
      if |l| > 1 {
        assert rest[1..] == l[2..] && l[1..][1..] == l[2..];
      }
    } else {
      var t := l[1..];
      assert t[k - 1] == l[k];
      assert forall i | 0 <= i < k - 1 :: t[i] == l[i + 1];
      DueCancel(t, k - 1, now + l[0].time);
      assert (l[..k] + rest)[1..] == t[..k - 1] + rest;
      assert k + 1 < |l| ==> t[k] == l[k + 1] && t[k + 1..] == l[k + 2..];
      assert Due(l, now)[1..] == Due(t, now + l[0].time);
    }
  }

  lemma {:induction false} NoMatch(l: seq<Timeo>, handler: nat, arg: nat, now: nat)
    requires forall i | 0 <= i < |l| :: !(l[i].handler == handler && l[i].arg == arg)
    ensures Cancel(Due(l, now), handler, arg) == Due(l, now)
    decreases l
  {
    if l != [] {
      assert forall i | 0 <= i < |l[1..]| :: l[1..][i] == l[i + 1];
      NoMatch(l[1..], handler, arg, now + l[0].time);
      assert Due(l, now)[1..] == Due(l[1..], now + l[0].time);
      assert Due(l, now) == [Due(l, now)[0]] + Due(l, now)[1..];
    }
  }

  // --------------------------------------------------------------- the module

  /** The pending timeouts and the time waited so far. */
  datatype Clocked = Clocked(next: seq<Timeo>, waited: nat) {
    function Pending(): seq<Entry> {
      Due(next, waited)
    }
  }

  /** A timeout has been set: its deadline is placed on the clock of waited time, and no other one
      moves. */
  ghost predicate IsSet(c: Clocked, c': Clocked, msecs: nat, handler: nat, arg: nat) {
    c'.waited == c.waited && c'.Pending() == Insert(c.Pending(), Entry(c.waited + msecs, handler, arg))
  }

  /** The first timeout for the handler and argument is gone, and no other deadline has moved. */
  ghost predicate IsCancelled(c: Clocked, c': Clocked, handler: nat, arg: nat) {
    c'.waited == c.waited && c'.Pending() == Cancel(c.Pending(), handler, arg)
  }

  /** A message has come after `needed`; the first timeout is that much nearer, but not overdue. */
  ghost predicate HasWaited(c: Clocked, c': Clocked, needed: nat) {
    && c'.waited == c.waited + needed
    && (c.next == [] ==> c'.next == [])
    && (c.next != [] ==>
      var t := c.next[0];
      c'.next == [t.(time := if needed < t.time then t.time - needed else 0)] + c.next[1..])
  }

  /** The time of the first timeout has been waited, and it has been taken off. */
  ghost predicate HasFired(c: Clocked, c': Clocked, handler: nat, arg: nat) {
    && c.next != [] && c.next[0].handler == handler && c.next[0].arg == arg
    && c' == Clocked(c.next[1..], c.waited + c.next[0].time)
  }

  /** What became of waiting at the mailbox: nothing came in the time allowed, or a message after
      the given time. */
  datatype Wait = Timeout | Message(needed: nat)

  class TimeoutList {
    var next: seq<Timeo>
    ghost var waited: nat

    ghost function Now(): Clocked reads this {
      Clocked(next, waited)
    }

    constructor ()
      ensures Now() == Clocked([], 0)
    {
      next, waited := [], 0;
    }

    /** sys_timeout */
    method SysTimeout(msecs: nat, handler: nat, arg: nat, memory: bool)
      modifies this
      ensures if memory then IsSet(old(Now()), Now(), msecs, handler, arg) else Now() == old(Now())
    {
      if !memory {
        return;
      }
      next := Inserted(next, Timeo(msecs, handler, arg), waited);
    }

    /** sys_untimeout */
    method SysUntimeout(handler: nat, arg: nat)
      modifies this
      ensures IsCancelled(old(Now()), Now(), handler, arg)
    {
      next := Removed(next, handler, arg, waited);
    }

    /** One round of sys_timeouts_mbox_fetch, given what the mailbox did. */
    method Round(wait: Wait) returns (fired: bool, handler: nat, arg: nat)
      requires next == [] ==> wait.Message?
      requires next != [] && next[0].time == 0 ==> wait == Timeout
      modifies this
      ensures fired <==> wait == Timeout
      ensures fired ==> HasFired(old(Now()), Now(), handler, arg)
      ensures !fired ==> HasWaited(old(Now()), Now(), wait.needed)
    {
      fired, handler, arg := false, 0, 0;
      if next == [] {
        waited := waited + wait.needed;
      } else if wait == Timeout {
        var t := next[0];
        waited := waited + t.time;
        next := next[1..];
        fired, handler, arg := true, t.handler, t.arg;
      } else {
        waited := waited + wait.needed;
        if wait.needed < next[0].time {
          next := next[0 := next[0].(time := next[0].time - wait.needed)];
        } else {
          next := next[0 := next[0].(time := 0)];
        }
      }
    }
  }

  /** The insertion of sys_timeout. */
  method Inserted(l: seq<Timeo>, timeout: Timeo, ghost now: nat) returns (r: seq<Timeo>)
    ensures Due(r, now) == Insert(Due(l, now), Entry(now + timeout.time, timeout.handler, timeout.arg))
  {
    if l == [] {
      assert [timeout][1..] == [];
      return [timeout];
    }
    if l[0].time > timeout.time {
      SplitGap(l, 0, timeout, now);
      assert l[..0] + [timeout] + ([l[0].(time := l[0].time - timeout.time)] + l[1..])
          == [timeout, l[0].(time := l[0].time - timeout.time)] + l[1..];
      return [timeout, l[0].(time := l[0].time - timeout.time)] + l[1..];
    }
    var t, left := 0, timeout.time;
    while true
      invariant 0 <= t < |l| && left == timeout.time - Total(l[..t]) && left >= l[t].time
      decreases |l| - t
    {
      left := left - l[t].time;
      assert l[..t + 1] == l[..t] + [l[t]];
      TotalMore(l[..t], l[t]);
      if t + 1 == |l| || l[t + 1].time > left {
        SplitGap(l, t + 1, timeout.(time := left), now);
        var rest := l[t + 1..];
        if rest != [] {
          rest := [rest[0].(time := rest[0].time - left)] + rest[1..];
        }
        return l[..t + 1] + [timeout.(time := left)] + rest;
      }
      t := t + 1;
    }
  }

  /** The removal of sys_untimeout. */
  method Removed(l: seq<Timeo>, handler: nat, arg: nat, ghost now: nat) returns (r: seq<Timeo>)
    ensures Due(r, now) == Cancel(Due(l, now), handler, arg)
  {
    var t := 0;
    while t < |l|
      invariant 0 <= t <= |l|
      invariant forall i | 0 <= i < t :: !(l[i].handler == handler && l[i].arg == arg)
    {
      if l[t].handler == handler && l[t].arg == arg {
        DueCancel(l, t, now);
        var rest := l[t + 1..];
        if rest != [] {
          rest := [rest[0].(time := rest[0].time + l[t].time)] + rest[1..];
        }
        return l[..t] + rest;
      }
      t := t + 1;
    }
    NoMatch(l, handler, arg, now);
    r := l;
  }

  // ---------------------------------------------------------------------- runs

  /** A message leaves all deadlines where they are exactly if the mailbox did not let it take
      longer than it was asked to wait. */
  lemma {:induction false} WaitingKeeps(c: Clocked, c': Clocked, needed: nat)
    requires HasWaited(c, c', needed) && c.next != []
    ensures c'.Pending() == c.Pending() <==> needed <= c.next[0].time
  {
    assert c'.next[1..] == c.next[1..];
    assert c'.Pending()[0].due == c'.waited + c'.next[0].time && c.Pending()[0].due == c.waited + c.next[0].time;
  }

  /** A timeout that fires does so at its deadline, and no other deadline moves. */
  lemma {:induction false} FiringKeeps(c: Clocked, c': Clocked, handler: nat, arg: nat)
    requires HasFired(c, c', handler, arg)
    ensures c.Pending() == [Entry(c'.waited, handler, arg)] + c'.Pending()
  {
  }

  lemma {:induction false} EqualsStayInOrder(q: seq<Entry>, e: Entry) returns (k: nat)
    requires Ordered(q)
    ensures k <= |q| && Insert(q, e) == q[..k] + [e] + q[k..]
    ensures (forall i | 0 <= i < k :: q[i].due <= e.due) && (forall i | k <= i < |q| :: q[i].due > e.due)
  {
    k := 0;
    while k < |q| && q[k].due <= e.due
      invariant 0 <= k <= |q| && forall i | 0 <= i < k :: q[i].due <= e.due
    {
      k := k + 1;
    }
    assert q == q[..k] + q[k..];
    InsertBehind(q[..k], q[k..], e);
  }

  /** Setting adds one timeout and loses none. */
  lemma {:induction false} InsertAdds(q: seq<Entry>, e: Entry)
    ensures multiset(Insert(q, e)) == multiset(q) + multiset{e}
  {
    if q != [] && q[0].due <= e.due {
      InsertAdds(q[1..], e);
      assert q == [q[0]] + q[1..];
    }
  }

  /** The entry that a cancellation removes, if there is one. */
  function Removal(q: seq<Entry>, handler: nat, arg: nat): multiset<Entry> {
    if q == [] then multiset{}
    else if q[0].handler == handler && q[0].arg == arg then multiset{q[0]}
    else Removal(q[1..], handler, arg)
  }

  lemma {:induction false} CancelRemoves(q: seq<Entry>, handler: nat, arg: nat)
    ensures multiset(q) == multiset(Cancel(q, handler, arg)) + Removal(q, handler, arg)
    ensures forall e | e in Removal(q, handler, arg) :: e.handler == handler && e.arg == arg
    ensures |Removal(q, handler, arg)| <= 1
  {
    if q != [] {
      assert q == [q[0]] + q[1..];
      CancelRemoves(q[1..], handler, arg);
    }
  }

  /** A cancellation removes the first entry for the handler and argument, if there is one, and no
      other. */
  lemma {:induction false} FirstGoes(q: seq<Entry>, handler: nat, arg: nat) returns (k: nat)
    ensures k <= |q| && forall i | 0 <= i < k :: q[i].handler != handler || q[i].arg != arg
    ensures if k == |q| then Cancel(q, handler, arg) == q && Removal(q, handler, arg) == multiset{}
      else
        && q[k].handler == handler && q[k].arg == arg
        && Cancel(q, handler, arg) == q[..k] + q[k + 1..] && Removal(q, handler, arg) == multiset{q[k]}
  {
    if q == [] || (q[0].handler == handler && q[0].arg == arg) {
      k := 0;
    } else {
      var l := FirstGoes(q[1..], handler, arg);
      k := l + 1;
      assert forall i | 0 < i < |q| :: q[i] == q[1..][i - 1];
      if l < |q[1..]| {
        assert q[..k] == [q[0]] + q[1..][..l] && q[k + 1..] == q[1..][l + 1..];
      }
    }
  }

  datatype Event =
    | Set(msecs: nat, handler: nat, arg: nat)
    | Cancelled(handler: nat, arg: nat)
    | Waited(needed: nat)
    | Fired(handler: nat, arg: nat)

  /** One call or one round; the mailbox is truthful: a message does not come later than asked. */
  ghost predicate Step(c: Clocked, e: Event, c': Clocked) {
    match e
    case Set(msecs, handler, arg) => IsSet(c, c', msecs, handler, arg)
    case Cancelled(handler, arg) => IsCancelled(c, c', handler, arg)
    case Waited(needed) => HasWaited(c, c', needed) && (c.next != [] ==> needed <= c.next[0].time)
    case Fired(handler, arg) => HasFired(c, c', handler, arg)
  }

  ghost predicate Run(cs: seq<Clocked>, es: seq<Event>) {
    |cs| == |es| + 1 && cs[0] == Clocked([], 0) && forall i | 0 <= i < |es| :: Step(cs[i], es[i], cs[i + 1])
  }

  /** What an event asks for, with the time it is to be waited for. */
  function Asks(c: Clocked, e: Event): multiset<Entry> {
    if e.Set? then multiset{Entry(c.waited + e.msecs, e.handler, e.arg)} else multiset{}
  }

  /** What an event fires, with the time that has been waited by then. */
  function Fires(e: Event, c': Clocked): multiset<Entry> {
    if e.Fired? then multiset{Entry(c'.waited, e.handler, e.arg)} else multiset{}
  }

  /** What an event cancels. */
  function Cancels(c: Clocked, e: Event): multiset<Entry> {
    if e.Cancelled? then Removal(c.Pending(), e.handler, e.arg) else multiset{}
  }

  function Asked(cs: seq<Clocked>, es: seq<Event>, n: nat): multiset<Entry>
    requires n <= |es| < |cs|
  {
    if n == 0 then multiset{} else Asked(cs, es, n - 1) + Asks(cs[n - 1], es[n - 1])
  }

  function HaveFired(cs: seq<Clocked>, es: seq<Event>, n: nat): multiset<Entry>
    requires n <= |es| < |cs|
  {
    if n == 0 then multiset{} else HaveFired(cs, es, n - 1) + Fires(es[n - 1], cs[n])
  }

  function WereCancelled(cs: seq<Clocked>, es: seq<Event>, n: nat): multiset<Entry>
    requires n <= |es| < |cs|
  {
    if n == 0 then multiset{} else WereCancelled(cs, es, n - 1) + Cancels(cs[n - 1], es[n - 1])
  }

  lemma {:induction false} FireBalances(c: Clocked, c': Clocked, handler: nat, arg: nat)
    requires HasFired(c, c', handler, arg)
    ensures multiset(c.Pending()) == multiset(c'.Pending()) + multiset{Entry(c'.waited, handler, arg)}
  {
    var x := Entry(c'.waited, handler, arg);
    FiringKeeps(c, c', handler, arg);
    assert multiset([x] + c'.Pending()) == multiset{x} + multiset(c'.Pending());
  }

  /** What goes in and what comes out in one event. */
  ghost predicate Balanced(c: Clocked, e: Event, c': Clocked) {
    multiset(c.Pending()) + Asks(c, e) == multiset(c'.Pending()) + Cancels(c, e) + Fires(e, c')
  }

  lemma {:induction false} SetBalances(c: Clocked, e: Event, c': Clocked)
    requires e.Set? && IsSet(c, c', e.msecs, e.handler, e.arg)
    ensures Balanced(c, e, c')
  {
    var n := Entry(c.waited + e.msecs, e.handler, e.arg);
    InsertAdds(c.Pending(), n);
    assert Asks(c, e) == multiset{n} && Cancels(c, e) == multiset{} && Fires(e, c') == multiset{};
    assert multiset(c'.Pending()) == multiset(c.Pending()) + multiset{n};
  }

  lemma {:induction false} CancelBalances(c: Clocked, e: Event, c': Clocked)
    requires e.Cancelled? && IsCancelled(c, c', e.handler, e.arg)
    ensures Balanced(c, e, c')
  {
    CancelRemoves(c.Pending(), e.handler, e.arg);
  }

  lemma {:induction false} WaitBalances(c: Clocked, e: Event, c': Clocked)
    requires e.Waited? && HasWaited(c, c', e.needed) && (c.next != [] ==> e.needed <= c.next[0].time)
    ensures Balanced(c, e, c')
  {
    if c.next != [] {
      WaitingKeeps(c, c', e.needed);
    }
  }

  lemma {:induction false} StepBalances(c: Clocked, e: Event, c': Clocked)
    requires Step(c, e, c')
    ensures Balanced(c, e, c')
  {
    match e
    case Set(_, _, _) => SetBalances(c, e, c');
    case Cancelled(_, _) => CancelBalances(c, e, c');
    case Waited(_) => WaitBalances(c, e, c');
    case Fired(handler, arg) => FireBalances(c, c', handler, arg);
  }

  lemma {:induction false} RunBalances(cs: seq<Clocked>, es: seq<Event>, i: nat, j: nat)
    requires Run(cs, es) && j == i + 1 <= |es|
    ensures Balanced(cs[i], es[i], cs[j])
  {
    StepBalances(cs[i], es[i], cs[j]);
  }

  lemma {:induction false} Balance(asked: multiset<Entry>, asks: multiset<Entry>, p: multiset<Entry>, p': multiset<Entry>,
                                   gone: multiset<Entry>, cancels: multiset<Entry>, fired: multiset<Entry>, fires: multiset<Entry>)
    requires asked == p + gone + fired && p + asks == p' + cancels + fires
    ensures asked + asks == p' + (gone + cancels) + (fired + fires)
  {
    assert asked + asks == (p + asks) + gone + fired;
  }

  /** What was asked for in the first n events is what is pending, what was cancelled and what has
      fired. */
  ghost predicate Even(cs: seq<Clocked>, es: seq<Event>, n: nat)
    requires n <= |es| < |cs|
  {
    Asked(cs, es, n) == multiset(cs[n].Pending()) + WereCancelled(cs, es, n) + HaveFired(cs, es, n)
  }

  lemma {:induction false} EvenStart(cs: seq<Clocked>, es: seq<Event>)
    requires |es| < |cs| && cs[0] == Clocked([], 0)
    ensures Even(cs, es, 0)
  {
    assert cs[0].Pending() == [];
  }

  lemma {:induction false} EvenStep(cs: seq<Clocked>, es: seq<Event>, n: nat, n': nat)
    requires n' == n + 1 <= |es| < |cs| && Even(cs, es, n) && Balanced(cs[n], es[n], cs[n'])
    ensures Even(cs, es, n')
  {
    var c, e, c' := cs[n], es[n], cs[n'];
    Balance(Asked(cs, es, n), Asks(c, e), multiset(c.Pending()), multiset(c'.Pending()),
            WereCancelled(cs, es, n), Cancels(c, e), HaveFired(cs, es, n), Fires(e, c'));
  }

  lemma {:induction false} StaysEven(cs: seq<Clocked>, es: seq<Event>, n: nat, n': nat)
    requires Run(cs, es) && n' == n + 1 <= |es| && Even(cs, es, n)
    ensures Even(cs, es, n')
  {
    RunBalances(cs, es, n, n');
    EvenStep(cs, es, n, n');
  }

  /** In every run with a truthful mailbox what was asked for is what is pending, what was cancelled
      and what has fired, each with its own deadline: none is lost, repeated, early or late. */
  lemma {:induction false} NoneLost(cs: seq<Clocked>, es: seq<Event>, n: nat)
    requires Run(cs, es) && n <= |es|
    ensures Even(cs, es, n)
  {
    if n == 0 {
      EvenStart(cs, es);
    } else {
      NoneLost(cs, es, n - 1);
      StaysEven(cs, es, n - 1, n);
    }
  }

  lemma {:induction false} AskedFor(cs: seq<Clocked>, es: seq<Event>, n: nat, x: Entry) returns (k: nat)
    requires n <= |es| < |cs| && x in Asked(cs, es, n)
    ensures k < n && es[k].Set? && es[k].handler == x.handler && es[k].arg == x.arg && x.due == cs[k].waited + es[k].msecs
  {
    if x in Asked(cs, es, n - 1) {
      k := AskedFor(cs, es, n - 1, x);
    } else {
      k := n - 1;
    }
  }

  lemma {:induction false} FiredBefore(cs: seq<Clocked>, es: seq<Event>, n: nat, i: nat)
    requires n <= |es| < |cs| && i < n && es[i].Fired?
    ensures Entry(cs[i + 1].waited, es[i].handler, es[i].arg) in HaveFired(cs, es, n)
  {
    if i < n - 1 {
      FiredBefore(cs, es, n - 1, i);
    }
  }

  /** Whatever fires was set earlier, and fires when exactly the time it was set for has been waited
      since. */
  lemma {:induction false} FiresOnTime(cs: seq<Clocked>, es: seq<Event>, i: nat) returns (k: nat)
    requires Run(cs, es) && i < |es| && es[i].Fired?
    ensures k < i && es[k].Set? && es[k].handler == es[i].handler && es[k].arg == es[i].arg
    ensures cs[i + 1].waited == cs[k].waited + es[k].msecs
  {
    var x := Entry(cs[i + 1].waited, es[i].handler, es[i].arg);
    WasAsked(cs, es, i + 1, i);
    k := AskedFor(cs, es, i + 1, x);
  }

  lemma {:induction false} WasAsked(cs: seq<Clocked>, es: seq<Event>, n: nat, i: nat)
    requires Run(cs, es) && i < n <= |es| && es[i].Fired?
    ensures Entry(cs[i + 1].waited, es[i].handler, es[i].arg) in Asked(cs, es, n)
  {
    FiredBefore(cs, es, n, i);
    NoneLost(cs, es, n);
    var all := multiset(cs[n].Pending()) + WereCancelled(cs, es, n) + HaveFired(cs, es, n);
    assert Entry(cs[i + 1].waited, es[i].handler, es[i].arg) in all;
  }

  /** Waited time never runs back, and nothing pending is overdue: timeouts fire in the order of
      their deadlines. */
  lemma {:induction false} FiresInOrder(cs: seq<Clocked>, es: seq<Event>, i: nat, j: nat)
    requires Run(cs, es) && i <= j <= |es|
    ensures cs[i].waited <= cs[j].waited
    ensures Ordered(cs[j].Pending()) && forall k | 0 <= k < |cs[j].Pending()| :: cs[j].waited <= cs[j].Pending()[k].due
    decreases j
  {
    DueOrdered(cs[j].next, cs[j].waited);
    if i < j {
      FiresInOrder(cs, es, i, j - 1);
      assert Step(cs[j - 1], es[j - 1], cs[j]);
    }
  }
}
