/** The wake-up protocol between lwip_select and event_callback, as a state machine whose steps
    are the protected sections of the code: any number of callers in select, any number of
    event_callback walks in progress, in every interleaving. */
module SelectWakeup {

  /** The event state of an open socket; `left` is a non-null lastdata. */
  datatype Sock = Sock(rcv: int, snd: bool, err: bool, left: bool, waiting: int)

  datatype Evt = RcvPlus | RcvMinus | SendPlus | SendMinus | Error

  /** Where a caller is in lwip_select. The loops carry their index, the scans also how many
      ready sockets they have counted. */
  datatype Pc =
    | Idle
    | Scan1(i: nat, ready: nat)
    | Enlist
    | Count(i: nat)
    | Scan2(i: nat, ready: nat)
    | Wait
    | Discount(i: nat)
    | Delist
    | Scan3(i: nat, ready: nat)

  /** A caller in lwip_select: the sets it watches below nfds, whether it may only poll, its
      semaphore and sem_signalled; `posts` counts every signal of the semaphore. The sets of a scan
      are what it has found; an idle caller has its last call's answer and sets. */
  datatype Caller = Caller(rd: set<nat>, wr: set<nat>, ex: set<nat>, nfds: nat, poll: bool,
                           pc: Pc, signalled: bool, sem: nat, posts: nat,
                           outR: set<nat>, outW: set<nat>, outE: set<nat>, timedOut: bool, answer: nat) {
    predicate Watches(f: nat) {
      f < nfds && (f in rd || f in wr || f in ex)
    }

    predicate Registered() {
      pc.Count? || pc.Scan2? || pc.Wait? || pc.Discount? || pc.Delist?
    }

    /** The caller has added itself to select_waiting of f and not yet taken itself off. */
    predicate CountedAt(f: nat) {
      Watches(f) && match pc
        case Count(i) => f < i
        case Scan2(_, _) => true
        case Wait => true
        case Discount(i) => i <= f
        case _ => false
    }

    /** The second scan has passed f without finding anything ready. */
    predicate ScannedPast(f: nat) {
      Watches(f) && (pc.Wait? || (pc.Scan2? && f < pc.i && pc.ready == 0))
    }
  }

  /** An event_callback walk between two of its steps: its socket, the list position it has
      processed and the list version it saw. */
  datatype Walk = Walk(f: nat, pos: nat, seen: nat)

  datatype State = State(socks: seq<Sock>, callers: map<nat, Caller>, walks: map<nat, Walk>, list: seq<nat>, ctr: nat)

  /** What event_callback tests of a list entry: an event of f that c asked for is pending.
      The test does not look at nfds. */
  predicate Pending(c: Caller, f: nat, k: Sock) {
    (k.rcv > 0 && f in c.rd) || (k.snd && f in c.wr) || (k.err && f in c.ex)
  }

  /** What lwip_selscan counts for one socket. */
  function Ready(c: Caller, f: nat, k: Sock): nat {
    (if f in c.rd && (k.left || k.rcv > 0) then 1 else 0)
    + (if f in c.wr && k.snd then 1 else 0)
    + (if f in c.ex && k.err then 1 else 0)
  }

  /** FD_ZERO of the three sets of a scan. */
  function Cleared(c: Caller): Caller {
    c.(outR := {}, outW := {}, outE := {})
  }

  /** lwip_selscan for one socket: what is ready goes into the sets of the scan. */
  function Scanned(c: Caller, f: nat, k: Sock): Caller {
    c.(outR := if f in c.rd && (k.left || k.rcv > 0) then c.outR + {f} else c.outR,
       outW := if f in c.wr && k.snd then c.outW + {f} else c.outW,
       outE := if f in c.ex && k.err then c.outE + {f} else c.outE)
  }

  datatype Action =
    | Call(c: nat, rd: set<nat>, wr: set<nat>, ex: set<nat>, nfds: nat, poll: bool)
    | Advance(c: nat)
    | Wake(c: nat)
    | Timeout(c: nat)
    | Event(w: nat, f: nat, evt: Evt)
    | WalkOn(w: nat)
    | Leftover(f: nat, left: bool)

  predicate Enabled(s: State, a: Action) {
    match a
    case Call(c, _, _, _, nfds, _) => (c in s.callers ==> s.callers[c].pc.Idle?) && nfds <= |s.socks|
    case Advance(c) => c in s.callers && !s.callers[c].pc.Idle? && !s.callers[c].pc.Wait?
    case Wake(c) => c in s.callers && s.callers[c].pc.Wait? && s.callers[c].sem > 0
    case Timeout(c) => c in s.callers && s.callers[c].pc.Wait?
    case Event(w, f, _) => w !in s.walks && f < |s.socks|
    case WalkOn(w) => w in s.walks
    case Leftover(f, _) => f < |s.socks|
  }

  /** The callback's event switch. */
  function Post(k: Sock, evt: Evt): Sock {
    match evt
    case RcvPlus => k.(rcv := k.rcv + 1)
    case RcvMinus => k.(rcv := k.rcv - 1)
    case SendPlus => k.(snd := true)
    case SendMinus => k.(snd := false)
    case Error => k.(err := true)
  }

  /** One list entry is looked at for socket f: signalled if it waits for a pending event. */
  function Visit(callers: map<nat, Caller>, c: nat, f: nat, k: Sock): map<nat, Caller> {
    if c in callers && !callers[c].signalled && Pending(callers[c], f, k)
    then callers[c := callers[c].(signalled := true, sem := callers[c].sem + 1, posts := callers[c].posts + 1)]
    else callers
  }

  /** A walk for f processes list position p, or ends there. */
  function WalkTo(s: State, w: nat, f: nat, p: nat): State
    requires f < |s.socks|
  {
    if p < |s.list|
    then s.(callers := Visit(s.callers, s.list[p], f, s.socks[f]), walks := s.walks[w := Walk(f, p, s.ctr)])
    else s.(walks := s.walks - {w})
  }

  /** What the next section of lwip_select does to the caller itself. */
  function NextCaller(k: Caller, socks: seq<Sock>): Caller
    requires k.nfds <= |socks|
  {
    match k.pc
    case Idle => k
    case Scan1(i, n) =>
      if i < k.nfds then Scanned(k, i, socks[i]).(pc := Scan1(i + 1, n + Ready(k, i, socks[i])))
      else if n > 0 || k.poll then k.(pc := Idle, answer := n)
      else k.(pc := Enlist)
    case Enlist => k.(pc := Count(0), signalled := false, sem := 0, posts := 0)
    case Count(i) => if i < k.nfds then k.(pc := Count(i + 1)) else Cleared(k).(pc := Scan2(0, 0))
    case Scan2(i, n) =>
      if i < k.nfds then Scanned(k, i, socks[i]).(pc := Scan2(i + 1, n + Ready(k, i, socks[i])))
      else k.(pc := if n > 0 then Discount(0) else Wait)
    case Wait => k
    case Discount(i) => k.(pc := if i < k.nfds then Discount(i + 1) else Delist)
    case Delist => if k.timedOut then k.(pc := Idle, answer := 0) else Cleared(k).(pc := Scan3(0, 0))
    case Scan3(i, n) =>
      if i < k.nfds then Scanned(k, i, socks[i]).(pc := Scan3(i + 1, n + Ready(k, i, socks[i])))
      else k.(pc := Idle, answer := n)
  }

  /** The next protected section of a caller in lwip_select. */
  function AdvanceCaller(s: State, c: nat): State
    requires c in s.callers && s.callers[c].nfds <= |s.socks|
  {
    var k := s.callers[c];
    s.(callers := s.callers[c := NextCaller(k, s.socks)], socks := NextSocks(k, s.socks), list := NextList(k, c, s.list),
       ctr := if k.pc.Enlist? || k.pc.Delist? then s.ctr + 1 else s.ctr)
  }

  /** ... to select_waiting of the socket it has come to, */
  function NextSocks(k: Caller, socks: seq<Sock>): seq<Sock>
    requires k.nfds <= |socks|
  {
    match k.pc
    case Count(i) => if i < k.nfds && k.Watches(i) then AddWaiting(socks, i, 1) else socks
    case Discount(i) => if i < k.nfds && k.Watches(i) then AddWaiting(socks, i, -1) else socks
    case _ => socks
  }

  /** ... and to the list of callers. */
  function NextList(k: Caller, c: nat, list: seq<nat>): seq<nat> {
    match k.pc
    case Enlist => [c] + list
    case Delist => Without(list, c)
    case _ => list
  }

  function AddWaiting(socks: seq<Sock>, f: nat, n: int): seq<Sock>
    requires f < |socks|
  {
    socks[f := socks[f].(waiting := socks[f].waiting + n)]
  }

  function Without(list: seq<nat>, c: nat): seq<nat> {
    if list == [] then [] else if list[0] == c then list[1..] else [list[0]] + Without(list[1..], c)
  }

  function Apply(s: State, a: Action): State
    requires Enabled(s, a) && Shaped(s)
  {
    match a
    case Call(c, rd, wr, ex, nfds, poll) =>
      s.(callers := s.callers[c := Caller(rd, wr, ex, nfds, poll, Scan1(0, 0), false, 0, 0, {}, {}, {}, false, 0)])
    case Advance(c) => AdvanceCaller(s, c)
    case Wake(c) => s.(callers := s.callers[c := s.callers[c].(sem := s.callers[c].sem - 1, pc := Discount(0))])
    case Timeout(c) => s.(callers := s.callers[c := s.callers[c].(pc := Discount(0), timedOut := true)])
    case Event(w, f, evt) =>
      var s' := s.(socks := s.socks[f := Post(s.socks[f], evt)]);
      if s.socks[f].waiting == 0 then s' else WalkTo(s', w, f, 0)
    case WalkOn(w) =>
      var k := s.walks[w];
      WalkTo(s, w, k.f, if k.seen != s.ctr then 0 else k.pos + 1)
    case Leftover(f, left) => s.(socks := s.socks[f := s.socks[f].(left := left)])
  }

  /** Indices are in range. */
  predicate Shaped(s: State) {
    && (forall c | c in s.callers :: s.callers[c].nfds <= |s.socks|)
    && (forall w | w in s.walks :: s.walks[w].f < |s.socks|)
  }

  // ---------------------------------------------------------------- the invariant

  predicate Distinct(list: seq<nat>) {
    list == [] || (list[0] !in list[1..] && Distinct(list[1..]))
  }

  /** The list holds exactly the registered callers, once each. */
  predicate Listed(s: State) {
    && Distinct(s.list)
    && (forall c | c in s.list :: c in s.callers)
    && (forall c | c in s.callers :: s.callers[c].Registered() <==> c in s.list)
  }

  /** A semaphore is signalled at most once, exactly when sem_signalled says so. */
  predicate Signals(k: Caller) {
    && k.posts == (if k.signalled then 1 else 0)
    && k.sem <= k.posts
    && (k.pc.Count? || k.pc.Scan2? || k.pc.Wait? ==> k.sem == k.posts)
  }

  function CountedCallers(callers: map<nat, Caller>, f: nat): set<nat> {
    set c | c in callers && callers[c].CountedAt(f)
  }

  /** select_waiting of every socket is the number of callers counted at it. */
  predicate Counts(s: State) {
    forall f | 0 <= f < |s.socks| :: s.socks[f].waiting == |CountedCallers(s.callers, f)|
  }

  /** No walk is ahead of the list version, and one that is up to date is inside the list: the
      entry it continues from has not been taken off. */
  predicate WalkOk(s: State, k: Walk) {
    k.seen <= s.ctr && (k.seen == s.ctr ==> k.pos < |s.list|)
  }

  /** The position of c in the list, or its length. */
  function IndexOf(list: seq<nat>, c: nat): (p: nat)
    ensures p <= |list| && (p < |list| <==> c in list) && (p < |list| ==> list[p] == c)
  {
    if list == [] || list[0] == c then 0 else 1 + IndexOf(list[1..], c)
  }

  /** A walk for f that must restart, or still has c ahead of it. */
  predicate WillVisit(s: State, k: Walk, c: nat, f: nat) {
    k.f == f && (k.seen != s.ctr || k.pos < IndexOf(s.list, c))
  }

  predicate Visited(s: State, c: nat, f: nat) {
    exists w | w in s.walks :: WillVisit(s, s.walks[w], c, f)
  }

  /** c has found nothing at f, is not signalled, and yet an event of f waits for it that no
      walk is going to bring. */
  predicate LostAt(s: State, c: nat, f: nat) {
    && c in s.callers && f < |s.socks|
    && s.callers[c].ScannedPast(f) && !s.callers[c].signalled && Pending(s.callers[c], f, s.socks[f])
    && !Visited(s, c, f)
  }

  /** No wake-up is lost. */
  ghost predicate NoneLost(s: State) {
    forall c: nat, f: nat :: !LostAt(s, c, f)
  }

  ghost predicate Inv(s: State) {
    && Shaped(s) && Listed(s) && Counts(s) && NoneLost(s)
    && (forall c | c in s.callers :: Signals(s.callers[c]))
    && (forall w | w in s.walks :: WalkOk(s, s.walks[w]))
  }

  // ---------------------------------------------------------------- the list

  lemma {:induction false} WithoutHolds(list: seq<nat>, c: nat)
    requires Distinct(list)
    ensures Distinct(Without(list, c))
    ensures forall x :: x in Without(list, c) <==> x in list && x != c
    ensures c in list ==> |Without(list, c)| == |list| - 1
  {
    if list != [] && list[0] != c {
      WithoutHolds(list[1..], c);
      assert ([list[0]] + Without(list[1..], c))[1..] == Without(list[1..], c);
    }
  }

  lemma {:induction false} VisitKeeps(callers: map<nat, Caller>, c: nat, f: nat, k: Sock)
    ensures var r := Visit(callers, c, f, k);
      && r.Keys == callers.Keys
      && (forall x | x in callers :: r[x].pc == callers[x].pc && r[x].nfds == callers[x].nfds
            && r[x].rd == callers[x].rd && r[x].wr == callers[x].wr && r[x].ex == callers[x].ex)
      && (forall x | x in callers && x != c :: r[x] == callers[x])
      && (forall x | x in callers :: r[x] == callers[x].(signalled := r[x].signalled, sem := r[x].sem, posts := r[x].posts))
      && (c in callers && !r[c].signalled ==> r[c] == callers[c] && !Pending(r[c], f, k))
      && (c in callers && Signals(callers[c]) ==> Signals(r[c]))
  {
  }

  lemma {:induction false} ListedEnlist(s: State, c: nat)
    requires Listed(s) && Shaped(s) && c in s.callers && s.callers[c].pc.Enlist?
    ensures Listed(AdvanceCaller(s, c))
  {
    var list := AdvanceCaller(s, c).list;
    assert list[0] == c && list[1..] == s.list;
  }

  lemma {:induction false} ListedDelist(s: State, c: nat)
    requires Listed(s) && Shaped(s) && c in s.callers && s.callers[c].pc.Delist?
    ensures Listed(AdvanceCaller(s, c))
  {
    WithoutHolds(s.list, c);
  }

  lemma {:induction false} ListedAdvance(s: State, c: nat)
    requires Listed(s) && Shaped(s) && c in s.callers
    ensures Listed(AdvanceCaller(s, c))
  {
    if s.callers[c].pc.Delist? {
      ListedDelist(s, c);
    } else if s.callers[c].pc.Enlist? {
      ListedEnlist(s, c);
    }
  }

  lemma {:induction false} ListedWalk(s: State, w: nat, f: nat, p: nat)
    requires Listed(s) && f < |s.socks|
    ensures Listed(WalkTo(s, w, f, p))
  {
    if p < |s.list| {
      VisitKeeps(s.callers, s.list[p], f, s.socks[f]);
    }
  }

  lemma {:induction false} ListedStep(s: State, a: Action)
    requires Inv(s) && Enabled(s, a)
    ensures Listed(Apply(s, a))
  {
    match a
    case Advance(c) => ListedAdvance(s, c);
    case Event(w, f, evt) => ListedWalk(s.(socks := s.socks[f := Post(s.socks[f], evt)]), w, f, 0);
    case WalkOn(w) => ListedWalk(s, w, s.walks[w].f, if s.walks[w].seen != s.ctr then 0 else s.walks[w].pos + 1);
    case _ =>
  }

  lemma {:induction false} ShapedStep(s: State, a: Action)
    requires Inv(s) && Enabled(s, a)
    ensures Shaped(Apply(s, a))
  {
  }

  /** A section leaves the call's arguments alone, and the semaphore unless it sets it up. */
  lemma {:induction false} NextCallerKeeps(k: Caller, socks: seq<Sock>)
    requires k.nfds <= |socks|
    ensures var k' := NextCaller(k, socks);
      && k'.rd == k.rd && k'.wr == k.wr && k'.ex == k.ex && k'.nfds == k.nfds
      && (k.Registered() <==> if k.pc.Enlist? then false else k'.Registered() || k.pc.Delist?)
      && (k.pc.Enlist? ==> k'.pc == Count(0))
      && (Signals(k) ==> Signals(k'))
      && (!k.pc.Enlist? ==> k'.signalled == k.signalled)
  {
  }

  lemma {:induction false} SignalsAdvance(s: State, d: nat, c: nat)
    requires Shaped(s) && d in s.callers && c in s.callers
    requires Signals(s.callers[c])
    ensures Signals(AdvanceCaller(s, d).callers[c])
  {
    NextCallerKeeps(s.callers[d], s.socks);
  }

  lemma {:induction false} SignalsWalk(s: State, w: nat, f: nat, p: nat, c: nat)
    requires f < |s.socks| && c in s.callers && Signals(s.callers[c])
    ensures Signals(WalkTo(s, w, f, p).callers[c])
  {
    if p < |s.list| {
      VisitKeeps(s.callers, s.list[p], f, s.socks[f]);
    }
  }

  lemma {:induction false} SignalsStep(s: State, a: Action)
    requires Inv(s) && Enabled(s, a)
    ensures forall c | c in Apply(s, a).callers :: Signals(Apply(s, a).callers[c])
  {
    forall c | c in Apply(s, a).callers ensures Signals(Apply(s, a).callers[c]) {
      match a
      case Advance(d) => SignalsAdvance(s, d, c);
      case WalkOn(w) =>
        SignalsWalk(s, w, s.walks[w].f, if s.walks[w].seen != s.ctr then 0 else s.walks[w].pos + 1, c);
      case Event(w, f, evt) => SignalsWalk(s.(socks := s.socks[f := Post(s.socks[f], evt)]), w, f, 0, c);
      case _ =>
    }
  }

  lemma {:induction false} WalksStep(s: State, a: Action)
    requires Inv(s) && Enabled(s, a)
    ensures forall w | w in Apply(s, a).walks :: WalkOk(Apply(s, a), Apply(s, a).walks[w])
  {
  }

  // ---------------------------------------------------------------- no lost wake-up

  /** A walk that will visit c keeps doing so while the list version stands, and must restart
      when it changes. */
  lemma {:induction false} VisitedStays(s: State, s': State, c: nat, f: nat)
    requires Visited(s, c, f)
    requires forall w | w in s.walks :: w in s'.walks && s'.walks[w] == s.walks[w]
    requires (s'.ctr == s.ctr && s'.list == s.list) || forall w | w in s.walks :: s.walks[w].seen != s'.ctr
    ensures Visited(s', c, f)
  {
    var w :| w in s.walks && WillVisit(s, s.walks[w], c, f);
    assert WillVisit(s', s'.walks[w], c, f);
  }

  /** A walk for f looks at list position p while c is there or behind: it signals c, or keeps
      c ahead. */
  lemma {:induction false} WalkReaches(s: State, w: nat, f: nat, p: nat, c: nat)
    requires f < |s.socks| && c in s.callers && c in s.list && p <= IndexOf(s.list, c)
    ensures !LostAt(WalkTo(s, w, f, p), c, f)
  {
    var s' := WalkTo(s, w, f, p);
    VisitKeeps(s.callers, s.list[p], f, s.socks[f]);
    if s.list[p] != c {
      assert WillVisit(s', s'.walks[w], c, f);
    }
  }

  /** A step of a walk for another socket does not disturb the walk that is to visit c. */
  lemma {:induction false} WalkSpares(s: State, w: nat, v: nat, f: nat, p: nat, c: nat, g: nat)
    requires f < |s.socks| && v in s.walks && v != w && WillVisit(s, s.walks[v], c, g)
    ensures Visited(WalkTo(s, w, f, p), c, g)
  {
    var s' := WalkTo(s, w, f, p);
    assert s'.walks[v] == s.walks[v] && s'.list == s.list && s'.ctr == s.ctr;
    assert WillVisit(s', s'.walks[v], c, g);
  }

  lemma {:induction false} WalkOnLosesNothing(s: State, w: nat, c: nat, g: nat)
    requires Inv(s) && w in s.walks
    ensures !LostAt(Apply(s, WalkOn(w)), c, g)
  {
    var k := s.walks[w];
    var p := if k.seen != s.ctr then 0 else k.pos + 1;
    var s' := WalkTo(s, w, k.f, p);
    if LostAt(s', c, g) {
      StillScanned(s, w, k.f, p, c, g);
      assert !LostAt(s, c, g);
      var v :| v in s.walks && WillVisit(s, s.walks[v], c, g);
      if v == w {
        WalkReaches(s, w, k.f, p, c);
      } else {
        WalkSpares(s, w, v, k.f, p, c, g);
      }
    }
  }

  lemma {:induction false} StillScanned(s: State, w: nat, f: nat, p: nat, c: nat, g: nat)
    requires f < |s.socks| && LostAt(WalkTo(s, w, f, p), c, g)
    ensures c in s.callers && s.callers[c].ScannedPast(g) && !s.callers[c].signalled
    ensures Pending(s.callers[c], g, s.socks[g])
  {
    if p < |s.list| {
      VisitKeeps(s.callers, s.list[p], f, s.socks[f]);
    }
  }

  lemma {:induction false} EventLosesNothing(s: State, w: nat, f: nat, evt: Evt, c: nat, g: nat)
    requires Inv(s) && w !in s.walks && f < |s.socks|
    ensures !LostAt(Apply(s, Event(w, f, evt)), c, g)
  {
    var t := s.(socks := s.socks[f := Post(s.socks[f], evt)]);
    var s' := Apply(s, Event(w, f, evt));
    if LostAt(s', c, g) {
      if s.socks[f].waiting == 0 {
        if g == f {
          CountedWaits(s, c, f);
        } else {
          assert !LostAt(s, c, g);
          VisitedStays(s, t, c, g);
        }
      } else {
        StillScanned(t, w, f, 0, c, g);
        if g == f {
          WalkReaches(t, w, f, 0, c);
        } else {
          assert !LostAt(s, c, g);
          var v :| v in s.walks && WillVisit(s, s.walks[v], c, g);
          assert WillVisit(t, t.walks[v], c, g);
          WalkSpares(t, w, v, f, 0, c, g);
        }
      }
    }
  }

  /** A caller whose second scan has passed f is counted in f's select_waiting. */
  lemma {:induction false} CountedWaits(s: State, c: nat, f: nat)
    requires Inv(s) && c in s.callers && s.callers[c].ScannedPast(f)
    ensures s.socks[f].waiting > 0
  {
    assert c in CountedCallers(s.callers, f);
  }

  lemma {:induction false} AdvanceLosesNothing(s: State, d: nat, c: nat, g: nat)
    requires Inv(s) && Enabled(s, Advance(d))
    ensures !LostAt(AdvanceCaller(s, d), c, g)
  {
    var s' := AdvanceCaller(s, d);
    if LostAt(s', c, g) {
      assert !LostAt(s, c, g);
      assert Visited(s, c, g);
      VisitedStays(s, s', c, g);
    }
  }

  lemma {:induction false} NoneLostStep(s: State, a: Action)
    requires Inv(s) && Enabled(s, a)
    ensures NoneLost(Apply(s, a))
  {
    var s' := Apply(s, a);
    forall c: nat, g: nat ensures !LostAt(s', c, g) {
      match a
      case Advance(d) => AdvanceLosesNothing(s, d, c, g);
      case Event(w, f, evt) => EventLosesNothing(s, w, f, evt, c, g);
      case WalkOn(w) => WalkOnLosesNothing(s, w, c, g);
      case _ =>
        if LostAt(s', c, g) {
          assert !LostAt(s, c, g);
          VisitedStays(s, s', c, g);
        }
    }
  }

  // ---------------------------------------------------------------- select_waiting

  /** Only c may have changed, and it counts the same or one more or one less at f. */
  lemma {:induction false} CountChange(callers: map<nat, Caller>, callers': map<nat, Caller>, c: nat, f: nat)
    requires callers'.Keys == callers.Keys + {c}
    requires forall x | x in callers && x != c :: callers'[x].CountedAt(f) == callers[x].CountedAt(f)
    ensures var before, after := c in callers && callers[c].CountedAt(f), callers'[c].CountedAt(f);
      |CountedCallers(callers', f)|
        == |CountedCallers(callers, f)| - (if before then 1 else 0) + (if after then 1 else 0)
  {
    var others := CountedCallers(callers, f) - {c};
    assert CountedCallers(callers', f) == if callers'[c].CountedAt(f) then others + {c} else others;
    assert CountedCallers(callers, f) == if c in callers && callers[c].CountedAt(f) then others + {c} else others;
  }

  lemma {:induction false} CountsTurn(s: State, c: nat, f: nat)
    requires Shaped(s) && Counts(s) && c in s.callers && f < |s.socks|
    requires (s.callers[c].pc.Count? || s.callers[c].pc.Discount?) && s.callers[c].pc.i < s.callers[c].nfds
    ensures AdvanceCaller(s, c).socks[f].waiting == |CountedCallers(AdvanceCaller(s, c).callers, f)|
  {
    CountChange(s.callers, AdvanceCaller(s, c).callers, c, f);
  }

  lemma {:induction false} CountsElse(s: State, c: nat, f: nat)
    requires Shaped(s) && Counts(s) && c in s.callers && f < |s.socks|
    requires s.callers[c].pc.Count? || s.callers[c].pc.Discount? ==> s.callers[c].pc.i >= s.callers[c].nfds
    ensures AdvanceCaller(s, c).socks[f].waiting == |CountedCallers(AdvanceCaller(s, c).callers, f)|
  {
    var s' := AdvanceCaller(s, c);
    assert s'.socks == s.socks;
    assert s'.callers[c].CountedAt(f) == s.callers[c].CountedAt(f);
    CountChange(s.callers, s'.callers, c, f);
  }

  lemma {:induction false} CountsAdvance(s: State, c: nat)
    requires Shaped(s) && Counts(s) && c in s.callers
    ensures Counts(AdvanceCaller(s, c))
  {
    var s', k := AdvanceCaller(s, c), s.callers[c];
    forall f | 0 <= f < |s.socks| ensures s'.socks[f].waiting == |CountedCallers(s'.callers, f)| {
      if (k.pc.Count? || k.pc.Discount?) && k.pc.i < k.nfds {
        CountsTurn(s, c, f);
      } else {
        CountsElse(s, c, f);
      }
    }
  }

  lemma {:induction false} CountsWalk(s: State, w: nat, f: nat, p: nat)
    requires Listed(s) && Counts(s) && f < |s.socks|
    ensures Counts(WalkTo(s, w, f, p))
  {
    var s' := WalkTo(s, w, f, p);
    if p < |s.list| {
      VisitKeeps(s.callers, s.list[p], f, s.socks[f]);
      forall g | 0 <= g < |s.socks| ensures s'.socks[g].waiting == |CountedCallers(s'.callers, g)| {
        CountChange(s.callers, s'.callers, s.list[p], g);
      }
    }
  }

  lemma {:induction false} CountsOther(s: State, c: nat, k: Caller)
    requires Counts(s) && forall f: nat :: k.CountedAt(f) == (c in s.callers && s.callers[c].CountedAt(f))
    ensures Counts(s.(callers := s.callers[c := k]))
  {
    var s' := s.(callers := s.callers[c := k]);
    forall f | 0 <= f < |s.socks| ensures s'.socks[f].waiting == |CountedCallers(s'.callers, f)| {
      CountChange(s.callers, s'.callers, c, f);
    }
  }

  lemma {:induction false} CountsStep(s: State, a: Action)
    requires Inv(s) && Enabled(s, a)
    ensures Counts(Apply(s, a))
  {
    var s' := Apply(s, a);
    match a
    case Advance(c) => CountsAdvance(s, c);
    case Event(w, f, evt) =>
      var t := s.(socks := s.socks[f := Post(s.socks[f], evt)]);
      assert Counts(t);
      CountsWalk(t, w, f, 0);
    case WalkOn(w) => CountsWalk(s, w, s.walks[w].f, if s.walks[w].seen != s.ctr then 0 else s.walks[w].pos + 1);
    case Leftover(f, left) =>
    case Call(c, _, _, _, _, _) => CountsOther(s, c, s'.callers[c]);
    case Wake(c) => CountsOther(s, c, s'.callers[c]);
    case Timeout(c) => CountsOther(s, c, s'.callers[c]);
  }

  // ---------------------------------------------------------------- every interleaving

  lemma {:induction false} InvStep(s: State, a: Action)
    requires Inv(s) && Enabled(s, a)
    ensures Inv(Apply(s, a))
  {
    ShapedStep(s, a);
    ListedStep(s, a);
    CountsStep(s, a);
    SignalsStep(s, a);
    WalksStep(s, a);
    NoneLostStep(s, a);
  }

  predicate Initial(s: State) {
    s.callers == map[] && s.walks == map[] && s.list == []
    && forall f | 0 <= f < |s.socks| :: s.socks[f].waiting == 0
  }

  /** The state sequence of a run: each action is enabled where it is taken. */
  ghost predicate Execution(states: seq<State>, actions: seq<Action>) {
    && |states| == |actions| + 1 && Initial(states[0])
    && (forall i | 0 <= i < |actions| ::
          Shaped(states[i]) && Enabled(states[i], actions[i]) && states[i + 1] == Apply(states[i], actions[i]))
  }

  lemma {:induction false} StepAt(states: seq<State>, actions: seq<Action>, i: nat, j: nat)
    requires Execution(states, actions) && j == i + 1 < |states|
    ensures Shaped(states[i]) && Enabled(states[i], actions[i]) && states[j] == Apply(states[i], actions[i])
  {
  }

  lemma {:induction false} ExecutionKeepsInv(states: seq<State>, actions: seq<Action>, n: nat)
    requires Execution(states, actions) && n < |states|
    ensures Inv(states[n])
  {
    if n == 0 {
      forall f | 0 <= f < |states[0].socks| ensures CountedCallers(states[0].callers, f) == {} {
      }
    } else {
      ExecutionKeepsInv(states, actions, n - 1);
      InvStep(states[n - 1], actions[n - 1]);
    }
  }

  /** In every interleaving: a caller asleep in select that has not been signalled has no pending
      event among those it watches, unless a walk for that socket has it ahead or must restart;
      once all walks are over it has none. A signalled sleeper can wake: its semaphore is up. */
  lemma {:induction false} NoLostWakeUp(states: seq<State>, actions: seq<Action>, n: nat, c: nat, f: nat)
    requires Execution(states, actions) && n < |states|
    requires c in states[n].callers && states[n].callers[c].pc.Wait? && states[n].callers[c].Watches(f)
    ensures var s, k := states[n], states[n].callers[c];
      && f < |s.socks| && c in s.list
      && k.posts <= 1 && (k.signalled <==> k.sem == 1) && (k.sem == 0 || k.sem == 1)
      && s.socks[f].waiting > 0
      && var e := s.socks[f];
        !k.signalled && ((f in k.rd && e.rcv > 0) || (f in k.wr && e.snd) || (f in k.ex && e.err)) ==>
          exists w | w in s.walks :: WillVisit(s, s.walks[w], c, f)
  {
    ExecutionKeepsInv(states, actions, n);
    CountedWaits(states[n], c, f);
    assert !LostAt(states[n], c, f);
  }

  // ---------------------------------------------------------------- what the scans report

  function Found(k: Caller): nat {
    |k.outR| + |k.outW| + |k.outE|
  }

  /** The sets of a scan hold sockets below i. */
  predicate Below(k: Caller, i: nat) {
    && (forall f | f in k.outR :: f < i) && (forall f | f in k.outW :: f < i) && (forall f | f in k.outE :: f < i)
  }

  /** The number of ready sockets counted is that of the sets, and so is the answer; a caller that
      sleeps or has slept too long has found none. */
  predicate Reported(k: Caller) {
    && (k.timedOut ==> Found(k) == 0 && (k.pc.Discount? || k.pc.Delist? || k.pc.Idle?))
    && match k.pc
       case Scan1(i, n) => Below(k, i) && n == Found(k)
       case Scan2(i, n) => Below(k, i) && n == Found(k)
       case Scan3(i, n) => Below(k, i) && n == Found(k)
       case Wait => Found(k) == 0
       case Idle => k.answer == Found(k)
       case _ => true
  }

  lemma {:induction false} ScannedFinds(k: Caller, i: nat, e: Sock)
    requires Below(k, i)
    ensures Below(Scanned(k, i, e), i + 1) && Found(Scanned(k, i, e)) == Found(k) + Ready(k, i, e)
  {
    var k' := Scanned(k, i, e);
    assert |k'.outR| == |k.outR| + if i in k.rd && (e.left || e.rcv > 0) then 1 else 0;
    assert |k'.outW| == |k.outW| + if i in k.wr && e.snd then 1 else 0;
  }

  lemma {:induction false} ScannedReports(k: Caller, i: nat, n: nat, e: Sock)
    requires Below(k, i) && n == Found(k) && !k.timedOut
    ensures var k', j, m := Scanned(k, i, e), i + 1, n + Ready(k, i, e);
      Reported(k'.(pc := Scan1(j, m))) && Reported(k'.(pc := Scan2(j, m))) && Reported(k'.(pc := Scan3(j, m)))
  {
    ScannedFinds(k, i, e);
  }

  lemma {:induction false} ScannedSays(k: Caller, i: nat, e: Sock, f: nat)
    requires Below(k, i)
    ensures var k' := Scanned(k, i, e);
      if f == i then Says(k', f, e) else SameSays(k, k', f)
  {
  }

  lemma {:induction false} NextReports(k: Caller, socks: seq<Sock>)
    requires k.nfds <= |socks| && Reported(k)
    ensures Reported(NextCaller(k, socks))
  {
    if LooksAt(k, Position(k)) {
      LookReports(k, socks);
    } else {
      TurnReports(k, socks);
    }
  }

  function Position(k: Caller): nat {
    match k.pc
    case Scan1(i, _) => i
    case Scan2(i, _) => i
    case Scan3(i, _) => i
    case _ => 0
  }

  lemma {:induction false} LookReports(k: Caller, socks: seq<Sock>)
    requires k.nfds <= |socks| && Reported(k) && LooksAt(k, Position(k))
    ensures Reported(NextCaller(k, socks))
  {
    ScannedReports(k, Position(k), k.pc.ready, socks[Position(k)]);
  }

  lemma {:induction false} TurnReports(k: Caller, socks: seq<Sock>)
    requires k.nfds <= |socks| && Reported(k) && !LooksAt(k, Position(k))
    ensures Reported(NextCaller(k, socks))
  {
  }

  lemma {:induction false} WalkKeepsCaller(s: State, w: nat, f: nat, p: nat, c: nat)
    requires f < |s.socks| && c in s.callers
    ensures var k := s.callers[c]; var t := WalkTo(s, w, f, p);
      && c in t.callers && t.callers[c] == k.(signalled := t.callers[c].signalled, sem := t.callers[c].sem, posts := t.callers[c].posts)
      && t.socks == s.socks
  {
    if p < |s.list| {
      VisitKeeps(s.callers, s.list[p], f, s.socks[f]);
    }
  }

  lemma {:induction false} WalkKeepsKeys(s: State, w: nat, f: nat, p: nat)
    requires f < |s.socks|
    ensures WalkTo(s, w, f, p).callers.Keys == s.callers.Keys
  {
    if p < |s.list| {
      VisitKeeps(s.callers, s.list[p], f, s.socks[f]);
    }
  }

  /** A step of somebody else changes at most a caller's semaphore. */
  lemma {:induction false} OthersStep(s: State, a: Action, c: nat)
    requires Shaped(s) && Enabled(s, a) && c in Apply(s, a).callers
    requires a != Advance(c) && a != Wake(c) && a != Timeout(c) && !(a.Call? && a.c == c)
    ensures c in s.callers
    ensures var k, k' := s.callers[c], Apply(s, a).callers[c];
      k' == k.(signalled := k'.signalled, sem := k'.sem, posts := k'.posts)
  {
    match a
    case Event(w, f, evt) =>
      var t := s.(socks := s.socks[f := Post(s.socks[f], evt)]);
      WalkKeepsKeys(t, w, f, 0);
      WalkKeepsCaller(t, w, f, 0, c);
    case WalkOn(w) =>
      var p := if s.walks[w].seen != s.ctr then 0 else s.walks[w].pos + 1;
      WalkKeepsKeys(s, w, s.walks[w].f, p);
      WalkKeepsCaller(s, w, s.walks[w].f, p, c);
    case _ =>
  }

  lemma {:induction false} ReportedStep(s: State, a: Action, c: nat)
    requires Shaped(s) && Enabled(s, a) && c in Apply(s, a).callers
    requires c in s.callers ==> Reported(s.callers[c])
    ensures Reported(Apply(s, a).callers[c])
  {
    if a == Advance(c) {
      NextReports(s.callers[c], s.socks);
    } else if a == Wake(c) || a == Timeout(c) || (a.Call? && a.c == c) {
    } else {
      OthersStep(s, a, c);
    }
  }

  /** In every run the answer of an idle caller is the number of sockets in its sets, and zero after
      a timeout. */
  lemma {:induction false} AnswersCount(states: seq<State>, actions: seq<Action>, n: nat, c: nat)
    requires Execution(states, actions) && n < |states| && c in states[n].callers
    ensures Reported(states[n].callers[c])
  {
    if n > 0 {
      if c in states[n - 1].callers {
        AnswersCount(states, actions, n - 1, c);
      }
      ReportedStep(states[n - 1], actions[n - 1], c);
    }
  }

  /** What the sets say of f comes from the scan under way or the last one. */
  predicate Looked(k: Caller, f: nat) {
    f < k.nfds && match k.pc
      case Scan1(i, _) => f < i
      case Scan2(i, _) => f < i
      case Scan3(i, _) => f < i
      case Wait => true
      case Idle => !k.timedOut
      case _ => false
  }

  /** The caller is about to look at f. */
  predicate LooksAt(k: Caller, f: nat) {
    f < k.nfds && match k.pc
      case Scan1(i, _) => f == i
      case Scan2(i, _) => f == i
      case Scan3(i, _) => f == i
      case _ => false
  }

  /** The sets of k say of f what the socket says of itself. */
  predicate Says(k: Caller, f: nat, e: Sock) {
    && (f in k.outR <==> f in k.rd && (e.left || e.rcv > 0))
    && (f in k.outW <==> f in k.wr && e.snd)
    && (f in k.outE <==> f in k.ex && e.err)
  }

  lemma {:induction false} LooksNext(k: Caller, socks: seq<Sock>, f: nat)
    requires k.nfds <= |socks| && Reported(k) && Looked(NextCaller(k, socks), f)
    ensures if LooksAt(k, f) then Says(NextCaller(k, socks), f, socks[f])
      else Looked(k, f) && SameSays(k, NextCaller(k, socks), f)
  {
    match k.pc
    case Scan1(i, n) => if i < k.nfds { ScannedSays(k, i, socks[i], f); }
    case Scan2(i, n) => if i < k.nfds { ScannedSays(k, i, socks[i], f); }
    case Scan3(i, n) => if i < k.nfds { ScannedSays(k, i, socks[i], f); }
    case _ =>
  }

  predicate SameSays(k: Caller, k': Caller, f: nat) {
    && k'.rd == k.rd && k'.wr == k.wr && k'.ex == k.ex && k'.nfds == k.nfds
    && (f in k'.outR <==> f in k.outR) && (f in k'.outW <==> f in k.outW) && (f in k'.outE <==> f in k.outE)
  }

  lemma {:induction false} LookedBefore(s: State, a: Action, c: nat, f: nat)
    requires Shaped(s) && Enabled(s, a) && c in Apply(s, a).callers && Looked(Apply(s, a).callers[c], f)
    requires c in s.callers ==> Reported(s.callers[c])
    requires !(a == Advance(c) && LooksAt(s.callers[c], f))
    ensures c in s.callers && Looked(s.callers[c], f) && SameSays(s.callers[c], Apply(s, a).callers[c], f)
  {
    if a == Advance(c) {
      LooksNext(s.callers[c], s.socks, f);
    } else if a == Wake(c) || a == Timeout(c) || (a.Call? && a.c == c) {
      assert false;
    } else {
      OthersStep(s, a, c);
    }
  }

  /** In every run: what a caller's sets say of a socket is what that socket was, left-over data
      included, when the caller's scan came to it. */
  lemma {:induction false} LastLook(states: seq<State>, actions: seq<Action>, n: nat, c: nat, f: nat) returns (m: nat)
    requires Execution(states, actions) && n < |states| && c in states[n].callers && Looked(states[n].callers[c], f)
    ensures m < n && actions[m] == Advance(c) && c in states[m].callers && LooksAt(states[m].callers[c], f)
    ensures f < |states[m].socks| && Says(states[n].callers[c], f, states[m].socks[f])
    ensures forall i | m < i <= n :: c in states[i].callers && Looked(states[i].callers[c], f)
  {
    var p := n - 1;
    var s := states[p];
    StepAt(states, actions, p, n);
    if c in s.callers {
      AnswersCount(states, actions, p, c);
    }
    LookStep(s, actions[p], states[n], c, f);
    if actions[p] == Advance(c) && LooksAt(s.callers[c], f) {
      m := p;
    } else {
      m := LastLook(states, actions, p, c, f);
      SaysSame(s.callers[c], states[n].callers[c], f, states[m].socks[f]);
    }
  }

  lemma {:induction false} SaysSame(k: Caller, k': Caller, f: nat, e: Sock)
    requires Says(k, f, e) && SameSays(k, k', f)
    ensures Says(k', f, e)
  {
  }

  lemma {:induction false} LookStep(s: State, a: Action, s': State, c: nat, f: nat)
    requires Shaped(s) && Enabled(s, a) && s' == Apply(s, a) && c in s'.callers && Looked(s'.callers[c], f)
    requires c in s.callers ==> Reported(s.callers[c])
    ensures c in s.callers
    ensures if a == Advance(c) && LooksAt(s.callers[c], f) then f < |s.socks| && Says(s'.callers[c], f, s.socks[f])
      else Looked(s.callers[c], f) && SameSays(s.callers[c], s'.callers[c], f)
  {
    if a == Advance(c) && LooksAt(s.callers[c], f) {
      LooksNext(s.callers[c], s.socks, f);
    } else {
      LookedBefore(s, a, c, f);
    }
  }

  // ---------------------------------------------------------------- what a sleeper has missed

  lemma {:induction false} WalkKeepsSocks(s: State, w: nat, f: nat, p: nat)
    requires f < |s.socks|
    ensures WalkTo(s, w, f, p).socks == s.socks
  {
  }

  /** What a step does to a socket's state, its counter of waiting callers aside. */
  lemma {:induction false} SockStep(s: State, a: Action, f: nat)
    requires Shaped(s) && Enabled(s, a) && f < |s.socks|
    ensures |Apply(s, a).socks| == |s.socks|
    ensures var e, e' := s.socks[f], Apply(s, a).socks[f];
      e' == if a.Event? && a.f == f then Post(e, a.evt)
            else if a == Leftover(f, true) then e.(left := true)
            else if a == Leftover(f, false) then e.(left := false)
            else e.(waiting := e'.waiting)
  {
    match a
    case Event(w, g, evt) => WalkKeepsSocks(s.(socks := s.socks[g := Post(s.socks[g], evt)]), w, g, 0);
    case WalkOn(w) => WalkKeepsSocks(s, w, s.walks[w].f, if s.walks[w].seen != s.ctr then 0 else s.walks[w].pos + 1);
    case _ =>
  }

  predicate Brings(a: Action, f: nat, evt: Evt) {
    a.Event? && a.f == f && a.evt == evt
  }

  /** What is there at n and was not there at m has come in between. */
  lemma {:induction false} CameBetween(states: seq<State>, actions: seq<Action>, m: nat, n: nat, f: nat)
    requires Execution(states, actions) && m <= n < |states| && f < |states[m].socks|
    ensures |states[n].socks| == |states[m].socks|
    ensures var e, e' := states[m].socks[f], states[n].socks[f];
      && (e'.left && !e.left ==> exists i | m <= i < n :: actions[i] == Leftover(f, true))
      && (e'.rcv > e.rcv ==> exists i | m <= i < n :: Brings(actions[i], f, RcvPlus))
      && (e'.snd && !e.snd ==> exists i | m <= i < n :: Brings(actions[i], f, SendPlus))
      && (e'.err && !e.err ==> exists i | m <= i < n :: Brings(actions[i], f, Error))
    decreases n
  {
    if m < n {
      var p := n - 1;
      StepAt(states, actions, p, n);
      CameBetween(states, actions, m, p, f);
      SockStep(states[p], actions[p], f);
    }
  }

  /** A caller goes to sleep only over nothing: when its second scan came to f, no data was left
      over there that it reads, and none of the events it watches was there. What is there now has
      come since. */
  lemma {:induction false} SleepsOverNothing(states: seq<State>, actions: seq<Action>, n: nat, c: nat, f: nat) returns (m: nat)
    requires Execution(states, actions) && n < |states|
    requires c in states[n].callers && states[n].callers[c].pc.Wait? && f < states[n].callers[c].nfds
    ensures m < n && actions[m] == Advance(c) && f < |states[m].socks| && f < |states[n].socks|
    ensures var k, e, e' := states[n].callers[c], states[m].socks[f], states[n].socks[f];
      && (f in k.rd ==> !e.left && e.rcv <= 0) && (f in k.wr ==> !e.snd) && (f in k.ex ==> !e.err)
      && (f in k.rd && e'.left ==> exists i | m < i < n :: actions[i] == Leftover(f, true))
      && (f in k.rd && e'.rcv > 0 ==> exists i | m < i < n :: Brings(actions[i], f, RcvPlus))
      && (f in k.wr && e'.snd ==> exists i | m < i < n :: Brings(actions[i], f, SendPlus))
      && (f in k.ex && e'.err ==> exists i | m < i < n :: Brings(actions[i], f, Error))
  {
    m := LastLook(states, actions, n, c, f);
    AnswersCount(states, actions, n, c);
    CameBetween(states, actions, m, n, f);
  }

  /** Which events there have been says what there is: data counted up and down, the last word on
      sending, any error, and the last word on left-over data. */
  function Counted(actions: seq<Action>, n: nat, f: nat, evt: Evt): nat
    requires n <= |actions|
  {
    if n == 0 then 0 else Counted(actions, n - 1, f, evt) + if Brings(actions[n - 1], f, evt) then 1 else 0
  }

  lemma {:induction false} EventsCounted(states: seq<State>, actions: seq<Action>, n: nat, f: nat)
    requires Execution(states, actions) && n < |states| && f < |states[0].socks|
    ensures |states[n].socks| == |states[0].socks|
    ensures states[n].socks[f].rcv ==
      states[0].socks[f].rcv + Counted(actions, n, f, RcvPlus) - Counted(actions, n, f, RcvMinus)
    ensures states[n].socks[f].err <==> states[0].socks[f].err || Counted(actions, n, f, Error) > 0
  {
    if n > 0 {
      var p := n - 1;
      StepAt(states, actions, p, n);
      EventsCounted(states, actions, p, f);
      SockStep(states[p], actions[p], f);
    }
  }

  /** An event or left-over data stands until it is taken back. */
  lemma {:induction false} EventStands(states: seq<State>, actions: seq<Action>, i: nat, n: nat, f: nat)
    requires Execution(states, actions) && i < n < |states| && f < |states[i].socks|
    ensures |states[n].socks| == |states[i].socks|
    ensures Brings(actions[i], f, SendPlus) && (forall j | i < j < n :: !Brings(actions[j], f, SendMinus)) ==> states[n].socks[f].snd
    ensures Brings(actions[i], f, SendMinus) && (forall j | i < j < n :: !Brings(actions[j], f, SendPlus)) ==> !states[n].socks[f].snd
    ensures actions[i] == Leftover(f, true) && (forall j | i < j < n :: actions[j] != Leftover(f, false)) ==> states[n].socks[f].left
    ensures actions[i] == Leftover(f, false) && (forall j | i < j < n :: actions[j] != Leftover(f, true)) ==> !states[n].socks[f].left
    decreases n
  {
    var p := n - 1;
    StepAt(states, actions, p, n);
    if i < p {
      EventStands(states, actions, i, p, f);
    }
    SockStep(states[p], actions[p], f);
  }

  /** A caller is signalled only for an event it asked for that is there. */
  lemma {:induction false} SignalHasCause(s: State, a: Action, c: nat) returns (f: nat)
    requires Shaped(s) && Enabled(s, a) && c in s.callers && !s.callers[c].signalled
    requires c in Apply(s, a).callers && Apply(s, a).callers[c].signalled
    ensures f < |Apply(s, a).socks|
    ensures var k, e := s.callers[c], Apply(s, a).socks[f];
      (f in k.rd && e.rcv > 0) || (f in k.wr && e.snd) || (f in k.ex && e.err)
  {
    f := 0;
    match a
    case Event(w, g, evt) => f := g;
    case WalkOn(w) => f := s.walks[w].f;
    case _ =>
  }

  /** What a scan finds decides: the first one returns with what it found, or when only polling; the
      second one sends the caller to sleep exactly if it found nothing. */
  lemma {:induction false} ScanDecides(k: Caller, socks: seq<Sock>)
    requires k.nfds <= |socks| && Reported(k)
    ensures k.pc.Scan1? && k.pc.i >= k.nfds ==>
      if k.outR != {} || k.outW != {} || k.outE != {} || k.poll then NextCaller(k, socks).pc == Idle
      else NextCaller(k, socks).pc == Enlist
    ensures k.pc.Scan2? && k.pc.i >= k.nfds ==>
      (NextCaller(k, socks).pc == Wait <==> k.outR == {} && k.outW == {} && k.outE == {})
  {
  }
}
