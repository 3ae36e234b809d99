/** tcp_new_port: the search for an unused local port, with its restart on every hit. */
module NewPort {

  const START: nat := 0xC000
  const END: nat := 0xFFFF
  const PORTS: nat := 0x4000

  /** The local ports on the four lists of control blocks. */
  type Lists = seq<seq<nat>>

  predicate InRange(port: nat) {
    START <= port <= END
  }

  predicate Used(lists: Lists, port: nat) {
    exists i :: 0 <= i < |lists| && port in lists[i]
  }

  function Total(lists: Lists): nat {
    if lists == [] then 0 else |lists[0]| + Total(lists[1..])
  }

  function AllPorts(lists: Lists): seq<nat> {
    if lists == [] then [] else lists[0] + AllPorts(lists[1..])
  }

  /** How many steps of the cyclic search lead from one port to another. */
  function Distance(from: nat, target: nat): (d: nat)
    requires InRange(from) && InRange(target)
    ensures 1 <= d <= PORTS
  {
    if target > from then target - from else target - from + PORTS
  }

  /** The walk over the four lists. */
  method Check(lists: Lists, port: nat) returns (used: bool)
    ensures used <==> Used(lists, port)
  {
    var i := 0;
    while i < |lists|
      invariant 0 <= i <= |lists| && forall k | 0 <= k < i :: port !in lists[k]
    {
      var j := 0;
      while j < |lists[i]|
        invariant 0 <= j <= |lists[i]| && forall k | 0 <= k < j :: lists[i][k] != port
      {
        if lists[i][j] == port {
          return true;
        }
        j := j + 1;
      }
      i := i + 1;
    }
    used := false;
  }

  /** tcp_new_port, from any saved port. It ends because some port of the range is free, and takes
      the first free one behind the saved one. */
  method TcpNewPort(saved: nat, lists: Lists, ghost free: nat) returns (port: nat)
    requires InRange(saved) && InRange(free) && !Used(lists, free)
    ensures InRange(port) && !Used(lists, port)
    ensures forall p | InRange(p) && Distance(saved, p) < Distance(saved, port) :: Used(lists, p)
  {
    port := saved;
    var used := true;
    ghost var steps := 0;
    while used
      invariant InRange(port) && 0 <= steps <= Distance(saved, free)
      invariant steps == 0 ==> port == saved && used
      invariant steps > 0 ==> Distance(saved, port) == steps && used == Used(lists, port)
      invariant forall p | InRange(p) && Distance(saved, p) < steps :: Used(lists, p)
      decreases Distance(saved, free) - steps, used
    {
      if steps > 0 && steps == Distance(saved, free) {
        SameDistance(saved, port, free);
      }
      Steps(saved, port, steps);
      ghost var before := port;
      if port >= END {
        port := START;
      } else {
        port := port + 1;
      }
      steps := steps + 1;
      forall p | InRange(p) && Distance(saved, p) < steps ensures Used(lists, p) {
        if Distance(saved, p) == steps - 1 {
          SameDistance(saved, p, before);
        }
      }
      used := Check(lists, port);
    }
  }

  lemma {:induction false} SameDistance(from: nat, a: nat, b: nat)
    requires InRange(from) && InRange(a) && InRange(b) && Distance(from, a) == Distance(from, b)
    ensures a == b
  {
  }

  lemma {:induction false} Steps(saved: nat, port: nat, steps: nat)
    requires InRange(saved) && InRange(port) && steps < PORTS
    requires if steps == 0 then port == saved else Distance(saved, port) == steps
    ensures Distance(saved, if port >= END then START else port + 1) == steps + 1
  {
  }

  /** Fewer control blocks than ports leave a port free. */
  lemma {:induction false} Pigeonhole(lists: Lists) returns (free: nat)
    requires Total(lists) < PORTS
    ensures InRange(free) && !Used(lists, free)
  {
    var all := AllPorts(lists);
    AllPortsTotal(lists);
    free := Gap(all, START);
    AllPortsUsed(lists, free);
  }

  lemma {:induction false} AllPortsTotal(lists: Lists)
    ensures |AllPorts(lists)| == Total(lists)
  {
    if lists != [] {
      AllPortsTotal(lists[1..]);
    }
  }

  lemma {:induction false} AllPortsUsed(lists: Lists, port: nat)
    ensures port in AllPorts(lists) <==> Used(lists, port)
  {
    if lists != [] {
      AllPortsUsed(lists[1..], port);
      if Used(lists[1..], port) {
        var i :| 0 <= i < |lists[1..]| && port in lists[1..][i];
        assert port in lists[i + 1];
      }
      if Used(lists, port) {
        var i :| 0 <= i < |lists| && port in lists[i];
        if i > 0 {
          assert port in lists[1..][i - 1];
        }
      }
    }
  }

  /** The numbers from a on, as many as there are entries and one more, are not all in q. */
  lemma {:induction false} Gap(q: seq<nat>, a: nat) returns (free: nat)
    ensures a <= free <= a + |q| && free !in q
    decreases |q|
  {
    if a !in q {
      return a;
    }
    var k :| 0 <= k < |q| && q[k] == a;
    var r := q[..k] + q[k + 1..];
    free := Gap(r, a + 1);
    assert q == q[..k] + [q[k]] + q[k + 1..];
  }

  /** With fewer than 0x4000 control blocks the search ends with an unused port of the range. */
  method NewPortAmongFew(saved: nat, lists: Lists) returns (port: nat)
    requires InRange(saved) && Total(lists) < PORTS
    ensures InRange(port) && !Used(lists, port)
  {
    ghost var free := Pigeonhole(lists);
    port := TcpNewPort(saved, lists, free);
  }
}
