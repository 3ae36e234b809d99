/** The reference-counted packet buffers of pbuf.c. The live buffers are a store from identities to
    their fields; the references that callers hold are a multiset of identities. */
module Pbuf {
  import opened Words

  datatype Ptr = Null | At(id: nat)

  /** struct pbuf; the payload's len bytes are `data`. */
  datatype Node = Node(next: Ptr, data: seq<byte>, tot: int, ref: nat)

  type Store = map<nat, Node>

  // ------------------------------------------------------------ reference graph

  function Preds(s: Store, i: nat): set<nat> {
    set j | j in s && s[j].next == At(i)
  }

  /** The identity a pointer adds to a multiset of references. */
  function Ref(p: Ptr): multiset<nat> {
    if p == Null then multiset{} else multiset{p.id}
  }

  /** Reference counts are exact: ref counts the live buffers whose next points here and the
      references callers hold. */
  ghost predicate RefsOk(s: Store, held: multiset<nat>) {
    Closed(s) && (forall i | i in held :: i in s) && Exact(s, held)
  }

  ghost predicate Closed(s: Store) {
    forall i {:trigger s[i].next} | i in s :: s[i].next == Null || s[i].next.id in s
  }

  ghost predicate Exact(s: Store, held: multiset<nat>) {
    forall i {:trigger Preds(s, i)} | i in s :: s[i].ref == |Preds(s, i)| + held[i] > 0
  }

  function Tot(s: Store, p: Ptr): int {
    if p.At? && p.id in s then s[p.id].tot else 0
  }

  /** Every cached total is the own length plus the successor's total. */
  ghost predicate TotalsOk(s: Store) {
    forall i {:trigger TotalAdds(s, i)} | i in s :: TotalAdds(s, i)
  }

  predicate TotalAdds(s: Store, i: nat) {
    i in s && s[i].tot == |s[i].data| + Tot(s, s[i].next)
  }

  /** ids are the buffers along the next pointers from p to the end of the chain. */
  predicate Linked(s: Store, p: Ptr, ids: seq<nat>)
    decreases |ids|
  {
    if ids == [] then p == Null
    else p == At(ids[0]) && ids[0] in s && Linked(s, s[ids[0]].next, ids[1..])
  }

  /** No chain runs in a circle. */
  ghost predicate Grounded(s: Store) {
    forall i {:trigger HasChain(s, i)} | i in s :: HasChain(s, i)
  }

  ghost predicate HasChain(s: Store, i: nat) {
    exists ids :: Linked(s, At(i), ids)
  }

  ghost predicate Valid(s: Store, held: multiset<nat>) {
    RefsOk(s, held) && TotalsOk(s) && Grounded(s)
  }

  function Bytes(s: Store, ids: seq<nat>): seq<byte>
    decreases |ids|
  {
    if ids == [] || ids[0] !in s then [] else s[ids[0]].data + Bytes(s, ids[1..])
  }

  /** The chain has no other way in: nothing points to its head, and only its own members to the
      others. */
  ghost predicate Unshared(s: Store, ids: seq<nat>) {
    && (forall k | 0 < k < |ids| :: Preds(s, ids[k]) == {ids[k - 1]})
    && (ids != [] ==> Preds(s, ids[0]) == {})
  }

  lemma {:induction false} PredsUpdate(s: Store, j: nat, n: Node, i: nat)
    requires j in s
    ensures Preds(s[j := n], i) == Preds(s, i) - {j} + (if n.next == At(i) then {j} else {})
    ensures |Preds(s[j := n], i)| ==
      |Preds(s, i)| - (if s[j].next == At(i) then 1 else 0) + (if n.next == At(i) then 1 else 0)
  {
    var b := Preds(s, i) - {j};
    assert Preds(s[j := n], i) == b + (if n.next == At(i) then {j} else {});
    if s[j].next == At(i) {
      assert Preds(s, i) == b + {j};
    } else {
      assert Preds(s, i) == b;
    }
  }

  lemma {:induction false} PredsRemove(s: Store, j: nat, i: nat)
    requires j in s
    ensures |Preds(s - {j}, i)| == |Preds(s, i)| - (if s[j].next == At(i) then 1 else 0)
  {
    var b := Preds(s, i) - {j};
    assert Preds(s - {j}, i) == b;
    if s[j].next == At(i) {
      assert Preds(s, i) == b + {j};
    } else {
      assert Preds(s, i) == b;
    }
  }

  /** What a chain is depends on the next pointers only. */
  lemma {:induction false} LinkedSame(s: Store, s': Store, p: Ptr, ids: seq<nat>)
    requires Linked(s, p, ids) && forall i | i in ids :: i in s' && i in s && s'[i].next == s[i].next
    ensures Linked(s', p, ids)
    decreases |ids|
  {
    if ids != [] {
      LinkedSame(s, s', s[ids[0]].next, ids[1..]);
    }
  }

  lemma {:induction false} LinkedMembers(s: Store, p: Ptr, ids: seq<nat>)
    requires Linked(s, p, ids)
    ensures forall i | i in ids :: i in s
    ensures forall k | 0 <= k < |ids| :: Linked(s, At(ids[k]), ids[k..])
    ensures forall k | 0 < k < |ids| :: s[ids[k - 1]].next == At(ids[k])
    ensures ids != [] ==> s[ids[|ids| - 1]].next == Null
    decreases |ids|
  {
    if ids != [] {
      var t := ids[1..];
      LinkedMembers(s, s[ids[0]].next, t);
      forall k | 0 <= k < |ids| ensures Linked(s, At(ids[k]), ids[k..]) {
        if k > 0 {
          assert ids[k..] == t[k - 1..] && ids[k] == t[k - 1];
        } else {
          assert ids[0..] == ids;
        }
      }
      forall k | 0 < k < |ids| ensures s[ids[k - 1]].next == At(ids[k]) {
        if k > 1 {
          assert ids[k - 1] == t[k - 2] && ids[k] == t[k - 1];
        }
      }
      if t != [] {
        assert ids[|ids| - 1] == t[|t| - 1];
      }
    }
  }

  lemma {:induction false} LinkedUnique(s: Store, p: Ptr, a: seq<nat>, b: seq<nat>)
    requires Linked(s, p, a) && Linked(s, p, b)
    ensures a == b
    decreases |a|
  {
    if a != [] && b != [] {
      LinkedUnique(s, s[a[0]].next, a[1..], b[1..]);
      assert a == [a[0]] + a[1..] && b == [b[0]] + b[1..];
    }
  }

  /** No buffer occurs twice on a chain. */
  lemma {:induction false} LinkedDistinct(s: Store, p: Ptr, ids: seq<nat>)
    requires Linked(s, p, ids)
    ensures forall j, k | 0 <= j < k < |ids| :: ids[j] != ids[k]
  {
    LinkedMembers(s, p, ids);
    forall j, k | 0 <= j < k < |ids| ensures ids[j] != ids[k] {
      if ids[j] == ids[k] {
        LinkedUnique(s, At(ids[j]), ids[j..], ids[k..]);
      }
    }
  }

  lemma {:induction false} BytesSame(s: Store, s': Store, ids: seq<nat>)
    requires forall i | i in ids :: i in s && i in s' && s'[i].data == s[i].data
    ensures Bytes(s', ids) == Bytes(s, ids)
    decreases |ids|
  {
    if ids != [] {
      BytesSame(s, s', ids[1..]);
    }
  }

  /** The cached total is the length of the bytes the chain stands for. */
  lemma {:induction false} TotalIsLength(s: Store, p: Ptr, ids: seq<nat>)
    requires TotalsOk(s) && Linked(s, p, ids)
    ensures Tot(s, p) == |Bytes(s, ids)|
    decreases |ids|
  {
    if ids != [] {
      assert TotalAdds(s, ids[0]);
      TotalIsLength(s, s[ids[0]].next, ids[1..]);
    }
  }

  // ------------------------------------------------------------------ pbuf_free

  /** s' is s without some buffers; of the others only counts have changed. */
  ghost predicate Thinned(s: Store, s': Store) {
    forall i | i in s' :: i in s && s'[i] == s[i].(ref := s'[i].ref)
  }

  lemma {:induction false} PredsOfCount(s: Store, p: nat, ref: nat, i: nat)
    requires p in s
    ensures Preds(s[p := s[p].(ref := ref)], i) == Preds(s, i)
  {
  }

  /** Counting a reference up or down. */
  lemma {:induction false} Recount(s: Store, held: multiset<nat>, held': multiset<nat>, p: nat, ref: nat)
    requires RefsOk(s, held) && p in s && ref > 0
    requires forall i :: held'[i] == if i == p then held[i] + ref - s[p].ref else held[i]
    ensures RefsOk(s[p := s[p].(ref := ref)], held')
  {
    RecountExact(s, held, held', p, ref);
    forall i | i in held' ensures i in s {
      assert held'[i] > 0 && (i != p ==> held[i] > 0);
    }
  }

  lemma {:induction false} RecountExact(s: Store, held: multiset<nat>, held': multiset<nat>, p: nat, ref: nat)
    requires Exact(s, held) && p in s && ref > 0
    requires forall i :: held'[i] == if i == p then held[i] + ref - s[p].ref else held[i]
    ensures Exact(s[p := s[p].(ref := ref)], held')
  {
    var s' := s[p := s[p].(ref := ref)];
    forall i | i in s' ensures s'[i].ref == |Preds(s', i)| + held'[i] > 0 {
      PredsOfCount(s, p, ref, i);
    }
  }

  /** Dropping the last reference to a buffer hands on its own reference to its successor. */
  lemma {:induction false} DropFrees(s: Store, held: multiset<nat>, p: nat)
    requires RefsOk(s, held + multiset{p}) && p in s && s[p].ref == 1
    ensures RefsOk(s - {p}, held + Ref(s[p].next))
  {
    var q, s' := s[p].next, s - {p};
    assert (held + multiset{p})[p] == held[p] + 1;
    assert |Preds(s, p)| == 0;
    NotPointedTo(s, p);
    assert q == At(p) ==> p in Preds(s, p);
    forall i | i in s'
      ensures s'[i].next == Null || s'[i].next.id in s'
      ensures s'[i].ref == |Preds(s', i)| + (held + Ref(q))[i] > 0
    {
      PredsRemove(s, p, i);
      assert (held + multiset{p})[i] == held[i];
    }
    forall i | i in held + Ref(q) ensures i in s' {
      assert i in held ==> i in held + multiset{p};
    }
  }

  lemma {:induction false} NotPointedTo(s: Store, p: nat)
    requires |Preds(s, p)| == 0
    ensures forall i | i in s :: s[i].next != At(p)
  {
    forall i | i in s ensures s[i].next != At(p) {
      assert s[i].next == At(p) ==> i in Preds(s, p);
    }
  }

  /** One round of the loop in pbuf_free. */
  method Unref(s: Store, p: nat, ghost base: multiset<nat>) returns (s': Store, gone: bool, next: Ptr)
    requires RefsOk(s, base + multiset{p}) && p in s
    ensures RefsOk(s', base + Ref(next)) && Thinned(s, s') && (next.At? ==> next.id in s')
    ensures gone <==> s[p].ref == 1
    ensures if gone then s'.Keys == s.Keys - {p} && |s'| == |s| - 1 else s'.Keys == s.Keys && |s'| == |s| && next == Null
  {
    assert |Preds(s, p)| + (base + multiset{p})[p] > 0;
    var ref := s[p].ref - 1;
    gone := ref == 0;
    if gone {
      DropFrees(s, base, p);
      Shrunk(s, p);
      next := s[p].next;
      s' := s - {p};
      assert next.At? ==> next.id in base + Ref(next);
    } else {
      Recount(s, base + multiset{p}, base, p, ref);
      next := Null;
      s' := s[p := s[p].(ref := ref)];
      assert s'.Keys == s.Keys;
      assert base + Ref(Null) == base;
    }
  }

  /** The loop of pbuf_free, counting without a bound. */
  method Walk(s: Store, p: Ptr, ghost base: multiset<nat>) returns (s': Store, dead: nat)
    requires RefsOk(s, base + Ref(p)) && (p.At? ==> p.id in s)
    ensures RefsOk(s', base) && Thinned(s, s') && dead == |s| - |s'|
    ensures p == Null ==> s' == s
  {
    s', dead := s, 0;
    var q := p;
    while q != Null
      invariant RefsOk(s', base + Ref(q)) && Thinned(s, s') && (q.At? ==> q.id in s')
      invariant dead == |s| - |s'|
      invariant p == Null ==> s' == s
      decreases |s'|, if q == Null then 0 else 1
    {
      ghost var before := s';
      var gone;
      s', gone, q := Unref(s', q.id, base);
      ThinnedTrans(s, before, s');
      dead := dead + if gone then 1 else 0;
    }
  }

  /** pbuf_free: of the references callers hold, base and one to p, the one to p is given up. The
      result is the number of buffers deallocated, before it is cut to the eight bits of its type. */
  method FreeIn(s: Store, p: Ptr, ghost base: multiset<nat>) returns (s': Store, count: nat)
    requires RefsOk(s, base + Ref(p)) && (p.At? ==> p.id in s)
    ensures RefsOk(s', base) && Thinned(s, s')
    ensures count == |s| - |s'|
    ensures p.At? ==> if s[p.id].ref > 1 then s'.Keys == s.Keys else p.id !in s'
  {
    if p == Null {
      return s, 0;
    }
    assert |Preds(s, p.id)| + (base + Ref(p))[p.id] == s[p.id].ref;
    var first, gone, next := Unref(s, p.id, base);
    var dead;
    s', dead := Walk(first, next, base);
    ThinnedTrans(s, first, s');
    count := dead + if gone then 1 else 0;
  }

  lemma {:induction false} ThinnedTrans(a: Store, b: Store, c: Store)
    requires Thinned(a, b) && Thinned(b, c)
    ensures Thinned(a, c)
  {
  }

  lemma {:induction false} Shrunk(s: Store, i: nat)
    requires i in s
    ensures |s - {i}| == |s| - 1
  {
    assert (s - {i}).Keys == s.Keys - {i};
    assert |(s - {i}).Keys| == |s.Keys| - 1;
  }

  /** A chain whose head survives survives as a whole. */
  lemma {:induction false} LinkedWithin(s: Store, s': Store, p: Ptr, ids: seq<nat>)
    requires Linked(s, p, ids) && Thinned(s, s') && Closed(s') && (p.At? ==> p.id in s')
    ensures Linked(s', p, ids) && forall i | i in ids :: i in s'
    decreases |ids|
  {
    if ids != [] {
      LinkedWithin(s, s', s[ids[0]].next, ids[1..]);
    }
  }

  lemma {:induction false} ThinnedValid(s: Store, s': Store, held: multiset<nat>)
    requires TotalsOk(s) && Thinned(s, s') && RefsOk(s', held)
    ensures TotalsOk(s')
    ensures Grounded(s) ==> Grounded(s')
  {
    forall i | i in s' ensures TotalAdds(s', i) {
      assert TotalAdds(s, i);
      assert s'[i].next == s[i].next;
    }
    if Grounded(s) {
      forall i | i in s' ensures HasChain(s', i) {
        assert HasChain(s, i);
        var ids :| Linked(s, At(i), ids);
        LinkedWithin(s, s', At(i), ids);
      }
    }
  }

  /** i lies on the chain of a buffer that some caller holds. */
  ghost predicate Reached(s: Store, held: multiset<nat>, i: nat) {
    exists j: nat, ids: seq<nat> :: j in held && Linked(s, At(j), ids) && i in ids
  }

  lemma {:induction false} ChainShort(s: Store, p: Ptr, ids: seq<nat>)
    requires Linked(s, p, ids)
    ensures |ids| <= |s|
  {
    LinkedDistinct(s, p, ids);
    LinkedMembers(s, p, ids);
    DistinctFit(ids, s.Keys);
    assert |s.Keys| == |s|;
  }

  lemma {:induction false} DistinctFit(ids: seq<nat>, k: set<nat>)
    requires forall a, b | 0 <= a < b < |ids| :: ids[a] != ids[b]
    requires forall i | i in ids :: i in k
    ensures |ids| <= |k|
  {
    if ids != [] {
      var t := ids[1..];
      forall a, b | 0 <= a < b < |t| ensures t[a] != t[b] {
        assert ids[a + 1] != ids[b + 1];
      }
      forall i | i in t ensures i in k - {ids[0]} {
        var a :| 0 <= a < |t| && t[a] == i;
        assert ids[0] != ids[a + 1];
      }
      DistinctFit(t, k - {ids[0]});
    }
  }

  /** With exact counts and no circles, every live buffer is on the chain of one that is held:
      nothing leaks. */
  lemma {:induction false} LiveIsReached(s: Store, held: multiset<nat>, i: nat, ids: seq<nat>)
    requires RefsOk(s, held) && Linked(s, At(i), ids) && i in s
    ensures Reached(s, held, i)
    decreases |s| - |ids|
  {
    ChainShort(s, At(i), ids);
    if i in held {
      assert ids[0] == i && i in ids;
      assert i in held && Linked(s, At(i), ids) && i in ids;
    } else {
      assert |Preds(s, i)| > 0;
      var j :| j in Preds(s, i);
      assert Linked(s, At(j), [j] + ids) by {
        assert ([j] + ids)[1..] == ids;
      }
      ChainShort(s, At(j), [j] + ids);
      LiveIsReached(s, held, j, [j] + ids);
      var h: nat, c: seq<nat> :| h in held && Linked(s, At(h), c) && j in c;
      FollowedBy(s, At(h), c, j);
      assert i in c;
    }
  }

  lemma {:induction false} FollowedBy(s: Store, p: Ptr, ids: seq<nat>, j: nat)
    requires Linked(s, p, ids) && j in ids && j in s && s[j].next.At?
    ensures s[j].next.id in ids
    decreases |ids|
  {
    if ids[0] == j {
      assert Linked(s, s[j].next, ids[1..]);
      assert ids[1..][0] in ids;
    } else {
      FollowedBy(s, s[ids[0]].next, ids[1..], j);
    }
  }

  /** pbuf_free deallocates exactly what becomes unreachable from the references still held. */
  lemma {:induction false} FreeExact(s: Store, s': Store, held: multiset<nat>, base: multiset<nat>, i: nat)
    requires RefsOk(s, held) && Grounded(s) && Thinned(s, s') && RefsOk(s', base) && i in s
    ensures i in s' <==> Reached(s, base, i)
  {
    if i in s' {
      assert HasChain(s, i);
      var ids :| Linked(s, At(i), ids);
      LinkedWithin(s, s', At(i), ids);
      LiveIsReached(s', base, i, ids);
      var j: nat, c: seq<nat> :| j in base && Linked(s', At(j), c) && i in c;
      LinkedMembers(s', At(j), c);
      LinkedSame(s', s, At(j), c);
    }
    if Reached(s, base, i) {
      var j: nat, c: seq<nat> :| j in base && Linked(s, At(j), c) && i in c;
      LinkedWithin(s, s', At(j), c);
    }
  }

  /** pbuf_ref */
  method AddRef(s: Store, p: Ptr, ghost held: multiset<nat>) returns (s': Store)
    requires RefsOk(s, held) && (p.At? ==> p.id in s)
    ensures RefsOk(s', held + Ref(p)) && s'.Keys == s.Keys
    ensures forall i | i in s :: s'[i] == s[i].(ref := s[i].ref + if p == At(i) then 1 else 0)
  {
    s' := s;
    if p != Null {
      Recount(s, held, held + Ref(p), p.id, s[p.id].ref + 1);
      s' := s'[p.id := s'[p.id].(ref := s'[p.id].ref + 1)];
    } else {
      assert held + Ref(p) == held;
    }
  }

  // -------------------------------------------------------- cutting and joining

  /** Changing a next pointer moves a reference between the buffers and the callers. */
  lemma {:induction false} Repoint(s: Store, held: multiset<nat>, held': multiset<nat>, p: nat, n: Node)
    requires RefsOk(s, held) && p in s && n.ref == s[p].ref && (n.next.At? ==> n.next.id in s)
    requires held' + Ref(n.next) == held + Ref(s[p].next)
    ensures RefsOk(s[p := n], held')
  {
    RepointExact(s, held, held', p, n);
    forall i | i in held' ensures i in s {
      assert i in held' + Ref(n.next);
    }
  }

  lemma {:induction false} RepointExact(s: Store, held: multiset<nat>, held': multiset<nat>, p: nat, n: Node)
    requires Exact(s, held) && p in s && n.ref == s[p].ref
    requires held' + Ref(n.next) == held + Ref(s[p].next)
    ensures Exact(s[p := n], held')
  {
    var s' := s[p := n];
    forall i | i in s' ensures s'[i].ref == |Preds(s', i)| + held'[i] > 0 {
      PredsUpdate(s, p, n, i);
      assert (held' + Ref(n.next))[i] == (held + Ref(s[p].next))[i];
    }
  }

  /** The totals of the given buffers raised by d. */
  function Raised(s: Store, ids: seq<nat>, d: int): Store {
    map i | i in s :: if i in ids then s[i].(tot := s[i].tot + d) else s[i]
  }

  lemma {:induction false} RaisedRefs(s: Store, ids: seq<nat>, d: int, held: multiset<nat>)
    requires RefsOk(s, held)
    ensures RefsOk(Raised(s, ids, d), held)
  {
    var r := Raised(s, ids, d);
    forall i | i in r ensures r[i].ref == |Preds(r, i)| + held[i] > 0 {
      SamePreds(s, r, i);
    }
  }

  /** A chain that nothing outside leads into is never reached from outside. */
  lemma {:induction false} StaysOutside(s: Store, p: Ptr, ids: seq<nat>, c: seq<nat>)
    requires Linked(s, p, ids) && Unshared(s, c) && (p.At? ==> p.id !in c)
    ensures forall i | i in ids :: i !in c
    decreases |ids|
  {
    if ids != [] {
      var q := s[ids[0]].next;
      if q.At? && q.id in c {
        PredInside(s, c, q.id, ids[0]);
      }
      StaysOutside(s, q, ids[1..], c);
    }
  }

  lemma {:induction false} PredInside(s: Store, c: seq<nat>, i: nat, j: nat)
    requires Unshared(s, c) && i in c && j in s && s[j].next == At(i)
    ensures j in c
  {
    var k :| 0 <= k < |c| && c[k] == i;
    assert j in Preds(s, i);
    assert k > 0 && j in {c[k - 1]};
  }

  lemma {:induction false} LinkedAppend(s: Store, s': Store, p: Ptr, a: seq<nat>, b: seq<nat>)
    requires Linked(s, p, a) && a != [] && (forall i | i in a :: i in s')
    requires forall i | i in a[..|a| - 1] :: i in s && i in s' && s'[i].next == s[i].next
    requires Linked(s', s'[a[|a| - 1]].next, b)
    ensures Linked(s', p, a + b)
    decreases |a|
  {
    assert (a + b)[1..] == a[1..] + b;
    if |a| > 1 {
      var t := a[1..];
      assert a[0] in a[..|a| - 1];
      forall i | i in t[..|t| - 1] ensures i in s && i in s' && s'[i].next == s[i].next {
        assert i in a[..|a| - 1];
      }
      assert t[|t| - 1] == a[|a| - 1];
      LinkedAppend(s, s', s[a[0]].next, t, b);
    }
  }

  lemma {:induction false} BytesAppend(s: Store, a: seq<nat>, b: seq<nat>)
    requires forall i | i in a :: i in s
    ensures Bytes(s, a + b) == Bytes(s, a) + Bytes(s, b)
    decreases |a|
  {
    if a == [] {
      assert a + b == b;
    } else {
      assert (a + b)[1..] == a[1..] + b;
      BytesAppend(s, a[1..], b);
    }
  }

  /** The store after pbuf_cat. */
  function Joined(s: Store, hs: seq<nat>, t: nat): Store
    requires hs != [] && hs[|hs| - 1] in s && t in s
  {
    var last, r := hs[|hs| - 1], Raised(s, hs, s[t].tot);
    r[last := r[last].(next := At(t))]
  }

  /** What pbuf_cat asks for: h is a chain with no other way in, t's chain is apart from it. */
  ghost predicate Joinable(s: Store, hs: seq<nat>, ts: seq<nat>) {
    && hs != [] && ts != [] && hs[|hs| - 1] in s && ts[0] in s
    && Linked(s, At(hs[0]), hs) && Linked(s, At(ts[0]), ts)
    && Unshared(s, hs) && (forall i | i in ts :: i !in hs)
  }

  lemma {:induction false} JoinedRefs(s: Store, hs: seq<nat>, ts: seq<nat>, held: multiset<nat>)
    requires Joinable(s, hs, ts) && RefsOk(s, held + multiset{ts[0]})
    ensures RefsOk(Joined(s, hs, ts[0]), held)
  {
    LinkedMembers(s, At(hs[0]), hs);
    var last, t := hs[|hs| - 1], ts[0];
    var r := Raised(s, hs, s[t].tot);
    RaisedRefs(s, hs, s[t].tot, held + multiset{t});
    Repoint(r, held + multiset{t}, held, last, r[last].(next := At(t)));
  }

  lemma {:induction false} NextOnChain(s: Store, p: Ptr, ids: seq<nat>, i: nat)
    requires Linked(s, p, ids) && i in ids
    ensures i in s && (s[i].next == Null <==> i == ids[|ids| - 1])
    ensures s[i].next.At? ==> s[i].next.id in ids
    decreases |ids|
  {
    LinkedMembers(s, p, ids);
    LinkedDistinct(s, p, ids);
    var k :| 0 <= k < |ids| && ids[k] == i;
    if k + 1 < |ids| {
      assert s[ids[k]].next == At(ids[k + 1]);
    }
  }

  /** Field by field, what pbuf_cat changes. */
  ghost predicate IsJoined(s: Store, j: Store, hs: seq<nat>, t: nat)
    requires hs != [] && t in s
  {
    && j.Keys == s.Keys
    && forall i | i in s :: j[i] == Node(
      if i == hs[|hs| - 1] then At(t) else s[i].next, s[i].data, s[i].tot + (if i in hs then s[t].tot else 0), s[i].ref)
  }

  lemma {:induction false} JoinedFields(s: Store, hs: seq<nat>, ts: seq<nat>)
    requires Joinable(s, hs, ts)
    ensures IsJoined(s, Joined(s, hs, ts[0]), hs, ts[0])
  {
  }

  lemma {:induction false} JoinedTotal(s: Store, j: Store, hs: seq<nat>, ts: seq<nat>, i: nat)
    requires Joinable(s, hs, ts) && IsJoined(s, j, hs, ts[0]) && TotalsOk(s) && i in s
    ensures TotalAdds(j, i)
  {
    var last, t := hs[|hs| - 1], ts[0];
    assert t in ts && t !in hs && last in hs;
    assert TotalAdds(s, i);
    NextOnChain(s, At(hs[0]), hs, last);
    if i in hs {
      NextOnChain(s, At(hs[0]), hs, i);
      if i != last {
        assert s[i].next.At? && s[i].next.id in hs && s[i].next.id in s by {
          NextOnChain(s, At(hs[0]), hs, s[i].next.id);
        }
      }
    } else if s[i].next.At? && s[i].next.id in hs {
      PredInside(s, hs, s[i].next.id, i);
    }
  }

  lemma {:induction false} JoinedChain(s: Store, j: Store, hs: seq<nat>, ts: seq<nat>, i: nat) returns (ids: seq<nat>)
    requires Joinable(s, hs, ts) && IsJoined(s, j, hs, ts[0]) && Grounded(s) && i in s
    ensures Linked(j, At(i), ids)
  {
    if i in hs {
      var k :| 0 <= k < |hs| && hs[k] == i;
      JoinedFrom(s, j, hs, ts, k);
      ids := hs[k..] + ts;
    } else {
      assert HasChain(s, i);
      ids :| Linked(s, At(i), ids);
      StaysOutside(s, At(i), ids, hs);
      LinkedMembers(s, At(i), ids);
      assert hs[|hs| - 1] in hs;
      LinkedSame(s, j, At(i), ids);
    }
  }

  lemma {:induction false} JoinedFrom(s: Store, j: Store, hs: seq<nat>, ts: seq<nat>, k: nat)
    requires Joinable(s, hs, ts) && IsJoined(s, j, hs, ts[0]) && k < |hs|
    ensures Linked(j, At(hs[k]), hs[k..] + ts)
  {
    var c, last := hs[k..], hs[|hs| - 1];
    LinkedMembers(s, At(hs[0]), hs);
    LinkedMembers(s, At(ts[0]), ts);
    assert last in hs;
    LinkedSame(s, j, At(ts[0]), ts);
    AllButLast(s, hs, k);
    LinkedAppend(s, j, At(hs[k]), c, ts);
  }

  lemma {:induction false} AllButLast(s: Store, ids: seq<nat>, k: nat)
    requires ids != [] && Linked(s, At(ids[0]), ids) && k < |ids|
    ensures forall x | x in ids[k..][..|ids| - k - 1] :: x in s && x != ids[|ids| - 1]
  {
    LinkedMembers(s, At(ids[0]), ids);
    LinkedDistinct(s, At(ids[0]), ids);
    var c := ids[k..];
    forall x | x in c[..|c| - 1] ensures x in s && x != ids[|ids| - 1] {
      var m :| 0 <= m < |c| - 1 && c[m] == x;
      assert ids[k + m] == x;
    }
  }

  lemma {:induction false} JoinedBytes(s: Store, j: Store, hs: seq<nat>, ts: seq<nat>)
    requires Joinable(s, hs, ts) && IsJoined(s, j, hs, ts[0])
    ensures Bytes(j, hs + ts) == Bytes(s, hs) + Bytes(s, ts)
  {
    LinkedMembers(s, At(hs[0]), hs);
    LinkedMembers(s, At(ts[0]), ts);
    BytesSame(s, j, hs + ts);
    BytesAppend(s, hs, ts);
  }

  /** pbuf_cat leaves a sound store in which h's chain stands for its own bytes and then t's; the
      caller's reference to t has become the chain's. */
  lemma {:induction false} JoinedValid(s: Store, j: Store, hs: seq<nat>, ts: seq<nat>, held: multiset<nat>)
    requires Joinable(s, hs, ts) && Valid(s, held + multiset{ts[0]}) && j == Joined(s, hs, ts[0])
    ensures Valid(j, held) && Linked(j, At(hs[0]), hs + ts) && Bytes(j, hs + ts) == Bytes(s, hs) + Bytes(s, ts)
  {
    JoinedFields(s, hs, ts);
    JoinedRefs(s, hs, ts, held);
    forall i | i in j ensures TotalAdds(j, i) {
      JoinedTotal(s, j, hs, ts, i);
    }
    forall i | i in j ensures HasChain(j, i) {
      var ids := JoinedChain(s, j, hs, ts, i);
    }
    JoinedFrom(s, j, hs, ts, 0);
    assert hs[0..] == hs;
    JoinedBytes(s, j, hs, ts);
  }

  function Lift(s: Store, i: nat, d: int): Store
    requires i in s
  {
    s[i := s[i].(tot := s[i].tot + d)]
  }

  function LiftAll(s: Store, ids: seq<nat>, d: int): Store
    decreases |ids|
  {
    if ids == [] || ids[0] !in s then s else LiftAll(Lift(s, ids[0], d), ids[1..], d)
  }

  lemma {:induction false} LiftStep(s: Store, ids: seq<nat>, d: int)
    requires ids != [] && Linked(s, At(ids[0]), ids)
    ensures s[ids[0]].next == Null <==> |ids| == 1
    ensures |ids| > 1 ==> s[ids[0]].next == At(ids[1]) && Linked(Lift(s, ids[0], d), At(ids[1]), ids[1..])
  {
    var t := ids[1..];
    LinkedMembers(s, s[ids[0]].next, t);
    if t != [] {
      LinkedSame(s, Lift(s, ids[0], d), At(ids[1]), t);
    }
  }

  lemma {:induction false} LiftAllIsRaised(s: Store, ids: seq<nat>, d: int)
    requires forall i | i in ids :: i in s
    requires forall a, b | 0 <= a < b < |ids| :: ids[a] != ids[b]
    ensures LiftAll(s, ids, d) == Raised(s, ids, d)
    decreases |ids|
  {
    if ids == [] {
      assert Raised(s, [], d) == s;
    } else {
      var t, s' := ids[1..], Lift(s, ids[0], d);
      forall a, b | 0 <= a < b < |t| ensures t[a] != t[b] {
        assert ids[a + 1] != ids[b + 1];
      }
      LiftAllIsRaised(s', t, d);
      assert forall b | 0 <= b < |t| :: t[b] == ids[b + 1];
      forall i | i in s ensures Raised(s', t, d)[i] == Raised(s, ids, d)[i] {
        assert i in ids <==> i == ids[0] || i in t;
      }
    }
  }

  /** The loop of pbuf_cat up to the last buffer of h. */
  method CatTotals(s: Store, h: nat, d: int, ghost hs: seq<nat>) returns (s': Store, last: nat)
    requires hs != [] && h == hs[0] && Linked(s, At(h), hs)
    ensures s' == LiftAll(s, hs, d) && last == hs[|hs| - 1] && last in s'
  {
    s', last := s, h;
    ghost var c := hs;
    while s'[last].next != Null
      invariant c != [] && last == c[0] && c[|c| - 1] == hs[|hs| - 1] && Linked(s', At(last), c)
      invariant LiftAll(s', c, d) == LiftAll(s, hs, d)
      decreases |c|
    {
      LiftStep(s', c, d);
      var next := s'[last].next.id;
      s' := s'[last := s'[last].(tot := s'[last].tot + d)];
      last, c := next, c[1..];
    }
    LiftStep(s', c, d);
    assert c[1..] == [];
    s' := s'[last := s'[last].(tot := s'[last].tot + d)];
  }

  /** pbuf_cat. Nothing happens when either pointer is null. */
  method Cat(s: Store, h: Ptr, t: Ptr, ghost hs: seq<nat>, ghost ts: seq<nat>) returns (s': Store)
    requires h != Null && t != Null ==> Joinable(s, hs, ts) && h == At(hs[0]) && t == At(ts[0])
    ensures s' == if h == Null || t == Null then s else Joined(s, hs, t.id)
  {
    s' := s;
    if h == Null || t == Null {
      return;
    }
    LinkedMembers(s, h, hs);
    LinkedDistinct(s, h, hs);
    LiftAllIsRaised(s, hs, s[t.id].tot);
    var last;
    s', last := CatTotals(s, h.id, s[t.id].tot, hs);
    s' := s'[last := s'[last].(next := t)];
  }

  /** pbuf_chain: the caller keeps its reference to t. */
  method Chain(s: Store, h: Ptr, t: Ptr, ghost hs: seq<nat>, ghost ts: seq<nat>, ghost held: multiset<nat>)
    returns (s': Store)
    requires h != Null && t != Null && Joinable(s, hs, ts) && h == At(hs[0]) && t == At(ts[0])
    requires Valid(s, held + Ref(t))
    ensures Valid(s', held + Ref(t)) && Linked(s', h, hs + ts) && Bytes(s', hs + ts) == Bytes(s, hs) + Bytes(s, ts)
  {
    var j := Cat(s, h, t, hs, ts);
    JoinedValid(s, j, hs, ts, held);
    s' := Keep(j, t, h, hs + ts, held);
  }

  method Keep(j: Store, t: Ptr, ghost h: Ptr, ghost ids: seq<nat>, ghost held: multiset<nat>) returns (s': Store)
    requires Valid(j, held) && t.At? && t.id in j && Linked(j, h, ids)
    ensures Valid(s', held + Ref(t)) && Linked(s', h, ids) && Bytes(s', ids) == Bytes(j, ids)
  {
    s' := AddRef(j, t, held);
    RecountedValid(j, s', h, ids);
  }

  /** Totals, chains and contents do not depend on the counts. */
  lemma {:induction false} RecountedValid(s: Store, s': Store, p: Ptr, ids: seq<nat>)
    requires TotalsOk(s) && Grounded(s) && Linked(s, p, ids)
    requires s'.Keys == s.Keys && forall i | i in s :: s'[i] == s[i].(ref := s'[i].ref)
    ensures TotalsOk(s') && Grounded(s') && Linked(s', p, ids) && Bytes(s', ids) == Bytes(s, ids)
  {
    forall i | i in s' ensures TotalAdds(s', i) {
      assert TotalAdds(s, i);
    }
    forall i | i in s' ensures HasChain(s', i) {
      assert HasChain(s, i);
      var c :| Linked(s, At(i), c);
      LinkedMembers(s, At(i), c);
      LinkedSame(s, s', At(i), c);
    }
    LinkedMembers(s, p, ids);
    LinkedSame(s, s', p, ids);
    BytesSame(s, s', ids);
  }

  /** The chain ids cut behind its k-th buffer, of which rem bytes stay; the totals in front of it
      are lowered by drop. */
  ghost predicate IsCut(s: Store, c: Store, ids: seq<nat>, k: nat, rem: nat, drop: int)
    requires k < |ids|
  {
    && c.Keys == s.Keys
    && forall i | i in s ::
      c[i] == if i == ids[k] then Node(Null, if rem <= |s[i].data| then s[i].data[..rem] else [], rem, s[i].ref)
              else if i in ids[..k] then s[i].(tot := s[i].tot - drop) else s[i]
  }

  /** What the cut keeps of the chain's bytes, and what it must take off the totals. */
  ghost predicate Cuttable(s: Store, ids: seq<nat>, k: nat, rem: nat, drop: int) {
    && k < |ids| && Linked(s, At(ids[0]), ids) && (forall i | i in ids :: i in s) && rem <= |s[ids[k]].data|
    && Unshared(s, ids[..k + 1])
    && drop == |Bytes(s, ids)| - |Bytes(s, ids[..k])| - rem
  }

  lemma {:induction false} TotalAt(s: Store, ids: seq<nat>, k: nat)
    requires TotalsOk(s) && k < |ids| && Linked(s, At(ids[0]), ids)
    ensures ids[k] in s && s[ids[k]].tot == |Bytes(s, ids)| - |Bytes(s, ids[..k])|
  {
    LinkedMembers(s, At(ids[0]), ids);
    TotalIsLength(s, At(ids[k]), ids[k..]);
    assert ids == ids[..k] + ids[k..];
    BytesAppend(s, ids[..k], ids[k..]);
  }

  lemma {:induction false} CutTotal(s: Store, c: Store, ids: seq<nat>, k: nat, rem: nat, drop: int, i: nat)
    requires Cuttable(s, ids, k, rem, drop) && IsCut(s, c, ids, k, rem, drop) && TotalsOk(s) && i in s
    ensures TotalAdds(c, i)
  {
    if i == ids[k] {
    } else if i in ids[..k] {
      var m :| 0 <= m < k && ids[m] == i;
      CutTotalIn(s, c, ids, k, rem, drop, m);
    } else {
      OutsideSame(s, c, ids, k, rem, drop, i);
      CutTotalOut(s, c, ids[..k + 1], i);
    }
  }

  lemma {:induction false} OutsideSame(s: Store, c: Store, ids: seq<nat>, k: nat, rem: nat, drop: int, i: nat)
    requires k < |ids| && IsCut(s, c, ids, k, rem, drop) && i != ids[k] && i !in ids[..k]
    ensures i !in ids[..k + 1]
    ensures forall x | x in s && x !in ids[..k + 1] :: c[x] == s[x]
  {
    assert ids[..k + 1] == ids[..k] + [ids[k]];
  }

  lemma {:induction false} CutTotalOut(s: Store, c: Store, pre: seq<nat>, i: nat)
    requires TotalsOk(s) && i in s && i !in pre && Unshared(s, pre) && c.Keys == s.Keys
    requires forall x | x in s && x !in pre :: c[x] == s[x]
    ensures TotalAdds(c, i)
  {
    assert TotalAdds(s, i);
    if s[i].next.At? && s[i].next.id in pre {
      PredInside(s, pre, s[i].next.id, i);
    }
  }

  lemma {:induction false} CutTotalIn(s: Store, c: Store, ids: seq<nat>, k: nat, rem: nat, drop: int, m: nat)
    requires Cuttable(s, ids, k, rem, drop) && IsCut(s, c, ids, k, rem, drop) && TotalsOk(s) && m < k
    ensures TotalAdds(c, ids[m])
  {
    LinkedMembers(s, At(ids[0]), ids);
    TotalAt(s, ids, k);
    assert TotalAdds(s, ids[m]) && s[ids[m]].next == At(ids[m + 1]);
    Earlier(s, ids, k, m);
    if m + 1 < k {
      Earlier(s, ids, k, m + 1);
    }
  }

  lemma {:induction false} Earlier(s: Store, ids: seq<nat>, k: nat, m: nat)
    requires m < k < |ids| && Linked(s, At(ids[0]), ids)
    ensures ids[m] in ids[..k] && ids[m] != ids[k]
  {
    LinkedDistinct(s, At(ids[0]), ids);
    assert ids[..k][m] == ids[m];
  }

  lemma {:induction false} CutPrefix(s: Store, c: Store, ids: seq<nat>, k: nat, rem: nat, drop: int, m: nat)
    requires Cuttable(s, ids, k, rem, drop) && IsCut(s, c, ids, k, rem, drop) && m <= k
    ensures Linked(c, At(ids[m]), ids[m..k + 1])
    decreases k - m
  {
    var t := ids[m..k + 1];
    LinkedMembers(s, At(ids[0]), ids);
    LinkedDistinct(s, At(ids[0]), ids);
    if m < k {
      assert s[ids[m]].next == At(ids[m + 1]);
      CutPrefix(s, c, ids, k, rem, drop, m + 1);
      assert t[1..] == ids[m + 1..k + 1];
    } else {
      assert t == [ids[k]] && t[1..] == [];
    }
  }

  lemma {:induction false} CutOutside(s: Store, c: Store, pre: seq<nat>, i: nat) returns (chain: seq<nat>)
    requires Grounded(s) && i in s && i !in pre && Unshared(s, pre) && c.Keys == s.Keys
    requires forall x | x in s && x !in pre :: c[x].next == s[x].next
    ensures Linked(c, At(i), chain)
  {
    assert HasChain(s, i);
    chain :| Linked(s, At(i), chain);
    StaysOutside(s, At(i), chain, pre);
    LinkedMembers(s, At(i), chain);
    LinkedSame(s, c, At(i), chain);
  }

  lemma {:induction false} CutChain(s: Store, c: Store, ids: seq<nat>, k: nat, rem: nat, drop: int, i: nat)
    returns (chain: seq<nat>)
    requires Cuttable(s, ids, k, rem, drop) && IsCut(s, c, ids, k, rem, drop) && Grounded(s) && i in s
    ensures Linked(c, At(i), chain)
  {
    var pre := ids[..k + 1];
    if i in pre {
      var m :| 0 <= m < |pre| && pre[m] == i;
      CutPrefix(s, c, ids, k, rem, drop, m);
      chain := ids[m..k + 1];
    } else {
      assert ids[k] in pre;
      chain := CutOutside(s, c, pre, i);
    }
  }

  lemma {:induction false} CutBytes(s: Store, c: Store, ids: seq<nat>, k: nat, rem: nat, drop: int)
    requires Cuttable(s, ids, k, rem, drop) && IsCut(s, c, ids, k, rem, drop)
    ensures var n := |Bytes(s, ids[..k])| + rem;
      n <= |Bytes(s, ids)| && Bytes(c, ids[..k + 1]) == Bytes(s, ids)[..n]
  {
    var a, x, z := ids[..k], ids[k], ids[k + 1..];
    assert ids == a + ([x] + z) && ids[..k + 1] == a + [x];
    BytesAppend(s, a, [x] + z);
    assert ([x] + z)[1..] == z;
    PrefixFacts(s, ids, k);
    BytesSame(s, c, a);
    BytesAppend(c, a, [x]);
    assert [x][1..] == [] && Bytes(c, [x]) == s[x].data[..rem];
  }

  /** Taking out one link hands its reference over. */
  lemma {:induction false} Unlink(s: Store, c: Store, x: nat, held: multiset<nat>)
    requires RefsOk(s, held) && x in s && c.Keys == s.Keys
    requires forall i | i in s :: c[i].ref == s[i].ref && c[i].next == if i == x then Null else s[i].next
    ensures RefsOk(c, held + Ref(s[x].next))
  {
    var q := s[x].next;
    forall i | i in c ensures c[i].ref == |Preds(c, i)| + (held + Ref(q))[i] > 0 {
      PredsUpdate(s, x, c[x], i);
      assert Preds(c, i) == Preds(s[x := c[x]], i);
    }
  }

  lemma {:induction false} CutRefs(s: Store, c: Store, ids: seq<nat>, k: nat, rem: nat, drop: int, held: multiset<nat>)
    requires Cuttable(s, ids, k, rem, drop) && IsCut(s, c, ids, k, rem, drop) && RefsOk(s, held)
    ensures RefsOk(c, held + Ref(s[ids[k]].next)) && (s[ids[k]].next.At? ==> s[ids[k]].next.id in c)
  {
    Unlink(s, c, ids[k], held);
  }

  /** Behind the cut the rest of the chain hangs on one reference, ready to be freed. */
  lemma {:induction false} CutValid(s: Store, c: Store, ids: seq<nat>, k: nat, rem: nat, drop: int, held: multiset<nat>)
    requires Cuttable(s, ids, k, rem, drop) && IsCut(s, c, ids, k, rem, drop) && Valid(s, held)
    ensures Valid(c, held + Ref(s[ids[k]].next)) && (s[ids[k]].next.At? ==> s[ids[k]].next.id in c)
    ensures Linked(c, At(ids[0]), ids[..k + 1])
  {
    CutRefs(s, c, ids, k, rem, drop, held);
    forall i | i in c ensures TotalAdds(c, i) {
      CutTotal(s, c, ids, k, rem, drop, i);
    }
    forall i | i in c ensures HasChain(c, i) {
      var x := CutChain(s, c, ids, k, rem, drop, i);
    }
    CutPrefix(s, c, ids, k, rem, drop, 0);
    assert ids[0..k + 1] == ids[..k + 1];
  }

  lemma {:induction false} KeptChain(c: Store, s': Store, held: multiset<nat>, p: nat, ids: seq<nat>)
    requires Thinned(c, s') && RefsOk(s', held) && p in held && Linked(c, At(p), ids)
    ensures Linked(s', At(p), ids) && Bytes(s', ids) == Bytes(c, ids)
  {
    LinkedWithin(c, s', At(p), ids);
    LinkedMembers(c, At(p), ids);
    BytesSame(c, s', ids);
  }

  lemma {:induction false} FirstCut(s: Store, p: nat, ids: seq<nat>)
    requires ids != [] && ids[0] == p && Linked(s, At(p), ids) && Preds(s, p) == {}
    ensures var n := |s[p].data|; var drop := |Bytes(s, ids)| - n;
      Cuttable(s, ids, 0, n, drop) && IsCut(s, s[p := s[p].(next := Null, tot := n)], ids, 0, n, drop)
  {
    assert ids[..0] == [] && ids[..1] == [p] && s[p].data[..|s[p].data|] == s[p].data;
    LinkedMembers(s, At(p), ids);
  }

  /** Cutting behind the first buffer. */
  lemma {:induction false} DechainCut(s: Store, p: nat, ids: seq<nat>, held: multiset<nat>)
    requires Valid(s, held) && ids != [] && ids[0] == p && Linked(s, At(p), ids) && Preds(s, p) == {}
    ensures var n := |s[p].data|; var c := s[p := s[p].(next := Null, tot := n)];
      && Valid(c, held + Ref(s[p].next)) && (s[p].next.At? ==> s[p].next.id in c)
      && Linked(c, At(p), [p]) && n <= |Bytes(s, ids)| && Bytes(c, [p]) == Bytes(s, ids)[..n]
  {
    var n := |s[p].data|;
    var c, drop := s[p := s[p].(next := Null, tot := n)], |Bytes(s, ids)| - n;
    assert ids[..0] == [] && ids[..1] == [p] && s[p].data[..n] == s[p].data;
    FirstCut(s, p, ids);
    CutSound(s, c, ids, 0, n, n, drop, held);
  }

  /** A count in an u8_t. */
  function EightBits(n: nat): nat {
    n % 0x100
  }

  /** The remainder q, if the number of pbufs deallocated is zero in eight bits. */
  function Answer(gone: nat, q: Ptr): Ptr {
    if EightBits(gone) > 0 then Null else q
  }

  /** pbuf_dechain: p is left alone with its own bytes. The remainder is returned if the number of
      pbufs deallocated, counted in eight bits, is zero. */
  method Dechain(s: Store, p: nat, ghost ids: seq<nat>, ghost held: multiset<nat>) returns (s': Store, r: Ptr)
    requires Valid(s, held) && p in held && ids != [] && ids[0] == p && Linked(s, At(p), ids) && Preds(s, p) == {}
    ensures Valid(s', held) && Linked(s', At(p), [p])
    ensures |s[p].data| <= |Bytes(s, ids)| && Bytes(s', [p]) == Bytes(s, ids)[..|s[p].data|]
    ensures Thinned(s[p := s[p].(next := Null, tot := |s[p].data|)], s') && |s'| <= |s|
    ensures r == Answer(|s| - |s'|, s[p].next)
  {
    var q, n := s[p].next, |s[p].data|;
    ghost var c := s[p := s[p].(next := Null, tot := n)];
    DechainCut(s, p, ids, held);
    assert TotalAdds(s, p);
    r := Null;
    s' := s;
    if q != Null {
      s' := s'[q.id := s'[q.id].(tot := s'[p].tot - n)];
      assert s'[q.id] == s[q.id];
      assert s' == s;
      s' := s'[p := s'[p].(next := Null, tot := n)];
      assert s' == c && |c| == |s|;
      s', r := Release(s', q, p, held);
    } else {
      assert s[p] == s[p].(next := Null, tot := n);
      assert c == s;
      assert held + Ref(Null) == held;
      assert Thinned(c, s') && |s| - |s'| == 0;
    }
  }

  /** Freeing what was cut off, and what pbuf_dechain makes of the result. */
  method Release(c: Store, q: Ptr, ghost p: nat, ghost held: multiset<nat>) returns (s': Store, r: Ptr)
    requires Valid(c, held + Ref(q)) && q.At? && q.id in c && p in held && Linked(c, At(p), [p])
    ensures Valid(s', held) && Thinned(c, s') && Linked(s', At(p), [p]) && Bytes(s', [p]) == Bytes(c, [p])
    ensures |s'| <= |c| && r == Answer(|c| - |s'|, q)
  {
    var gone;
    s', gone := FreeIn(c, q, held);
    ThinnedValid(c, s', held);
    KeptChain(c, s', held, p, [p]);
    KeysCount(c, s');
    r := TailOf(q, gone);
  }

  /** What pbuf_dechain returns, given how many pbufs were deallocated. */
  method TailOf(q: Ptr, gone: nat) returns (r: Ptr)
    ensures r == Answer(gone, q)
  {
    var tailGone := EightBits(gone);
    r := if tailGone > 0 then Null else q;
  }

  /** r tells whether the buffer q is still alive, exactly if the number of deallocated buffers is
      no positive multiple of 256. */
  predicate RightAnswer(s: Store, s': Store, q: nat, r: Ptr) {
    (r.At? <==> q in s') <==> (|s'| >= |s| || EightBits(|s| - |s'|) != 0)
  }

  /** The answer of pbuf_dechain is the remainder exactly if that is still alive, unless a positive
      multiple of 256 pbufs was deallocated: then it points to freed memory. */
  lemma {:induction false} DechainAnswer(s: Store, s': Store, p: nat, held: multiset<nat>, r: Ptr)
    requires Valid(s, held) && p in held && s[p].next.At? && Preds(s, p) == {}
    requires var c := s[p := s[p].(next := Null, tot := |s[p].data|)]; Thinned(c, s') && Valid(s', held)
    requires |s'| <= |s| && r == Answer(|s| - |s'|, s[p].next)
    ensures RightAnswer(s, s', s[p].next.id, r)
  {
    var q := s[p].next.id;
    var c := s[p := s[p].(next := Null, tot := |s[p].data|)];
    assert c.Keys == s.Keys && q in c;
    KeysCount(c, s');
    if q in s' {
      NothingGone(s, c, s', p, held);
    }
  }

  /** A chain of n + 1 buffers of one byte, from the buffer n down to the buffer 0. */
  function Row(n: nat): (s: Store)
    ensures forall i: nat {:trigger i in s} {:trigger s[i]} :: i in s <==> i <= n
    ensures forall i: nat {:trigger s[i]} | i <= n :: s[i] == Node(if i == 0 then Null else At(i - 1), [0], i + 1, 1)
    ensures |s| == n + 1
  {
    (if n == 0 then map[] else Row(n - 1))[n := Node(if n == 0 then Null else At(n - 1), [0], n + 1, 1)]
  }

  function RowIds(i: nat): seq<nat> {
    if i == 0 then [0] else [i] + RowIds(i - 1)
  }

  lemma {:induction false} RowLinked(n: nat, i: nat)
    requires i <= n
    ensures Linked(Row(n), At(i), RowIds(i))
  {
    if i > 0 {
      RowLinked(n, i - 1);
      assert RowIds(i)[1..] == RowIds(i - 1);
    } else {
      assert [0 as nat][1..] == [];
    }
  }

  lemma {:induction false} RowPreds(n: nat, i: nat)
    requires i <= n
    ensures Preds(Row(n), i) == if i < n then {i + 1} else {}
  {
    var s := Row(n);
    forall j: nat ensures j in Preds(s, i) <==> j == i + 1 <= n {
      if j in s && j > 0 {
        assert s[j].next == At(j - 1);
      }
    }
  }

  lemma {:induction false} RowValid(n: nat)
    ensures Valid(Row(n), multiset{n})
  {
    var s := Row(n);
    forall i | i in s ensures s[i].ref == |Preds(s, i)| + multiset{n}[i] > 0 {
      RowPreds(n, i);
    }
    forall i | i in s ensures TotalAdds(s, i) {
      assert s[i].next.At? ==> s[i - 1].tot == i;
    }
    forall i | i in s ensures HasChain(s, i) {
      RowLinked(n, i);
    }
  }

  /** With one reference, to a buffer that ends its chain, nothing else is live. */
  lemma {:induction false} OnlyHead(s: Store, p: nat)
    requires Valid(s, multiset{p}) && p in s && s[p].next == Null
    ensures s.Keys == {p} && |s| == 1
  {
    forall i | i in s ensures i == p {
      assert HasChain(s, i);
      var x :| Linked(s, At(i), x);
      LiveIsReached(s, multiset{p}, i, x);
      var j: nat, y: seq<nat> :| j in multiset{p} && Linked(s, At(j), y) && i in y;
      assert j == p && Linked(s, Null, y[1..]);
      assert y == [p] + y[1..];
    }
    assert s.Keys == {p};
    assert |s| == |s.Keys|;
  }

  /** The head of n + 1 buffers is dechained, n being a positive multiple of 256. The other n are
      deallocated, their number is zero in eight bits, and what is returned points to the first
      of them. */
  method DanglingExample(n: nat) returns (s: Store, s': Store, r: Ptr)
    requires n > 0 && EightBits(n) == 0
    ensures Valid(s, multiset{n}) && |s| == n + 1 && s'.Keys == {n} && r == At(n - 1)
  {
    s := Row(n);
    RowValid(n);
    RowLinked(n, n);
    RowPreds(n, n);
    s', r := Dechain(s, n, RowIds(n), multiset{n});
    OnlyHead(s', n);
  }

  /** If the buffer behind p survives, all buffers do. */
  lemma {:induction false} NothingGone(s: Store, c: Store, s': Store, p: nat, held: multiset<nat>)
    requires Valid(s, held) && p in held && s[p].next.At? && Preds(s, p) == {}
    requires c == s[p := s[p].(next := Null, tot := |s[p].data|)] && Thinned(c, s') && Valid(s', held)
    requires s[p].next.id in s'
    ensures s'.Keys == s.Keys
  {
    var q := s[p].next.id;
    forall i | i in s ensures i in s' {
      assert HasChain(s, i);
      var y :| Linked(s, At(i), y);
      LiveIsReached(s, held, i, y);
      var j: nat, x: seq<nat> :| j in held && Linked(s, At(j), x) && i in x;
      ReachedStays(s, c, s', p, j, x, i);
    }
  }

  lemma {:induction false} ReachedStays(s: Store, c: Store, s': Store, p: nat, j: nat, x: seq<nat>, i: nat)
    requires p in s && s[p].next.At? && s[p].next.id in s' && Closed(s')
    requires c == s[p := s[p].(next := Null, tot := |s[p].data|)] && Thinned(c, s')
    requires j in s' && Linked(s, At(j), x) && i in x
    ensures i in s'
    decreases |x|
  {
    if i != j {
      var n := s[j].next;
      assert i in x[1..];
      assert n.At?;
      if j != p {
        assert s'[j].next == n;
      }
      ReachedStays(s, c, s', p, n.id, x[1..], i);
    }
  }

  lemma {:induction false} KeysCount(c: Store, s': Store)
    requires Thinned(c, s')
    ensures |s'| <= |c| && (|s'| == |c| ==> s'.Keys == c.Keys)
  {
    assert s'.Keys <= c.Keys;
    SubsetSize(s'.Keys, c.Keys);
  }

  lemma {:induction false} SubsetSize(a: set<nat>, b: set<nat>)
    requires a <= b
    ensures |a| <= |b| && (|a| == |b| ==> a == b)
  {
    assert b == a + (b - a);
  }

  lemma {:induction false} LiftAllMore(s: Store, a: seq<nat>, x: nat, d: int)
    requires (forall i | i in a :: i in s) && x in s
    ensures x in LiftAll(s, a, d) && LiftAll(s, a + [x], d) == Lift(LiftAll(s, a, d), x, d)
    decreases |a|
  {
    if a == [] {
      assert [x][1..] == [];
    } else {
      assert (a + [x])[1..] == a[1..] + [x];
      LiftAllMore(Lift(s, a[0], d), a[1..], x, d);
    }
  }

  /** Where pbuf_realloc is while it steps over the buffers that stay as they are. */
  ghost predicate Stepping(s: Store, s': Store, ids: seq<nat>, k: nat, rem: int, newLen: nat, d: int) {
    && k < |ids| && Linked(s, At(ids[0]), ids) && ids[k] in s && ids[k] in s' && s'[ids[k]] == s[ids[k]]
    && s' == LiftAll(s, ids[..k], d) && rem == newLen - |Bytes(s, ids[..k])| && 0 <= rem
    && (k > 0 ==> rem > 0)
  }

  lemma {:induction false} StepOver(s: Store, s': Store, ids: seq<nat>, k: nat, rem: int, newLen: nat, d: int)
    requires Stepping(s, s', ids, k, rem, newLen, d) && newLen < |Bytes(s, ids)| && rem > |s[ids[k]].data|
    ensures s[ids[k]].next.At? && k + 1 < |ids| && s[ids[k]].next.id == ids[k + 1]
    ensures Stepping(s, Lift(s', ids[k], d), ids, k + 1, rem - |s[ids[k]].data|, newLen, d)
  {
    LinkedMembers(s, At(ids[0]), ids);
    LinkedDistinct(s, At(ids[0]), ids);
    assert ids[..k + 1] == ids[..k] + [ids[k]];
    BytesAppend(s, ids[..k], [ids[k]]);
    assert [ids[k]][1..] == [];
    assert Bytes(s, [ids[k]]) == s[ids[k]].data;
    assert ids[..|ids|] == ids;
    LiftAllMore(s, ids[..k], ids[k], d);
    LiftAllApart(s, ids[..k + 1], ids[k + 1], d);
  }

  lemma {:induction false} LiftAllApart(s: Store, a: seq<nat>, x: nat, d: int)
    requires x !in a && x in s
    ensures x in LiftAll(s, a, d) && LiftAll(s, a, d)[x] == s[x]
    decreases |a|
  {
    if a != [] && a[0] in s {
      LiftAllApart(Lift(s, a[0], d), a[1..], x, d);
    }
  }

  lemma {:induction false} SteppedTo(s: Store, s': Store, ids: seq<nat>, k: nat, rem: nat, newLen: nat, d: int)
    requires Stepping(s, s', ids, k, rem, newLen, d) && rem <= |s[ids[k]].data| && Unshared(s, ids)
    requires d == newLen - |Bytes(s, ids)|
    ensures Cuttable(s, ids, k, rem, -d)
    ensures IsCut(s, s'[ids[k] := Node(Null, s[ids[k]].data[..rem], rem, s[ids[k]].ref)], ids, k, rem, -d)
  {
    LinkedMembers(s, At(ids[0]), ids);
    UnsharedPrefix(s, ids, k + 1);
    SteppedFields(s, s', ids, k, rem, d);
  }

  lemma {:induction false} UnsharedPrefix(s: Store, ids: seq<nat>, m: nat)
    requires Unshared(s, ids) && 0 < m <= |ids|
    ensures Unshared(s, ids[..m])
  {
    var pre := ids[..m];
    forall j | 0 < j < |pre| ensures Preds(s, pre[j]) == {pre[j - 1]} {
      assert pre[j] == ids[j];
    }
  }

  lemma {:induction false} SteppedFields(s: Store, s': Store, ids: seq<nat>, k: nat, rem: nat, d: int)
    requires k < |ids| && Linked(s, At(ids[0]), ids) && s' == LiftAll(s, ids[..k], d)
    requires ids[k] in s && rem <= |s[ids[k]].data|
    ensures IsCut(s, s'[ids[k] := Node(Null, s[ids[k]].data[..rem], rem, s[ids[k]].ref)], ids, k, rem, -d)
  {
    PrefixFacts(s, ids, k);
    LiftAllIsRaised(s, ids[..k], d);
    CutFields(s, ids[..k], ids[k], rem, d);
  }

  lemma {:induction false} PrefixFacts(s: Store, ids: seq<nat>, k: nat)
    requires k < |ids| && Linked(s, At(ids[0]), ids)
    ensures forall i | i in ids[..k] :: i in s
    ensures forall a, b | 0 <= a < b < |ids[..k]| :: ids[..k][a] != ids[..k][b]
    ensures ids[k] !in ids[..k]
  {
    LinkedMembers(s, At(ids[0]), ids);
    LinkedDistinct(s, At(ids[0]), ids);
  }

  lemma {:induction false} CutFields(s: Store, a: seq<nat>, x: nat, rem: nat, d: int)
    requires x in s && x !in a && rem <= |s[x].data|
    ensures var c := Raised(s, a, d)[x := Node(Null, s[x].data[..rem], rem, s[x].ref)];
      && c.Keys == s.Keys && c[x] == Node(Null, s[x].data[..rem], rem, s[x].ref)
      && forall i | i in s && i != x :: c[i] == if i in a then s[i].(tot := s[i].tot + d) else s[i]
  {
  }

  /** The stepping loop of pbuf_realloc; the totals are changed in sixteen bits. */
  method StepTo(s: Store, p: nat, newLen: nat, ghost ids: seq<nat>)
    returns (s': Store, q: nat, rem: nat, ghost k: nat)
    requires ids != [] && ids[0] == p && Linked(s, At(p), ids) && TotalsOk(s)
    requires newLen < s[p].tot <= 0xFFFF
    ensures Stepping(s, s', ids, k, rem, newLen, newLen - |Bytes(s, ids)|) && q == ids[k] && rem <= |s[q].data|
    ensures s[p].tot == |Bytes(s, ids)|
  {
    TotalIsLength(s, At(p), ids);
    var grow := newLen - s[p].tot;
    s', q, rem, k := s, p, newLen, 0;
    assert ids[..0] == [];
    while rem > |s'[q].data|
      invariant Stepping(s, s', ids, k, rem, newLen, grow) && q == ids[k]
      decreases |ids| - k
    {
      StepOver(s, s', ids, k, rem, newLen, grow);
      StepTotal(s, ids, k, newLen, grow);
      var next := s'[q].next.id;
      rem := rem - |s'[q].data|;
      s' := s'[q := s'[q].(tot := U16(s'[q].tot + U16(grow)))];
      q, k := next, k + 1;
    }
  }

  lemma {:induction false} StepTotal(s: Store, ids: seq<nat>, k: nat, newLen: nat, grow: int)
    requires TotalsOk(s) && k < |ids| && Linked(s, At(ids[0]), ids)
    requires newLen < |Bytes(s, ids)| <= 0xFFFF && |Bytes(s, ids[..k])| <= newLen && grow == newLen - |Bytes(s, ids)|
    ensures ids[k] in s && U16(s[ids[k]].tot + U16(grow)) == s[ids[k]].tot + grow
  {
    TotalAt(s, ids, k);
    ShortTotal(s[ids[k]].tot, grow);
  }

  /** Adding a negative difference in sixteen bits. */
  lemma {:induction false} ShortTotal(tot: int, grow: int)
    requires 0 <= tot + grow <= 0xFFFF && -0xFFFF <= grow < 0
    ensures U16(tot + U16(grow)) == tot + grow
  {
  }

  /** pbuf_realloc: the chain is shortened to newLen bytes, if it is longer. */
  method Realloc(s: Store, p: nat, newLen: nat, ghost ids: seq<nat>, ghost held: multiset<nat>)
    returns (s': Store, ghost kept: seq<nat>)
    requires Valid(s, held) && p in held && ids != [] && ids[0] == p && Linked(s, At(p), ids) && Unshared(s, ids)
    requires s[p].tot <= 0xFFFF
    ensures Valid(s', held) && kept <= ids && Linked(s', At(p), kept) && Spared(s, s', ids)
    ensures newLen >= |Bytes(s, ids)| ==> s' == s && kept == ids
    ensures newLen < |Bytes(s, ids)| ==> Bytes(s', kept) == Bytes(s, ids)[..newLen]
  {
    TotalIsLength(s, At(p), ids);
    if newLen >= s[p].tot {
      return s, ids;
    }
    s', kept := Shorten(s, p, newLen, ids, held);
  }

  method Shorten(s: Store, p: nat, newLen: nat, ghost ids: seq<nat>, ghost held: multiset<nat>)
    returns (s': Store, ghost kept: seq<nat>)
    requires Valid(s, held) && p in held && ids != [] && ids[0] == p && Linked(s, At(p), ids) && Unshared(s, ids)
    requires newLen < s[p].tot <= 0xFFFF
    ensures Valid(s', held) && kept <= ids && Linked(s', At(p), kept)
    ensures newLen <= |Bytes(s, ids)| && Bytes(s', kept) == Bytes(s, ids)[..newLen] && Spared(s, s', ids)
  {
    ghost var k, rem, drop;
    var c, next;
    c, next, k, rem, drop := CutBehind(s, p, newLen, ids);
    CutSound(s, c, ids, k, rem, newLen, drop, held);
    kept := ids[..k + 1];
    s' := DropTail(c, next, p, kept, held);
    SparedBy(s, c, s', ids, k, rem, drop);
  }

  /** Of the buffers outside the chain nothing but counts has changed. */
  ghost predicate Spared(s: Store, s': Store, ids: seq<nat>) {
    forall i | i in s' && i !in ids :: i in s && s'[i] == s[i].(ref := s'[i].ref)
  }

  lemma {:induction false} SparedBy(s: Store, c: Store, s': Store, ids: seq<nat>, k: nat, rem: nat, drop: int)
    requires k < |ids| && IsCut(s, c, ids, k, rem, drop) && Thinned(c, s')
    ensures Spared(s, s', ids)
  {
    forall i | i in s' && i !in ids ensures i in s && s'[i] == s[i].(ref := s'[i].ref) {
      assert i !in ids[..k];
    }
  }

  lemma {:induction false} CutSound(s: Store, c: Store, ids: seq<nat>, k: nat, rem: nat, newLen: nat, drop: int, held: multiset<nat>)
    requires Cuttable(s, ids, k, rem, drop) && IsCut(s, c, ids, k, rem, drop) && Valid(s, held)
    requires newLen == |Bytes(s, ids[..k])| + rem
    ensures Valid(c, held + Ref(s[ids[k]].next)) && (s[ids[k]].next.At? ==> s[ids[k]].next.id in c)
    ensures Linked(c, At(ids[0]), ids[..k + 1])
    ensures newLen <= |Bytes(s, ids)| && Bytes(c, ids[..k + 1]) == Bytes(s, ids)[..newLen]
  {
    CutValid(s, c, ids, k, rem, drop, held);
    CutBytes(s, c, ids, k, rem, drop);
  }

  /** Everything pbuf_realloc does before it frees the rest of the chain. */
  method CutBehind(s: Store, p: nat, newLen: nat, ghost ids: seq<nat>)
    returns (c: Store, next: Ptr, ghost k: nat, ghost part: nat, ghost drop: int)
    requires ids != [] && ids[0] == p && Linked(s, At(p), ids) && TotalsOk(s) && Unshared(s, ids)
    requires newLen < s[p].tot <= 0xFFFF
    ensures k < |ids| && ids[k] in s && next == s[ids[k]].next && newLen == |Bytes(s, ids[..k])| + part
    ensures Cuttable(s, ids, k, part, drop) && IsCut(s, c, ids, k, part, drop)
  {
    var s', q, rem;
    s', q, rem, k := StepTo(s, p, newLen, ids);
    drop := |Bytes(s, ids)| - newLen;
    SteppedTo(s, s', ids, k, rem, newLen, -drop);
    part := rem;
    next := s'[q].next;
    c := s'[q := Node(Null, s'[q].data[..rem], rem, s'[q].ref)];
  }

  method DropTail(c: Store, next: Ptr, ghost p: nat, ghost kept: seq<nat>, ghost held: multiset<nat>)
    returns (s': Store)
    requires Valid(c, held + Ref(next)) && (next.At? ==> next.id in c) && p in held && Linked(c, At(p), kept)
    ensures Valid(s', held) && Linked(s', At(p), kept) && Bytes(s', kept) == Bytes(c, kept) && Thinned(c, s')
  {
    s' := c;
    if next != Null {
      var gone;
      s', gone := FreeIn(s', next, held);
    } else {
      assert held + Ref(Null) == held;
    }
    ThinnedValid(c, s', held);
    KeptChain(c, s', held, p, kept);
  }

  // ---------------------------------------------------------------- allocation

  const POOL_BUFSIZE: nat := 1500

  /** A new buffer starts with one reference, the caller's. */
  lemma {:induction false} AddNode(s: Store, held: multiset<nat>, q: nat, data: seq<byte>, tot: int)
    requires RefsOk(s, held) && q !in s
    ensures RefsOk(s[q := Node(Null, data, tot, 1)], held + multiset{q})
  {
    var s' := s[q := Node(Null, data, tot, 1)];
    assert Preds(s', q) == {};
    assert held[q] == 0;
    forall i | i in s' ensures s'[i].ref == |Preds(s', i)| + (held + multiset{q})[i] > 0 {
      assert Preds(s', i) == Preds(s, i) || i == q;
    }
  }

  /** A pool chain under construction: its buffers are new, one behind the other, the store is
      otherwise as it was, and the totals count down from the requested length. */
  ghost predicate Building(s: Store, s': Store, ids: seq<nat>, length: nat, held: multiset<nat>) {
    && ids != [] && Linked(s', At(ids[0]), ids) && RefsOk(s', held + multiset{ids[0]})
    && Extends(s, s', ids) && Down(s', ids, length)
  }

  /** s' is s with the buffers ids added. */
  ghost predicate Extends(s: Store, s': Store, ids: seq<nat>) {
    && (forall i | i in s' :: i in s || i in ids) && (forall i | i in ids :: i !in s)
    && (forall i | i in s :: i in s' && s'[i] == s[i])
  }

  /** Each total is what is still to come. */
  predicate Down(s: Store, ids: seq<nat>, length: int)
    decreases |ids|
  {
    ids == [] || (ids[0] in s && s[ids[0]].tot == length && Down(s, ids[1..], length - |s[ids[0]].data|))
  }

  lemma {:induction false} DownMore(s: Store, s': Store, ids: seq<nat>, q: nat, length: int)
    requires Down(s, ids, length) && (forall i | i in ids :: i in s && i in s' && s'[i].tot == s[i].tot && s'[i].data == s[i].data)
    requires q in s' && s'[q].tot == length - |Bytes(s, ids)|
    ensures Down(s', ids + [q], length)
    decreases |ids|
  {
    if ids == [] {
      assert [q][1..] == [];
    } else {
      assert (ids + [q])[1..] == ids[1..] + [q];
      DownMore(s, s', ids[1..], q, length - |s[ids[0]].data|);
    }
  }

  /** b is s with a new last buffer q behind r. */
  ghost predicate IsGrown(s: Store, b: Store, r: nat, q: nat, n: Node) {
    && r in s && q !in s && s[r].next == Null && n.next == Null && n.ref == 1
    && b == s[q := n][r := s[r].(next := At(q))]
  }

  lemma {:induction false} GrowRefs(s: Store, b: Store, r: nat, q: nat, n: Node, held: multiset<nat>)
    requires RefsOk(s, held) && IsGrown(s, b, r, q, n)
    ensures RefsOk(b, held)
  {
    AddNode(s, held, q, n.data, n.tot);
    assert n == Node(Null, n.data, n.tot, 1);
    Repoint(s[q := n], held + multiset{q}, held, r, s[r].(next := At(q)));
  }

  lemma {:induction false} GrowChain(s: Store, b: Store, ids: seq<nat>, q: nat, n: Node)
    requires ids != [] && Linked(s, At(ids[0]), ids) && IsGrown(s, b, ids[|ids| - 1], q, n)
    ensures Linked(b, At(ids[0]), ids + [q])
  {
    InnerSame(s, b, ids, q, n);
    assert [q][1..] == [] && Linked(b, At(q), [q]);
    LinkedAppend(s, b, At(ids[0]), ids, [q]);
  }

  lemma {:induction false} InnerSame(s: Store, b: Store, ids: seq<nat>, q: nat, n: Node)
    requires ids != [] && Linked(s, At(ids[0]), ids) && IsGrown(s, b, ids[|ids| - 1], q, n)
    ensures forall x | x in ids :: x in s && x in b
    ensures forall x | x in ids[..|ids| - 1] :: x in s && x in b && b[x].next == s[x].next
  {
    LinkedMembers(s, At(ids[0]), ids);
    PrefixFacts(s, ids, |ids| - 1);
  }

  lemma {:induction false} GrowDown(s: Store, b: Store, ids: seq<nat>, q: nat, n: Node, length: int)
    requires ids != [] && IsGrown(s, b, ids[|ids| - 1], q, n) && (forall i | i in ids :: i in s)
    requires Down(s, ids, length) && n.tot == length - |Bytes(s, ids)|
    ensures Down(b, ids + [q], length) && Bytes(b, ids + [q]) == Bytes(s, ids) + n.data
  {
    DownMore(s, b, ids, q, length);
    BytesSame(s, b, ids);
    BytesAppend(b, ids, [q]);
    assert [q][1..] == [] && Bytes(b, [q]) == n.data;
  }

  lemma {:induction false} Grow(s: Store, s': Store, b: Store, ids: seq<nat>, q: nat, n: Node, length: nat, held: multiset<nat>)
    requires Building(s, s', ids, length, held) && IsGrown(s', b, ids[|ids| - 1], q, n)
    requires n.tot == length - |Bytes(s', ids)| && q !in s && q !in ids
    ensures Building(s, b, ids + [q], length, held) && Bytes(b, ids + [q]) == Bytes(s', ids) + n.data
  {
    LinkedMembers(s', At(ids[0]), ids);
    GrowChain(s', b, ids, q, n);
    GrowRefs(s', b, ids[|ids| - 1], q, n, held + multiset{ids[0]});
    GrowDown(s', b, ids, q, n, length);
    GrowExtends(s, s', b, ids, q, n);
    assert (ids + [q])[0] == ids[0];
  }

  lemma {:induction false} GrowExtends(s: Store, s': Store, b: Store, ids: seq<nat>, q: nat, n: Node)
    requires ids != [] && Extends(s, s', ids) && q !in s && IsGrown(s', b, ids[|ids| - 1], q, n)
    ensures Extends(s, b, ids + [q])
  {
    assert ids[|ids| - 1] in ids;
  }

  lemma {:induction false} DownTotals(s: Store, p: Ptr, ids: seq<nat>, length: int, i: nat)
    requires Linked(s, p, ids) && Down(s, ids, length) && length == |Bytes(s, ids)| && i in ids
    ensures i in s && s[i].tot == |s[i].data| + Tot(s, s[i].next)
    decreases |ids|
  {
    var t := ids[1..];
    if i == ids[0] {
      if t != [] {
        assert s[ids[0]].next == At(t[0]) && s[t[0]].tot == length - |s[ids[0]].data|;
      }
    } else {
      DownTotals(s, s[ids[0]].next, t, length - |s[ids[0]].data|, i);
    }
  }

  /** A chain of the old store is still the same chain. */
  lemma {:induction false} OldChain(s: Store, s': Store, i: nat, c: seq<nat>)
    requires Linked(s, At(i), c) && forall x | x in s :: x in s' && s'[x] == s[x]
    ensures Linked(s', At(i), c) && forall x | x in c :: x in s
  {
    LinkedMembers(s, At(i), c);
    LinkedSame(s, s', At(i), c);
  }

  lemma {:induction false} BuiltGrounded(s: Store, s': Store, ids: seq<nat>, length: nat, held: multiset<nat>)
    requires Building(s, s', ids, length, held) && Grounded(s)
    ensures Grounded(s')
  {
    forall i | i in s' ensures HasChain(s', i) {
      if i in s {
        assert HasChain(s, i);
        var c :| Linked(s, At(i), c);
        OldChain(s, s', i, c);
      } else {
        var c := NewChain(s', ids, i);
      }
    }
  }

  lemma {:induction false} NewChain(s: Store, ids: seq<nat>, i: nat) returns (c: seq<nat>)
    requires ids != [] && Linked(s, At(ids[0]), ids) && i in ids
    ensures Linked(s, At(i), c)
  {
    LinkedMembers(s, At(ids[0]), ids);
    var k :| 0 <= k < |ids| && ids[k] == i;
    c := ids[k..];
  }

  lemma {:induction false} BuiltValid(s: Store, s': Store, ids: seq<nat>, length: nat, held: multiset<nat>)
    requires Building(s, s', ids, length, held) && Valid(s, held) && length == |Bytes(s', ids)|
    ensures Valid(s', held + multiset{ids[0]})
  {
    BuiltGrounded(s, s', ids, length, held);
    forall i | i in s' ensures TotalAdds(s', i) {
      if i in s {
        assert TotalAdds(s, i);
        assert s[i].next == Null || s[i].next.id in s;
      } else {
        DownTotals(s', At(ids[0]), ids, length, i);
      }
    }
  }

  lemma {:induction false} OldReached(s: Store, s': Store, held: multiset<nat>, i: nat)
    requires Valid(s, held) && (forall x | x in s :: x in s' && s'[x] == s[x])
    ensures Reached(s', held, i) <==> i in s
  {
    if i in s {
      assert HasChain(s, i);
      var c :| Linked(s, At(i), c);
      LiveIsReached(s, held, i, c);
      var j: nat, x: seq<nat> :| j in held && Linked(s, At(j), x) && i in x;
      OldChain(s, s', j, x);
    }
    if Reached(s', held, i) {
      var j: nat, x: seq<nat> :| j in held && Linked(s', At(j), x) && i in x;
      assert HasChain(s, j);
      var y :| Linked(s, At(j), y);
      OldChain(s, s', j, y);
      LinkedUnique(s', At(j), x, y);
    }
  }

  /** Giving up in the middle leaves the store exactly as it was. */
  lemma {:induction false} Abandoned(s: Store, s': Store, t: Store, ids: seq<nat>, length: nat, held: multiset<nat>)
    requires Building(s, s', ids, length, held) && Valid(s, held) && Thinned(s', t) && RefsOk(t, held)
    ensures t == s
  {
    BuiltGrounded(s, s', ids, length, held);
    forall i | i in s' ensures i in t <==> i in s {
      FreeExact(s', t, held + multiset{ids[0]}, held, i);
      OldReached(s, s', held, i);
    }
    assert t.Keys == s.Keys;
    forall i | i in t ensures t[i] == s[i] {
      SamePreds(s, t, i);
    }
  }

  lemma {:induction false} SamePreds(s: Store, t: Store, i: nat)
    requires t.Keys == s.Keys && forall x | x in s :: t[x].next == s[x].next
    ensures Preds(t, i) == Preds(s, i)
  {
  }

  method Abandon(ghost s: Store, s': Store, head: nat, ghost ids: seq<nat>, ghost length: nat, ghost held: multiset<nat>)
    returns (t: Store)
    requires Building(s, s', ids, length, held) && Valid(s, held) && head == ids[0]
    ensures t == s
  {
    var dead;
    t, dead := FreeIn(s', At(head), held);
    Abandoned(s, s', t, ids, length, held);
  }

  /** One round of the loop in pbuf_alloc. */
  method Append(ghost s: Store, s': Store, r: nat, q: nat, data: seq<byte>, rem: nat,
                ghost ids: seq<nat>, ghost length: nat, ghost held: multiset<nat>) returns (t: Store)
    requires Building(s, s', ids, length, held) && r == ids[|ids| - 1] && q !in s && q !in ids
    requires rem == length - |Bytes(s', ids)|
    ensures Building(s, t, ids + [q], length, held) && |Bytes(t, ids + [q])| == |Bytes(s', ids)| + |data|
  {
    LinkedMembers(s', At(ids[0]), ids);
    t := s'[q := Node(Null, data, rem, 1)];
    t := t[r := t[r].(next := At(q))];
    Grow(s, s', t, ids, q, Node(Null, data, rem, 1), length, held);
  }

  lemma {:induction false} Begun(s: Store, head: nat, data: seq<byte>, length: nat, held: multiset<nat>)
    requires Valid(s, held) && head !in s
    ensures var s' := s[head := Node(Null, data, length, 1)];
      Building(s, s', [head], length, held) && Bytes(s', [head]) == data
  {
    AddNode(s, held, head, data, length);
    assert [head][1..] == [];
  }

  lemma {:induction false} FreshNext(pool: seq<nat>, used: nat)
    requires used < |pool| && forall a, b | 0 <= a < b < |pool| :: pool[a] != pool[b]
    ensures pool[used] !in pool[..used] && pool[..used + 1] == pool[..used] + [pool[used]]
  {
  }

  /** The pool pbufs that n bytes take behind the first one. */
  function Links(n: nat): nat {
    if n == 0 then 0 else 1 + Links(n - if n < POOL_BUFSIZE then n else POOL_BUFSIZE)
  }

  lemma {:induction false} LinksIs(n: nat)
    ensures Links(n) == (n + POOL_BUFSIZE - 1) / POOL_BUFSIZE
  {
    if n > 0 {
      LinksIs(n - if n < POOL_BUFSIZE then n else POOL_BUFSIZE);
    }
  }

  /** pbuf_alloc for PBUF_POOL. `pool` are the free pool elements, `first` the room in the first
      one behind the headers, `memory` what the buffers happen to hold. */
  method AllocPool(s: Store, pool: seq<nat>, length: nat, first: nat, memory: seq<byte>, ghost held: multiset<nat>)
    returns (s': Store, p: Ptr, ghost ids: seq<nat>)
    requires Valid(s, held) && length <= 0xFFFF && 0 < first <= POOL_BUFSIZE && |memory| == length
    requires (forall i | i in pool :: i !in s) && forall a, b | 0 <= a < b < |pool| :: pool[a] != pool[b]
    ensures p == Null <==> |pool| < 1 + Links(length - if length < first then length else first)
    ensures p == Null ==> s' == s
    ensures p != Null ==>
      && ids != [] && ids <= pool && p == At(ids[0]) && Valid(s', held + Ref(p)) && Linked(s', p, ids)
      && |Bytes(s', ids)| == length && (forall i | i in ids :: i !in s) && (forall i | i in s :: i in s' && s'[i] == s[i])
  {
    s', p, ids := s, Null, [];
    if pool == [] {
      return;
    }
    var head, len := pool[0], if length < first then length else first;
    s' := s'[head := Node(Null, memory[..len], length, 1)];
    Begun(s, head, memory[..len], length, held);
    ids := [head];
    var rem: nat, r: nat, used: nat := length - len, head, 1;
    while rem > 0
      invariant Allocating(s, s', pool, ids, used, rem, r, head, length, 1 + Links(length - len), held)
      decreases rem
    {
      if used == |pool| {
        s' := Abandon(s, s', head, ids, length, held);
        return;
      }
      s', ids, used, rem, r := AddLink(s, s', pool, ids, used, rem, r, head, length, 1 + Links(length - len), memory, held);
    }
    p := At(head);
    BuiltValid(s, s', ids, length, held);
  }

  /** The chain has taken `used` pbufs of the pool, and `rem` bytes still have no place. */
  ghost predicate Allocating(s: Store, s': Store, pool: seq<nat>, ids: seq<nat>, used: nat, rem: nat, r: nat, head: nat,
                             length: nat, need: nat, held: multiset<nat>) {
    && 0 < used <= |pool| && ids == pool[..used] && used + Links(rem) == need
    && Building(s, s', ids, length, held) && ids[0] == head && r == ids[|ids| - 1]
    && rem == length - |Bytes(s', ids)|
  }

  /** One more pbuf of the pool. */
  method AddLink(ghost s: Store, s0: Store, pool: seq<nat>, ghost ids0: seq<nat>, used0: nat, rem0: nat, r0: nat, ghost head: nat,
                 length: nat, ghost need: nat, memory: seq<byte>, ghost held: multiset<nat>)
    returns (s': Store, ghost ids: seq<nat>, used: nat, rem: nat, r: nat)
    requires Allocating(s, s0, pool, ids0, used0, rem0, r0, head, length, need, held)
    requires 0 < rem0 <= length == |memory| && used0 < |pool|
    requires (forall i | i in pool :: i !in s) && forall a, b | 0 <= a < b < |pool| :: pool[a] != pool[b]
    ensures Allocating(s, s', pool, ids, used, rem, r, head, length, need, held) && rem < rem0
  {
    var q, n := pool[used0], if rem0 < POOL_BUFSIZE then rem0 else POOL_BUFSIZE;
    FreshNext(pool, used0);
    s' := Append(s, s0, r0, q, memory[length - rem0..length - rem0 + n], rem0, ids0, length, held);
    ids := ids0 + [q];
    rem, r, used := rem0 - n, q, used0 + 1;
  }

  /** pbuf_alloc for the kinds that take one pbuf: PBUF_RAM, PBUF_ROM and PBUF_REF. `content` is
      what its payload holds. */
  method AllocOne(s: Store, id: nat, content: seq<byte>, memory: bool, ghost held: multiset<nat>)
    returns (s': Store, p: Ptr)
    requires Valid(s, held) && id !in s
    ensures p == (if memory then At(id) else Null) && Valid(s', held + Ref(p))
    ensures s' == if memory then s[id := Node(Null, content, |content|, 1)] else s
  {
    if !memory {
      assert held + Ref(Null) == held;
      return s, Null;
    }
    Begun(s, id, content, |content|, held);
    s', p := s[id := Node(Null, content, |content|, 1)], At(id);
    BuiltValid(s, s', [id], |content|, held);
  }

  // ---------------------------------------------------------------- the module

  /** After pbuf_free the store is sound, and what is left is exactly what is still reachable. */
  lemma {:induction false} FreedSound(s: Store, s': Store, held: multiset<nat>, base: multiset<nat>)
    requires Valid(s, held) && Thinned(s, s') && RefsOk(s', base)
    ensures Valid(s', base)
    ensures forall i | i in s :: i in s' <==> Reached(s, base, i)
  {
    ThinnedValid(s, s', base);
    forall i | i in s ensures i in s' <==> Reached(s, base, i) {
      FreeExact(s, s', held, base, i);
    }
  }

  lemma {:induction false} ReferencedSound(s: Store, s': Store)
    requires TotalsOk(s) && Grounded(s)
    requires s'.Keys == s.Keys && forall i | i in s :: s'[i] == s[i].(ref := s'[i].ref)
    ensures TotalsOk(s') && Grounded(s')
  {
    forall i | i in s' ensures TotalAdds(s', i) {
      assert TotalAdds(s, i);
    }
    forall i | i in s' ensures HasChain(s', i) {
      assert HasChain(s, i);
      var c :| Linked(s, At(i), c);
      RecountedValid(s, s', At(i), c);
    }
  }

  /** Giving up the reference to p leaves exactly the buffers that other held references lead to,
      and of them nothing but counts has changed. */
  ghost predicate FreedTo(s: Store, s': Store, rest: multiset<nat>) {
    Thinned(s, s') && forall i | i in s :: i in s' <==> Reached(s, rest, i)
  }

  /** pbuf_free on a sound store. */
  method FreeSound(s: Store, p: Ptr, ghost held: multiset<nat>) returns (s': Store, count: nat)
    requires Valid(s, held) && (p.At? ==> p.id in held)
    ensures Valid(s', held - Ref(p)) && FreedTo(s, s', held - Ref(p)) && count == |s| - |s'|
  {
    TakeBack(held, p);
    s', count := FreeIn(s, p, held - Ref(p));
    FreedSound(s, s', held, held - Ref(p));
  }

  lemma {:induction false} TakeBack(held: multiset<nat>, p: Ptr)
    requires p.At? ==> p.id in held
    ensures held - Ref(p) + Ref(p) == held
  {
  }

  method ReferenceSound(s: Store, p: Ptr, ghost held: multiset<nat>) returns (s': Store)
    requires Valid(s, held) && (p.At? ==> p.id in s)
    ensures Valid(s', held + Ref(p)) && s'.Keys == s.Keys
    ensures forall i | i in s :: s'[i] == s[i].(ref := s[i].ref + if p == At(i) then 1 else 0)
  {
    s' := AddRef(s, p, held);
    ReferencedSound(s, s');
  }

  method CatSound(s: Store, h: Ptr, t: Ptr, ghost hs: seq<nat>, ghost ts: seq<nat>, ghost held: multiset<nat>)
    returns (s': Store)
    requires Valid(s, held) && h != Null && t != Null && Joinable(s, hs, ts) && h == At(hs[0]) && t == At(ts[0])
    requires t.id in held
    ensures Valid(s', held - Ref(t)) && Linked(s', h, hs + ts) && Bytes(s', hs + ts) == Bytes(s, hs) + Bytes(s, ts)
  {
    ghost var rest := held - Ref(t);
    assert rest + multiset{t.id} == held;
    s' := Cat(s, h, t, hs, ts);
    JoinedValid(s, s', hs, ts, rest);
  }

  /** The chain of p has become p alone, with its own bytes. */
  predicate LeftAlone(s: Store, s': Store, p: nat, ids: seq<nat>) {
    && p in s && Linked(s', At(p), [p])
    && |s[p].data| <= |Bytes(s, ids)| && Bytes(s', [p]) == Bytes(s, ids)[..|s[p].data|]
  }

  /** The remainder is returned if the number of deallocated buffers is zero in eight bits. That
      tells whether it is alive, unless the number is a positive multiple of 256. */
  predicate Answered(s: Store, s': Store, p: nat, r: Ptr) {
    && p in s && |s'| <= |s|
    && r == Answer(|s| - |s'|, s[p].next)
    && (s[p].next.At? ==> RightAnswer(s, s', s[p].next.id, r))
  }

  /** pbuf_dechain, and when its answer is right. */
  method DechainSound(s: Store, p: nat, ghost ids: seq<nat>, ghost held: multiset<nat>) returns (s': Store, r: Ptr)
    requires Valid(s, held) && p in held && ids != [] && ids[0] == p && Linked(s, At(p), ids) && Preds(s, p) == {}
    ensures Valid(s', held) && LeftAlone(s, s', p, ids)
    ensures Answered(s, s', p, r)
  {
    s', r := Dechain(s, p, ids, held);
    if s[p].next.At? {
      DechainAnswer(s, s', p, held, r);
    }
  }

  /** All live buffers, and the references callers hold to them. */
  class PbufHeap {
    var store: Store
    ghost var held: multiset<nat>

    ghost predicate Sound() reads this {
      Valid(store, held)
    }

    constructor ()
      ensures Sound() && store == map[] && held == multiset{}
    {
      store, held := map[], multiset{};
    }

    /** Freeing deallocates exactly what no held reference leads to any more. */
    method Free(p: Ptr) returns (count: nat)
      requires Sound() && (p.At? ==> p.id in held)
      modifies this
      ensures Sound() && held == old(held) - Ref(p) && FreedTo(old(store), store, held)
      ensures count == |old(store)| - |store|
    {
      store, count := FreeSound(store, p, held);
      held := held - Ref(p);
    }

    method Reference(p: Ptr)
      requires Sound() && (p.At? ==> p.id in store)
      modifies this
      ensures Sound() && held == old(held) + Ref(p) && store.Keys == old(store.Keys)
      ensures forall i | i in store ::
        store[i] == old(store)[i].(ref := old(store)[i].ref + if p == At(i) then 1 else 0)
    {
      store := ReferenceSound(store, p, held);
      held := held + Ref(p);
    }

    /** The caller's reference to t goes to the chain. */
    method Concatenate(h: Ptr, t: Ptr, ghost hs: seq<nat>, ghost ts: seq<nat>)
      requires Sound() && h != Null && t != Null && Joinable(store, hs, ts) && h == At(hs[0]) && t == At(ts[0])
      requires t.id in held
      modifies this
      ensures Sound() && held == old(held) - Ref(t) && Linked(store, h, hs + ts)
      ensures Bytes(store, hs + ts) == old(Bytes(store, hs)) + old(Bytes(store, ts))
    {
      store := CatSound(store, h, t, hs, ts, held);
      held := held - Ref(t);
    }

    /** pbuf_alloc for a single pbuf; false without memory. */
    method Allocate(id: nat, content: seq<byte>, memory: bool) returns (p: Ptr)
      requires Sound() && id !in store
      modifies this
      ensures Sound() && held == old(held) + Ref(p) && p == (if memory then At(id) else Null)
      ensures p == Null ==> store == old(store)
      ensures p != Null ==> store == old(store)[id := Node(Null, content, |content|, 1)]
    {
      store, p := AllocOne(store, id, content, memory, held);
      held := held + Ref(p);
    }

    /** pbuf_alloc for a chain out of the pool. */
    method AllocateChain(pool: seq<nat>, length: nat, first: nat, memory: seq<byte>) returns (p: Ptr, ghost ids: seq<nat>)
      requires Sound() && length <= 0xFFFF && 0 < first <= POOL_BUFSIZE && |memory| == length
      requires (forall i | i in pool :: i !in store) && forall a, b | 0 <= a < b < |pool| :: pool[a] != pool[b]
      modifies this
      ensures Sound() && held == old(held) + Ref(p)
      ensures p == Null <==> |pool| < 1 + Links(length - if length < first then length else first)
      ensures p == Null ==> store == old(store)
      ensures p != Null ==> Linked(store, p, ids) && |Bytes(store, ids)| == length
      ensures forall i | i in old(store) :: i in store && store[i] == old(store)[i]
    {
      store, p, ids := AllocPool(store, pool, length, first, memory, held);
      held := held + Ref(p);
    }

    /** pbuf_chain: the caller keeps its reference to t. */
    method Link(h: Ptr, t: Ptr, ghost hs: seq<nat>, ghost ts: seq<nat>)
      requires Sound() && h != Null && t != Null && Joinable(store, hs, ts) && h == At(hs[0]) && t == At(ts[0])
      requires t.id in held
      modifies this
      ensures Sound() && held == old(held) && Linked(store, h, hs + ts)
      ensures Bytes(store, hs + ts) == old(Bytes(store, hs)) + old(Bytes(store, ts))
    {
      TakeBack(held, t);
      store := Chain(store, h, t, hs, ts, held - Ref(t));
    }

    method Detach(p: nat, ghost ids: seq<nat>) returns (r: Ptr)
      requires Sound() && p in held && ids != [] && ids[0] == p && Linked(store, At(p), ids) && Preds(store, p) == {}
      modifies this
      ensures Sound() && held == old(held) && LeftAlone(old(store), store, p, ids)
      ensures Answered(old(store), store, p, r)
    {
      store, r := DechainSound(store, p, ids, held);
    }

    method Shrink(p: nat, newLen: nat, ghost ids: seq<nat>) returns (ghost kept: seq<nat>)
      requires Sound() && p in held && ids != [] && ids[0] == p && Linked(store, At(p), ids) && Unshared(store, ids)
      requires store[p].tot <= 0xFFFF
      modifies this
      ensures Sound() && held == old(held) && kept <= ids && Linked(store, At(p), kept) && Spared(old(store), store, ids)
      ensures var b := old(Bytes(store, ids)); Bytes(store, kept) == if newLen >= |b| then b else b[..newLen]
    {
      store, kept := Realloc(store, p, newLen, ids, held);
    }
  }
}
