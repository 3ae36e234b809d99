/** Copying into and out of pbuf chains. A chain is given by the payloads of its links. */
module PbufCopy {
  import opened Words

  type Chain = seq<seq<byte>>

  /** AssertFailed: the code runs into a failed LWIP_ASSERT. */
  datatype Err = Ok | ErrArg | ErrVal | AssertFailed

  /** The bytes a chain stands for. */
  function Flat(c: Chain): seq<byte> {
    if c == [] then [] else c[0] + Flat(c[1..])
  }

  /** At most n bytes of b from position o on. */
  function Slice(b: seq<byte>, o: nat, n: nat): seq<byte> {
    if o >= |b| then [] else if o + n <= |b| then b[o..o + n] else b[o..]
  }

  function Lengths(c: Chain): (r: seq<nat>)
    ensures |r| == |c| && forall i | 0 <= i < |c| :: r[i] == |c[i]|
  {
    if c == [] then [] else [|c[0]|] + Lengths(c[1..])
  }

  /** The chains have links of the same lengths. */
  predicate SameShape(c: Chain, d: Chain) {
    Lengths(c) == Lengths(d)
  }

  lemma {:induction false} FlatConcat(a: Chain, b: Chain)
    ensures Flat(a + b) == Flat(a) + Flat(b)
  {
    if a == [] {
      assert a + b == b;
    } else {
      assert (a + b)[1..] == a[1..] + b;
      FlatConcat(a[1..], b);
    }
  }

  lemma {:induction false} FlatSplit(c: Chain, i: nat)
    requires i < |c|
    ensures Flat(c) == Flat(c[..i]) + c[i] + Flat(c[i + 1..])
    ensures Flat(c[..i + 1]) == Flat(c[..i]) + c[i]
  {
    assert c == c[..i] + c[i..] && c[i..][1..] == c[i + 1..];
    FlatConcat(c[..i], c[i..]);
    var one: Chain := [c[i]];
    assert c[..i + 1] == c[..i] + one && |one[1..]| == 0 && Flat(one) == c[i];
    FlatConcat(c[..i], one);
  }

  lemma {:induction false} ShapeLength(c: Chain, d: Chain)
    requires SameShape(c, d)
    ensures |c| == |d| && |Flat(c)| == |Flat(d)|
  {
    assert |c| == |Lengths(c)| && |d| == |Lengths(d)|;
    if c != [] {
      assert |c[0]| == Lengths(c)[0] && Lengths(c)[1..] == Lengths(c[1..]);
      assert |d[0]| == Lengths(d)[0] && Lengths(d)[1..] == Lengths(d[1..]);
      ShapeLength(c[1..], d[1..]);
    }
  }

  /** Changing a link's bytes, not their number, keeps the shape. */
  lemma {:induction false} ShapeChanged(c: Chain, d: Chain, i: nat, link: seq<byte>)
    requires SameShape(c, d) && i < |c| && |link| == |c[i]|
    ensures SameShape(c[i := link], d) && |c| == |d| && |c[i]| == |d[i]|
  {
    assert |c| == |Lengths(c)| && |d| == |Lengths(d)| && |c[i]| == Lengths(c)[i];
    assert Lengths(c[i := link]) == Lengths(c);
  }

  lemma {:induction false} ShapePrefix(c: Chain, d: Chain, i: nat)
    requires SameShape(c, d) && i <= |c|
    ensures |c| == |d| && SameShape(c[..i], d[..i])
  {
    assert |c| == |Lengths(c)| && |d| == |Lengths(d)|;
    assert Lengths(c[..i]) == Lengths(c)[..i] && Lengths(d[..i]) == Lengths(d)[..i];
  }

  /** pbuf_copy_partial: whatever the links, it copies the bytes a flat buffer would give. */
  method CopyPartial(buf: Chain, length: nat, start: nat) returns (out: seq<byte>)
    ensures out == Slice(Flat(buf), start, length)
  {
    out := [];
    var len: nat, offset: nat, p := length, start, buf;
    while len != 0 && p != []
      invariant out + Slice(Flat(p), offset, len) == Slice(Flat(buf), start, length)
      decreases |p|
    {
      ghost var rest := Flat(p[1..]);
      assert Flat(p) == p[0] + rest;
      var piece, offset', len' := CopyLink(p[0], offset, len, rest);
      Regroup(out, piece, Slice(rest, offset', len'));
      out, offset, len, p := out + piece, offset', len', p[1..];
    }
  }

  /** What one link gives, and what is to be copied from the others. */
  method CopyLink(link: seq<byte>, offset: nat, len: nat, ghost rest: seq<byte>)
    returns (piece: seq<byte>, offset': nat, len': nat)
    requires len > 0
    ensures Slice(link + rest, offset, len) == piece + Slice(rest, offset', len')
  {
    if offset != 0 && offset >= |link| {
      SliceBehind(link, rest, offset, len);
      return [], offset - |link|, len;
    }
    var n := |link| - offset;
    if n > len {
      n := len;
    }
    SliceAcross(link, rest, offset, len, n);
    piece, offset', len' := link[offset..offset + n], 0, len - n;
  }

  lemma {:induction false} Regroup(a: seq<byte>, b: seq<byte>, c: seq<byte>)
    ensures a + (b + c) == (a + b) + c
  {
  }

  lemma {:induction false} SliceBehind(a: seq<byte>, b: seq<byte>, o: nat, n: nat)
    requires o >= |a|
    ensures Slice(a + b, o, n) == Slice(b, o - |a|, n)
  {
  }

  lemma {:induction false} SliceAcross(a: seq<byte>, b: seq<byte>, o: nat, n: nat, k: nat)
    requires o <= |a| && k == if |a| - o > n then n else |a| - o
    ensures Slice(a + b, o, n) == a[o..o + k] + Slice(b, 0, n - k)
  {
  }

  /** pbuf_take: the data replaces the first bytes of the chain, whose links stay as long as they
      were; it is refused when the chain is shorter. */
  method Take(buf: Chain, data: seq<byte>) returns (err: Err, r: Chain)
    ensures SameShape(r, buf)
    ensures err == if |Flat(buf)| < |data| then ErrArg else Ok
    ensures err == ErrArg ==> r == buf
    ensures err == Ok ==> Flat(r) == data + Flat(buf)[|data|..]
  {
    r := buf;
    if |Flat(buf)| < |data| {
      return ErrArg, r;
    }
    var i, copied := 0, 0;
    assert SameShape(r, buf) && Flat(r) == data[..0] + Flat(buf)[0..];
    assert buf[..0] == [];
    while copied != |data|
      invariant Taking(buf, r, i, data, copied)
      decreases |buf| - i
    {
      r, i, copied := TakeLink(r, i, data, copied, buf);
    }
    assert data[..|data|] == data;
    err := Ok;
  }

  /** The first `copied` bytes of the data are in the links in front of i. */
  predicate Taking(buf: Chain, r: Chain, i: nat, data: seq<byte>, copied: nat) {
    && i <= |buf| && SameShape(r, buf) && |r| == |buf| && r[i..] == buf[i..]
    && copied <= |data| <= |Flat(buf)| && (copied == |data| || |Flat(buf[..i])| == copied)
    && Flat(r) == data[..copied] + Flat(buf)[copied..]
  }

  /** One link filled. */
  method TakeLink(r: Chain, i: nat, data: seq<byte>, copied: nat, ghost buf: Chain)
    returns (r': Chain, i': nat, copied': nat)
    requires Taking(buf, r, i, data, copied) && copied < |data|
    ensures Taking(buf, r', i', data, copied') && i < i'
  {
    LinkLeft(buf, i, copied);
    var n := |data| - copied;
    if n > |r[i]| {
      n := |r[i]|;
    }
    assert r[i] == r[i..][0] && buf[i] == buf[i..][0];
    var link := data[copied..copied + n] + r[i][n..];
    r', i', copied' := r[i := link], i + 1, copied + n;
    ShapeChanged(r, buf, i, link);
    ShapePrefix(r, buf, i);
    ShapeLength(r[..i], buf[..i]);
    Written(r, r', Flat(buf), i, data, copied, n, copied');
    FlatSplit(buf, i);
    assert r'[i'..] == r[i..][1..] && buf[i'..] == buf[i..][1..];
  }

  lemma {:induction false} LinkLeft(c: Chain, i: nat, done: nat)
    requires i <= |c| && |Flat(c[..i])| == done < |Flat(c)|
    ensures i < |c|
  {
    assert c[..|c|] == c;
  }

  lemma {:induction false} Written(before: Chain, r: Chain, flat: seq<byte>, i: nat, data: seq<byte>, copied: nat, n: nat, copied': nat)
    requires i < |before| && copied' == copied + n <= |data| <= |flat| && n <= |before[i]|
    requires |Flat(before[..i])| == copied && Flat(before) == data[..copied] + flat[copied..]
    requires r == before[i := data[copied..copied + n] + before[i][n..]]
    ensures Flat(r) == data[..copied'] + flat[copied'..]
  {
    var x := data[copied..copied + n];
    assert before[i][..0] + x + before[i][0 + |x|..] == x + before[i][n..];
    WriteAt(before, i, 0, x);
    Spliced(data, flat, Flat(before), copied, n);
  }

  /** What pbuf_take has put into a chain, pbuf_copy_partial gets out again. */
  lemma {:induction false} TakenIsCopied(buf: Chain, r: Chain, data: seq<byte>)
    requires |data| <= |Flat(buf)| && Flat(r) == data + Flat(buf)[|data|..]
    ensures Slice(Flat(r), 0, |data|) == data
    ensures Slice(Flat(r), |data|, |Flat(buf)|) == Slice(Flat(buf), |data|, |Flat(buf)|)
  {
  }

  /** Overwriting bytes inside one link overwrites the same stretch of the flat bytes. */
  lemma {:induction false} WriteAt(r: Chain, i: nat, o: nat, x: seq<byte>)
    requires i < |r| && o + |x| <= |r[i]|
    ensures var at := |Flat(r[..i])| + o;
      && at + |x| <= |Flat(r)|
      && Flat(r[i := r[i][..o] + x + r[i][o + |x|..]]) == Flat(r)[..at] + x + Flat(r)[at + |x|..]
  {
    var w := r[i := r[i][..o] + x + r[i][o + |x|..]];
    FlatSplit(r, i);
    FlatSplit(w, i);
    assert w[..i] == r[..i] && w[i + 1..] == r[i + 1..];
    Middle(Flat(r[..i]), r[i], Flat(r[i + 1..]), o, x);
  }

  lemma {:induction false} Middle(a: seq<byte>, m: seq<byte>, c: seq<byte>, o: nat, x: seq<byte>)
    requires o + |x| <= |m|
    ensures var b, at := a + m + c, |a| + o;
      a + (m[..o] + x + m[o + |x|..]) + c == b[..at] + x + b[at + |x|..]
  {
  }

  lemma {:induction false} ReadAt(r: Chain, i: nat, o: nat, n: nat)
    requires i < |r| && o + n <= |r[i]|
    ensures var at := |Flat(r[..i])| + o;
      at + n <= |Flat(r)| && r[i][o..o + n] == Flat(r)[at..at + n]
  {
    FlatSplit(r, i);
  }

  // ----------------------------------------------------------------- pbuf_copy

  /** What is left of a chain behind o bytes of its link i. */
  function Rest(c: Chain, i: nat, o: nat): Chain
    requires i <= |c| && (i < |c| ==> o <= |c[i]|)
  {
    if i == |c| then [] else [c[i][o..]] + c[i + 1..]
  }

  /** What is left after n bytes of the first link; the next link is up when that is used up. */
  function Used(c: Chain, n: nat): Chain
    requires c != [] && n <= |c[0]|
  {
    if n == |c[0]| then c[1..] else [c[0][n..]] + c[1..]
  }

  /** As many bytes as the first links of both chains have. */
  function Common(x: Chain, y: Chain): (n: nat)
    requires x != [] && y != []
    ensures n <= |x[0]| && n <= |y[0]| && (n == |x[0]| || n == |y[0]|)
  {
    if |x[0]| >= |y[0]| then |y[0]| else |x[0]|
  }

  /** A first link that is as long as its whole chain, and has another one behind it, passes for the
      end of a packet in a packet queue. */
  predicate PassesForQueue(c: Chain) {
    |c| > 1 && Flat(c[1..]) == []
  }

  /** How pbuf_copy ends with x left to fill and y left to copy. */
  function Outcome(x: Chain, y: Chain): Err
    requires y != []
    decreases |x| + |y|
  {
    if x == [] then AssertFailed
    else
      var n := Common(x, y);
      if PassesForQueue(Used(y, n)) || PassesForQueue(Used(x, n)) then ErrVal
      else if Used(y, n) == [] then Ok
      else Outcome(Used(x, n), Used(y, n))
  }

  lemma {:induction false} OutcomeStep(x: Chain, y: Chain, x': Chain, y': Chain)
    requires x != [] && y != [] && x' == Used(x, Common(x, y)) && y' == Used(y, Common(x, y))
    ensures Outcome(x, y) ==
      if PassesForQueue(y') || PassesForQueue(x') then ErrVal else if y' == [] then Ok else Outcome(x', y')
  {
  }

  /** No empty link stands at the end, behind others. */
  predicate Proper(c: Chain) {
    |c| <= 1 || c[|c| - 1] != []
  }

  lemma {:induction false} LastCounts(c: Chain)
    requires c != [] && c[|c| - 1] != []
    ensures Flat(c) != []
  {
    FlatSplit(c, |c| - 1);
  }

  lemma {:induction false} ProperRest(c: Chain, n: nat)
    requires c != [] && Proper(c) && n <= |c[0]|
    ensures var d := Used(c, n);
      && Proper(d) && !PassesForQueue(d) && (d != [] ==> Flat(d) != [])
      && |Flat(c)| == n + |Flat(d)|
  {
    var d := Used(c, n);
    UsedLength(c, n);
    if d != [] && d[|d| - 1] != [] {
      LastCounts(d);
      if |d| > 1 {
        LastCounts(d[1..]);
      }
    }
  }

  lemma {:induction false} UsedLength(c: Chain, n: nat)
    requires c != [] && n <= |c[0]|
    ensures |Flat(c)| == n + |Flat(Used(c, n))|
  {
    if n < |c[0]| {
      assert ([c[0][n..]] + c[1..])[1..] == c[1..];
    }
  }

  /** With no empty link at the end of either chain, copying succeeds. */
  lemma {:induction false} ProperSucceeds(x: Chain, y: Chain)
    requires x != [] && y != [] && Proper(x) && Proper(y) && |Flat(y)| <= |Flat(x)|
    ensures Outcome(x, y) == Ok
    decreases |x| + |y|
  {
    var n := Common(x, y);
    ProperRest(x, n);
    ProperRest(y, n);
    if Used(y, n) != [] {
      ProperSucceeds(Used(x, n), Used(y, n));
    }
  }

  lemma {:induction false} EmptyLink(c: Chain)
    requires |c| == 2 && c[1] == []
    ensures Flat(c[1..]) == []
  {
    var d: Chain := c[1..];
    assert |d[1..]| == 0;
  }

  /** With an empty link at the end of a source of three or more, it never does. */
  lemma {:induction false} EmptyEndFails(x: Chain, y: Chain)
    requires |y| >= 3 && y[|y| - 1] == []
    ensures Outcome(x, y) != Ok
    decreases |x| + |y|
  {
    if x != [] {
      var n := Common(x, y);
      var x', y' := Used(x, n), Used(y, n);
      assert |y'| >= 2 && y'[|y'| - 1] == [];
      if |y'| == 2 {
        EmptyLink(y');
      } else {
        EmptyEndFails(x', y');
      }
    }
  }

  /** With one of two, it does when the first round copies the first link and a target link is left
      to stand on. */
  lemma {:induction false} EmptySecond(x: Chain, y: Chain)
    requires x != [] && Proper(x) && |y| == 2 && y[1] == []
    ensures Outcome(x, y) == Ok <==> |y[0]| <= |x[0]| && (|x| > 1 || |y[0]| < |x[0]|)
  {
    var n := Common(x, y);
    var x', y' := Used(x, n), Used(y, n);
    ProperRest(x, n);
    if n == |y[0]| {
      assert y' == [[]] && y'[1..] == [];
      if x' != [] {
        ProperRest(x', 0);
        assert Used(y', 0) == [];
      }
    } else {
      EmptyLink(y');
    }
  }

  /** When pbuf_copy can copy into a target that does not end in an empty link. */
  lemma {:induction false} CopiesExactly(dst: Chain, src: Chain)
    requires dst != [] && src != [] && Proper(dst) && |Flat(src)| <= |Flat(dst)|
    ensures Outcome(dst, src) == Ok <==>
      Proper(src) || (|src| == 2 && |src[0]| <= |dst[0]| && (|dst| > 1 || |src[0]| < |dst[0]|))
  {
    if Proper(src) {
      ProperSucceeds(dst, src);
    } else if |src| >= 3 {
      EmptyEndFails(dst, src);
    } else {
      EmptySecond(dst, src);
    }
  }

  /** One byte followed by an empty link does not get into a buffer of one byte, though it fits: the
      code goes on behind the target's end. */
  lemma {:induction false} NullTargetExample(x: byte)
    ensures |Flat([[x], []])| == |Flat([[0]])| && Outcome([[0]], [[x], []]) == AssertFailed
  {
    var a: Chain, b: Chain := [[0]], [[x], []];
    assert a[1..] == [] && b[1..] == [[]] && b[1..][1..] == [];
    assert Used(a, 1) == [] && Used(b, 1) == [[]];
    assert Outcome(a, b) == Outcome(Used(a, 1), Used(b, 1));
  }

  /** The place behind `done` bytes of a chain. */
  predicate Place(c: Chain, i: nat, o: nat, done: nat) {
    i <= |c| && (if i == |c| then o == 0 else o <= |c[i]|) && done == |Flat(c[..i])| + o
  }

  lemma {:induction false} PlaceMoves(c: Chain, i: nat, o: nat, done: nat, n: nat)
    requires Place(c, i, o, done) && i < |c| && o + n <= |c[i]|
    ensures Rest(c, i, o) != [] && Rest(c, i, o)[0] == c[i][o..]
    ensures if o + n == |c[i]| then Place(c, i + 1, 0, done + n) && Rest(c, i + 1, 0) == Used(Rest(c, i, o), n)
      else Place(c, i, o + n, done + n) && Rest(c, i, o + n) == Used(Rest(c, i, o), n)
  {
    FlatSplit(c, i);
    assert Rest(c, i, o)[1..] == c[i + 1..];
    if o + n == |c[i]| {
      if i + 1 < |c| {
        assert c[i + 1..] == [c[i + 1][0..]] + c[i + 1 + 1..];
      }
    } else {
      assert c[i][o..][n..] == c[i][o + n..];
    }
  }

  lemma {:induction false} PlaceInside(c: Chain, i: nat, o: nat, done: nat)
    requires Place(c, i, o, done)
    ensures done <= |Flat(c)| && (i == |c| ==> done == |Flat(c)|)
  {
    if i < |c| {
      FlatSplit(c, i);
    } else {
      assert c[..i] == c;
    }
  }

  /** The test for a packet queue: the link is as long as its chain, and another one follows. */
  method EndsPacket(c: Chain, i: nat, ghost o: nat) returns (b: bool)
    requires i <= |c| && (i < |c| ==> o <= |c[i]|)
    ensures b == PassesForQueue(Rest(c, i, o))
  {
    b := i < |c| && |c[i]| == |Flat(c[i..])| && i + 1 < |c|;
    if i < |c| {
      assert c[i..][1..] == c[i + 1..] && Rest(c, i, o)[1..] == c[i + 1..];
    }
  }

  /** `done` bytes of src have replaced the first ones of dst. */
  predicate Overwritten(dst: Chain, src: Chain, r: Chain, done: nat) {
    && SameShape(r, dst) && done <= |Flat(src)| <= |Flat(dst)|
    && Flat(r) == Flat(src)[..done] + Flat(dst)[done..]
  }

  /** pbuf_copy of one packet into another. `done` bytes are copied, all of them if it succeeds. */
  method Copy(dst: Chain, src: Chain) returns (err: Err, r: Chain, ghost done: nat)
    ensures err == if dst == [] || src == [] || |Flat(dst)| < |Flat(src)| then ErrArg else Outcome(dst, src)
    ensures if err == ErrArg then r == dst else Overwritten(dst, src, r, done)
    ensures err == Ok ==> done == |Flat(src)| && Flat(r) == Flat(src) + Flat(dst)[|Flat(src)|..]
  {
    if dst == [] || src == [] || |Flat(dst)| < |Flat(src)| {
      return ErrArg, dst, 0;
    }
    err, r, done := CopyLinks(dst, src);
  }

  /** The loop over both chains. */
  method CopyLinks(dst: Chain, src: Chain) returns (err: Err, r: Chain, ghost done: nat)
    requires dst != [] && src != [] && |Flat(src)| <= |Flat(dst)|
    ensures err == Outcome(dst, src) && err != ErrArg && Overwritten(dst, src, r, done)
    ensures err == Ok ==> done == |Flat(src)| && Flat(r) == Flat(src) + Flat(dst)[|Flat(src)|..]
  {
    r, done := dst, 0;
    var i: nat, t: nat, j: nat, f: nat := 0, 0, 0, 0;
    StartCopying(dst, src);
    while j < |src|
      invariant Copying(dst, src, r, i, t, j, f, done)
      invariant Outcome(dst, src) == if j < |src| then Outcome(Rest(dst, i, t), Rest(src, j, f)) else Ok
      decreases |dst| - i + |src| - j
    {
      err, r, i, t, j, f, done := Round(r, i, t, src, j, f, dst, done);
      if err != Ok {
        CopiedPart(dst, src, r, i, t, j, f, done);
        return;
      }
    }
    CopiedPart(dst, src, r, i, t, j, f, done);
    CopiedAll(dst, src, r, i, t, j, f, done);
    err := Ok;
  }

  /** One turn of the loop: a round of copying, and the tests around it. */
  method Round(r: Chain, i: nat, t: nat, src: Chain, j: nat, f: nat, ghost dst: Chain, ghost done: nat)
    returns (err: Err, r': Chain, i': nat, t': nat, j': nat, f': nat, ghost done': nat)
    requires Copying(dst, src, r, i, t, j, f, done) && j < |src| && |r| == |dst|
    ensures Copying(dst, src, r', i', t', j', f', done') && err != ErrArg
    ensures Outcome(Rest(dst, i, t), Rest(src, j, f)) ==
      if err == Ok && j' < |src| then Outcome(Rest(dst, i', t'), Rest(src, j', f')) else err
    ensures err == Ok ==> i <= i' && j <= j' && (i < i' || j < j')
  {
    if i == |r| {
      return AssertFailed, r, i, t, j, f, done;
    }
    var n;
    r', n, i', t', j', f', done' := Move(r, i, t, src, j, f, dst, done);
    OutcomeStep(Rest(dst, i, t), Rest(src, j, f), Rest(dst, i', t'), Rest(src, j', f'));
    var fromQueue := EndsPacket(src, j', f');
    var toQueue := EndsPacket(r', i', t');
    assert Rest(r', i', t') == Rest(dst, i', t');
    err := if fromQueue || toQueue then ErrVal else Ok;
  }

  lemma {:induction false} CopiedPart(dst: Chain, src: Chain, r: Chain, i: nat, t: nat, j: nat, f: nat, done: nat)
    requires Copying(dst, src, r, i, t, j, f, done)
    ensures Overwritten(dst, src, r, done)
  {
  }

  lemma {:induction false} RestAll(c: Chain)
    requires c != []
    ensures Rest(c, 0, 0) == c && Place(c, 0, 0, 0)
  {
    assert c[..0] == [] && c == [c[0][0..]] + c[1..];
  }

  lemma {:induction false} StartCopying(dst: Chain, src: Chain)
    requires dst != [] && src != [] && |Flat(src)| <= |Flat(dst)|
    ensures Copying(dst, src, dst, 0, 0, 0, 0, 0) && Rest(dst, 0, 0) == dst && Rest(src, 0, 0) == src
  {
    RestAll(dst);
    RestAll(src);
  }

  lemma {:induction false} CopiedAll(dst: Chain, src: Chain, r: Chain, i: nat, t: nat, j: nat, f: nat, done: nat)
    requires Copying(dst, src, r, i, t, j, f, done) && j == |src|
    ensures done == |Flat(src)| && Flat(r) == Flat(src) + Flat(dst)[|Flat(src)|..]
  {
    PlaceInside(src, j, f, done);
    assert Flat(src)[..done] == Flat(src);
  }

  /** Nothing behind the place has changed. */
  predicate Untouched(dst: Chain, r: Chain, i: nat, t: nat) {
    && |r| == |dst| && i <= |r|
    && (i < |r| ==> |r[i]| == |dst[i]| && t <= |r[i]| && r[i][t..] == dst[i][t..] && r[i + 1..] == dst[i + 1..])
  }

  /** Between two rounds: `done` bytes are copied, and both places are behind them. */
  predicate Copying(dst: Chain, src: Chain, r: Chain, i: nat, t: nat, j: nat, f: nat, done: nat) {
    Overwritten(dst, src, r, done) && Untouched(dst, r, i, t) && Place(dst, i, t, done) && Place(src, j, f, done)
  }

  /** One round of pbuf_copy: as many bytes as both links have left. */
  method Move(r: Chain, i: nat, t: nat, src: Chain, j: nat, f: nat, ghost dst: Chain, ghost done: nat)
    returns (r': Chain, n: nat, i': nat, t': nat, j': nat, f': nat, ghost done': nat)
    requires Copying(dst, src, r, i, t, j, f, done) && i < |dst| && j < |src|
    ensures Copying(dst, src, r', i', t', j', f', done') && done' == done + n
    ensures i <= i' && j <= j' && (i < i' || j < j')
    ensures var x, y := Rest(dst, i, t), Rest(src, j, f);
      && x != [] && y != [] && n == Common(x, y) && Rest(dst, i', t') == Used(x, n) && Rest(src, j', f') == Used(y, n)
  {
    n := if |r[i]| - t >= |src[j]| - f then |src[j]| - f else |r[i]| - t;
    done' := done + n;
    r' := MoveBytes(r, i, t, src, j, f, n, dst, done, done');
    i', t' := Advance(|r'[i]|, i, t, n, dst, done, done');
    j', f' := Advance(|src[j]|, j, f, n, src, done, done');
    StillUntouched(dst, r, r', i, t, n, i', t');
  }

  /** On to the next link, if this one has been used up. */
  method Advance(len: nat, i: nat, o: nat, n: nat, ghost c: Chain, ghost done: nat, ghost done': nat)
    returns (i': nat, o': nat)
    requires i < |c| && len == |c[i]| && o + n <= len && Place(c, i, o, done) && done' == done + n
    ensures (i', o') == if o + n == len then (i + 1, 0) else (i, o + n)
    ensures Place(c, i', o', done') && Rest(c, i, o) != [] && Rest(c, i, o)[0] == c[i][o..]
    ensures Rest(c, i', o') == Used(Rest(c, i, o), n)
  {
    i', o' := i, o + n;
    if o' == len {
      o', i' := 0, i' + 1;
    }
    PlaceMoves(c, i, o, done, n);
  }

  lemma {:induction false} StillUntouched(dst: Chain, r: Chain, r': Chain, i: nat, t: nat, n: nat, i': nat, t': nat)
    requires Untouched(dst, r, i, t) && i < |r| && t + n <= |r[i]| && |r'| == |r|
    requires |r'[i]| == |r[i]| && r'[i][t + n..] == r[i][t + n..] && r'[i + 1..] == r[i + 1..]
    requires (i', t') == if t + n == |r[i]| then (i + 1, 0) else (i, t + n)
    ensures Untouched(dst, r', i', t')
  {
    assert r[i][t + n..] == r[i][t..][n..] && dst[i][t + n..] == dst[i][t..][n..];
    if i + 1 < |r| {
      assert r'[i + 1] == r'[i + 1..][0] && dst[i + 1] == dst[i + 1..][0];
      assert r'[i + 2..] == r'[i + 1..][1..] && dst[i + 2..] == dst[i + 1..][1..];
    }
  }

  /** The memcpy. */
  method MoveBytes(r: Chain, i: nat, t: nat, src: Chain, j: nat, f: nat, n: nat, ghost dst: Chain, ghost done: nat,
                   ghost done': nat)
    returns (r': Chain)
    requires Overwritten(dst, src, r, done) && i < |r| && j < |src| && t + n <= |r[i]| && f + n <= |src[j]|
    requires Place(dst, i, t, done) && Place(src, j, f, done) && done' == done + n
    ensures Overwritten(dst, src, r', done')
    ensures |r'[i]| == |r[i]| && r'[i][t + n..] == r[i][t + n..] && r'[i + 1..] == r[i + 1..]
  {
    var x := src[j][f..f + n];
    r' := r[i := r[i][..t] + x + r[i][t + n..]];
    ReadAt(src, j, f, n);
    WriteAt(r, i, t, x);
    PrefixShape(r, dst, i);
    ShapeChanged(r, dst, i, r'[i]);
    Spliced(Flat(src), Flat(dst), Flat(r), done, n);
  }

  lemma {:induction false} PrefixShape(r: Chain, dst: Chain, i: nat)
    requires SameShape(r, dst) && i <= |r|
    ensures |Flat(r[..i])| == |Flat(dst[..i])|
  {
    ShapePrefix(r, dst, i);
    ShapeLength(r[..i], dst[..i]);
  }

  lemma {:induction false} Spliced(s: seq<byte>, d: seq<byte>, b: seq<byte>, done: nat, n: nat)
    requires done + n <= |s| <= |d| && b == s[..done] + d[done..]
    ensures b[..done] + s[done..done + n] + b[done + n..] == s[..done + n] + d[done + n..]
  {
  }
}
