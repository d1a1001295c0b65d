/** Frames and the byte stream they share: core/protocol.go (headers), core/common.go (writeFull) and
    core/underlay.go (DefaultReadBuffer and the three locked writers). */
module Framing {
  import opened Basics

  // ----- little-endian integers

  function Pow256(k: nat): (r: nat)
    ensures r >= 1
  {
    if k == 0 then 1 else 256 * Pow256(k - 1)
  }

  /** The low `k` bytes of x, least significant first; what does not fit is cut off. */
  function Le(x: nat, k: nat): (r: Bytes)
    ensures |r| == k
  {
    if k == 0 then [] else [x % 256] + Le(x / 256, k - 1)
  }

  function FromLe(b: Bytes): nat {
    if b == [] then 0 else b[0] + 256 * FromLe(b[1..])
  }

  lemma {:induction false} LeRoundTrip(x: nat, k: nat)
    ensures FromLe(Le(x, k)) == x % Pow256(k)
  {
    if k == 0 {
    } else {
      LeRoundTrip(x / 256, k - 1);
      ModSplit(x, Pow256(k - 1));
    }
  }

  /** Byte i of an encoded integer is its i-th digit in base 256. */
  lemma {:induction false} LeBytes(x: nat, k: nat, i: nat)
    requires i < k
    ensures Le(x, k)[i] == x / Pow256(i) % 256
  {
    if i > 0 {
      LeBytes(x / 256, k - 1, i - 1);
      DivTwice(x, Pow256(i - 1));
    }
  }

  lemma DivTwice(x: nat, p: nat)
    requires p >= 1
    ensures x / 256 / p == x / (256 * p)
  {
    var q, r := x / 256, x % 256;
    var a, b := q / p, q % p;
    assert x == 256 * q + r && q == p * a + b;
    assert x == (256 * p) * a + (256 * b + r) by {
      assert 256 * (p * a) == (256 * p) * a;
    }
    DivUnique(x, 256 * p, a, 256 * b + r);
  }

  lemma ModSplit(x: nat, p: nat)
    requires p >= 1
    ensures x % (256 * p) == x % 256 + 256 * ((x / 256) % p)
  {
    var q, r := x / 256, x % 256;
    var a, b := q / p, q % p;
    assert x == 256 * q + r && q == p * a + b;
    assert x == (256 * p) * a + (256 * b + r) by {
      assert 256 * (p * a) == (256 * p) * a;
    }
    DivUnique(x, 256 * p, a, 256 * b + r);
  }

  lemma DivUnique(x: nat, d: nat, a: nat, r: nat)
    requires d >= 1 && x == d * a + r && r < d
    ensures x / d == a && x % d == r
  {
    var a', r' := x / d, x % d;
    assert d * a + r == d * a' + r';
    if a < a' {
      NextMultiple(a, a', d);
    } else if a' < a {
      NextMultiple(a', a, d);
    }
  }

  lemma LePowers()
    ensures Pow256(2) == 0x1_0000 && Pow256(4) == 0x1_0000_0000 && Pow256(8) == 0x1_0000_0000_0000_0000
  {
    assert Pow256(1) == 256 && Pow256(2) == 0x1_0000 && Pow256(3) == 0x100_0000 && Pow256(4) == 0x1_0000_0000;
    assert Pow256(5) == 0x100_0000_0000 && Pow256(6) == 0x1_0000_0000_0000 && Pow256(7) == 0x100_0000_0000_0000;
  }

  lemma Le64(x: Uint64)
    ensures FromLe(Le(x, 8)) == x
  {
    LeRoundTrip(x, 8);
    LePowers();
  }

  // ----- one frame

  datatype Header = Header(dataLen: nat, mainType: nat, subType: nat)

  const HeaderSize := 8

  /** encodeHeader; the length goes through uint32, so only its low 32 bits are kept. */
  function EncodeHeader(mainType: Uint16, subType: Uint16, len: nat): (r: Bytes)
    ensures |r| == HeaderSize
  {
    Le(len, 4) + Le(mainType, 2) + Le(subType, 2)
  }

  function DecodeHeader(b: Bytes): Header
    requires |b| == HeaderSize
  {
    Header(FromLe(b[..4]), FromLe(b[4..6]), FromLe(b[6..8]))
  }

  lemma HeaderRoundTrip(mainType: Uint16, subType: Uint16, len: nat)
    ensures DecodeHeader(EncodeHeader(mainType, subType, len)) == Header(len % 0x1_0000_0000, mainType, subType)
  {
    var b := EncodeHeader(mainType, subType, len);
    assert b[..4] == Le(len, 4) && b[4..6] == Le(mainType, 2) && b[6..8] == Le(subType, 2);
    LeRoundTrip(len, 4);
    LeRoundTrip(mainType, 2);
    LeRoundTrip(subType, 2);
    LePowers();
  }

  /** The layout on the wire: four bytes of length, two of main type, two of subtype, all little-endian. */
  lemma HeaderBytes(mainType: Uint16, subType: Uint16, len: nat, i: nat)
    requires i < HeaderSize
    ensures EncodeHeader(mainType, subType, len)[i] ==
            if i < 4 then len / Pow256(i) % 256
            else if i < 6 then mainType / Pow256(i - 4) % 256
            else subType / Pow256(i - 6) % 256
  {
    if i < 4 {
      LeBytes(len, 4, i);
    } else if i < 6 {
      LeBytes(mainType, 2, i - 4);
    } else {
      LeBytes(subType, 2, i - 6);
    }
  }

  datatype Msg = Msg(mainType: Uint16, subType: Uint16, data: Bytes)

  function Encode(m: Msg): Bytes {
    EncodeHeader(m.mainType, m.subType, |m.data|) + m.data
  }

  /** What DefaultReadBuffer finds at the front of a stream. A main type over 16 consumes the header and
      returns neither a frame nor an error. */
  datatype ReadResult = Frame(head: Header, body: Bytes, rest: Bytes) | NeedMore | Rejected(rest: Bytes)

  function ReadFrame(s: Bytes): ReadResult {
    if |s| < HeaderSize then NeedMore
    else
      var h := DecodeHeader(s[..HeaderSize]);
      var rest := s[HeaderSize..];
      if h.mainType > 16 then Rejected(rest)
      else if |rest| < h.dataLen then NeedMore
      else Frame(h, rest[..h.dataLen], rest[h.dataLen..])
  }

  /** What a reader must see of a message: its two types, its payload, and the untouched remainder. */
  function Seen(m: Msg, rest: Bytes): ReadResult {
    Frame(Header(|m.data|, m.mainType, m.subType), m.data, rest)
  }

  predicate Fits(m: Msg) {
    |m.data| < 0x1_0000_0000 && m.mainType <= 16
  }

  /** A frame is read back exactly when its length fits uint32 and its main type is at most 16. */
  lemma FrameRoundTrip(m: Msg, rest: Bytes)
    ensures ReadFrame(Encode(m) + rest) == Seen(m, rest) <==> Fits(m)
  {
    var s, n := Encode(m) + rest, |m.data|;
    HeaderRoundTrip(m.mainType, m.subType, n);
    assert s[..HeaderSize] == EncodeHeader(m.mainType, m.subType, n);
    assert s[HeaderSize..] == m.data + rest;
    if Fits(m) {
      assert (m.data + rest)[..n] == m.data && (m.data + rest)[n..] == rest;
    } else if m.mainType <= 16 {
      assert ReadFrame(s).Frame? ==> |ReadFrame(s).body| == n % 0x1_0000_0000 < n;
    }
  }

  /** A main type over 16 costs the header only: what would have been its body is read as the next frame. */
  lemma RejectedSkipsHeader(m: Msg, rest: Bytes)
    requires m.mainType > 16
    ensures ReadFrame(Encode(m) + rest) == Rejected(m.data + rest)
  {
    HeaderRoundTrip(m.mainType, m.subType, |m.data|);
    assert (Encode(m) + rest)[..HeaderSize] == EncodeHeader(m.mainType, m.subType, |m.data|);
    assert (Encode(m) + rest)[HeaderSize..] == m.data + rest;
  }

  /** An unfinished frame is never taken for a finished one. */
  lemma PrefixNeedsMore(m: Msg, k: nat)
    requires Fits(m) && k < |Encode(m)|
    ensures ReadFrame(Encode(m)[..k]) == NeedMore
  {
    if k >= HeaderSize {
      HeaderRoundTrip(m.mainType, m.subType, |m.data|);
      assert Encode(m)[..k][..HeaderSize] == EncodeHeader(m.mainType, m.subType, |m.data|);
    }
  }

  // ----- a stream of frames

  function EncodeAll(ms: seq<Msg>): Bytes {
    if ms == [] then [] else Encode(ms[0]) + EncodeAll(ms[1..])
  }

  /** Repeated DefaultReadBuffer: the frames read, and the bytes that do not yet make one. */
  function ReadAll(s: Bytes): (seq<ReadResult>, Bytes)
    decreases |s|
  {
    var r := ReadFrame(s);
    if r.Frame? then
      var (frames, left) := ReadAll(r.rest);
      ([r.(rest := [])] + frames, left)
    else ([], s)
  }

  function SeenAll(ms: seq<Msg>): seq<ReadResult> {
    seq(|ms|, i requires 0 <= i < |ms| => Seen(ms[i], []))
  }

  lemma ReadOne(m: Msg, rest: Bytes)
    requires Fits(m)
    ensures ReadAll(Encode(m) + rest) == ([Seen(m, [])] + ReadAll(rest).0, ReadAll(rest).1)
  {
    hide Encode, DecodeHeader;
    FrameRoundTrip(m, rest);
  }

  lemma {:induction false} StreamRoundTrip(ms: seq<Msg>, tail: Bytes)
    requires forall m :: m in ms ==> Fits(m)
    requires ReadFrame(tail) == NeedMore
    ensures ReadAll(EncodeAll(ms) + tail) == (SeenAll(ms), tail)
  {
    hide ReadFrame, Encode;
    if ms == [] {
      assert EncodeAll(ms) + tail == tail;
    } else {
      var rest := EncodeAll(ms[1..]) + tail;
      StreamRoundTrip(ms[1..], tail);
      ReadOne(ms[0], rest);
      assert EncodeAll(ms) + tail == Encode(ms[0]) + rest;
      assert SeenAll(ms) == [Seen(ms[0], [])] + SeenAll(ms[1..]);
    }
  }

  lemma {:induction false} EncodeAllSnoc(ms: seq<Msg>, m: Msg)
    ensures EncodeAll(ms + [m]) == EncodeAll(ms) + Encode(m)
  {
    if ms == [] {
      assert ms + [m] == [m] && EncodeAll([m][1..]) == [];
    } else {
      assert (ms + [m])[1..] == ms[1..] + [m];
      EncodeAllSnoc(ms[1..], m);
    }
  }

  // ----- one writer on a connection

  class Conn {
    var written: Bytes
    var inbox: Bytes

    /** io.Writer: some leading part of `p` goes out, at least one byte when there is no error. */
    method Write(p: Bytes) returns (n: nat, failed: bool)
      requires p != []
      modifies `written
      ensures n <= |p| && (!failed ==> 1 <= n) && written == old(written) + p[..n]
    {
      n :| 0 <= n <= |p|;
      failed := n == 0;
      written := written + p[..n];
    }

    /** writeFull: all of `data`, or a prefix of it and an error. */
    method WriteFull(data: Bytes) returns (failed: bool)
      modifies `written
      ensures !failed ==> written == old(written) + data
      ensures failed ==> exists k :: 0 <= k <= |data| && written == old(written) + data[..k]
    {
      var total := 0;
      while total < |data|
        invariant 0 <= total <= |data| && written == old(written) + data[..total]
      {
        var n, err := Write(data[total..]);
        assert data[..total] + data[total..][..n] == data[..total + n];
        if err {
          return true;
        }
        total := total + n;
      }
      assert data[..|data|] == data;
      return false;
    }

    /** DefaultReadBuffer on the bytes that have arrived; without a whole frame it would wait. */
    method ReadBuffer() returns (r: ReadResult)
      modifies `inbox
      ensures r == ReadFrame(old(inbox))
      ensures inbox == if r.NeedMore? then old(inbox) else r.rest
    {
      if |inbox| < HeaderSize {
        return NeedMore;
      }
      var head := DecodeHeader(inbox[..HeaderSize]);
      if head.mainType > 16 {
        inbox := inbox[HeaderSize..];
        return Rejected(inbox);
      }
      if |inbox| - HeaderSize < head.dataLen {
        return NeedMore;
      }
      var body := inbox[HeaderSize..][..head.dataLen];
      inbox := inbox[HeaderSize..][head.dataLen..];
      return Frame(head, body, inbox);
    }
  }

  // ----- any number of writers on one connection

  datatype Holder = Holder(writer: nat, msg: Msg, offset: nat)

  datatype Link = Link(
    holder: Option<Holder>, // who has the write lock, and how far writeFull has got
    done: seq<Msg>,         // messages whose writer has released the lock without an error
    stream: Bytes,
    failed: bool)           // some write has returned an error

  datatype Action = Lock(writer: nat, msg: Msg) | WriteSome(n: nat) | Unlock | FailAfter(n: nat)

  const Idle := Link(None, [], [], false)

  function Do(l: Link, a: Action): Link {
    match a
    case Lock(w, m) => if l.holder.None? then l.(holder := Some(Holder(w, m, 0))) else l
    case WriteSome(n) =>
      if l.holder.Some? && l.holder.value.offset + n <= |Encode(l.holder.value.msg)| then
        var h := l.holder.value;
        l.(holder := Some(h.(offset := h.offset + n)), stream := l.stream + Encode(h.msg)[h.offset..h.offset + n])
      else l
    case Unlock =>
      if l.holder.Some? && l.holder.value.offset == |Encode(l.holder.value.msg)| then
        l.(holder := None, done := l.done + [l.holder.value.msg])
      else l
    case FailAfter(n) =>
      if l.holder.Some? && l.holder.value.offset + n <= |Encode(l.holder.value.msg)| then
        var h := l.holder.value;
        l.(holder := None, failed := true, stream := l.stream + Encode(h.msg)[h.offset..h.offset + n])
      else l
  }

  ghost function Run(acts: seq<Action>): Link {
    if acts == [] then Idle else Do(Run(acts[..|acts| - 1]), acts[|acts| - 1])
  }

  function Partial(l: Link): Bytes {
    if l.holder.Some? && l.holder.value.offset <= |Encode(l.holder.value.msg)|
    then Encode(l.holder.value.msg)[..l.holder.value.offset] else []
  }

  /** Completed frames in lock order, then a prefix of the lock holder's frame. */
  ghost predicate Ordered(l: Link) {
    && (l.holder.Some? ==> l.holder.value.offset <= |Encode(l.holder.value.msg)|)
    && (!l.failed ==> l.stream == EncodeAll(l.done) + Partial(l))
  }

  lemma DoOrdered(l: Link, a: Action)
    requires Ordered(l)
    ensures Ordered(Do(l, a))
  {
    if l.holder.Some? {
      var h := l.holder.value;
      var e := Encode(h.msg);
      match a
      case WriteSome(n) =>
        if h.offset + n <= |e| {
          assert e[..h.offset] + e[h.offset..h.offset + n] == e[..h.offset + n];
        }
      case Unlock =>
        EncodeAllSnoc(l.done, h.msg);
        assert e[..|e|] == e;
      case _ =>
    }
  }

  ghost predicate AllFit(acts: seq<Action>) {
    forall a :: a in acts && a.Lock? ==> Fits(a.msg)
  }

  lemma {:induction false} RunOrdered(acts: seq<Action>)
    requires AllFit(acts)
    ensures Ordered(Run(acts))
    ensures forall m :: m in Run(acts).done ==> Fits(m)
    ensures Run(acts).holder.Some? ==> Fits(Run(acts).holder.value.msg)
  {
    if acts == [] {
    } else {
      RunOrdered(acts[..|acts| - 1]);
      DoOrdered(Run(acts[..|acts| - 1]), acts[|acts| - 1]);
    }
  }

  /** With any number of writers and arbitrary partial writes, until one fails: the stream is the
      completed frames in lock order and a prefix of the holder's, and reading it to the end yields
      exactly the completed frames, plus the holder's once its last byte is out. */
  lemma SharedStream(acts: seq<Action>)
    requires AllFit(acts) && !Run(acts).failed
    ensures var l := Run(acts);
            && l.stream == EncodeAll(l.done) + Partial(l)
            && ReadAll(l.stream) ==
               if l.holder.Some? && l.holder.value.offset == |Encode(l.holder.value.msg)|
               then (SeenAll(l.done + [l.holder.value.msg]), []) else (SeenAll(l.done), Partial(l))
  {
    RunOrdered(acts);
    var l := Run(acts);
    if l.holder.Some? && l.holder.value.offset == |Encode(l.holder.value.msg)| {
      var m := l.holder.value.msg;
      EncodeAllSnoc(l.done, m);
      assert l.stream == EncodeAll(l.done + [m]) + [];
      StreamRoundTrip(l.done + [m], []);
    } else {
      if l.holder.Some? {
        PrefixNeedsMore(l.holder.value.msg, l.holder.value.offset);
      }
      StreamRoundTrip(l.done, Partial(l));
    }
  }

  /** Writers get through: for any list of messages some run completes exactly those, in that order. */
  lemma {:induction false} WritersFinish(ms: seq<Msg>) returns (acts: seq<Action>)
    ensures var l := Run(acts); l.done == ms && l.holder.None? && !l.failed && l.stream == EncodeAll(ms)
  {
    acts := [];
    if ms != [] {
      hide Encode;
      var init, m := ms[..|ms| - 1], ms[|ms| - 1];
      acts := WritersFinish(init);
      acts := Then(acts, Lock(0, m));
      acts := Then(acts, WriteSome(|Encode(m)|));
      acts := Then(acts, Unlock);
      assert ms == init + [m] && Encode(m)[0..|Encode(m)|] == Encode(m);
      EncodeAllSnoc(init, m);
    }
  }

  lemma Then(acts: seq<Action>, a: Action) returns (r: seq<Action>)
    ensures r == acts + [a] && Run(r) == Do(Run(acts), a)
  {
    r := acts + [a];
    assert r[..|acts|] == acts;
  }
}
