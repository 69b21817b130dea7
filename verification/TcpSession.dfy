/** The write side of a connection: non-blocking sends, the list of unsent pieces and the
    can-write flag (core/tcp/TcpSession.cpp), with the two ways of sending a frame that are
    built on it (pc_server/PcSession.cpp, jt1078/forward_server/Subscriber.cpp).

    How the kernel answers is unknown, so each connection carries the answers it will get:
    every theorem holds for all of them. An interrupted call is repeated by the source until
    it is not interrupted; only that last answer counts here. */
module TcpSessions {
  import opened Bytes

  datatype Reply = Accept(n: nat) | WouldBlock | Broken

  type Kernel = nat -> Reply

  datatype Sock = Sock(kernel: Kernel, calls: nat, canWrite: bool, pending: seq<seq<byte>>, wire: seq<byte>)

  /** One send: the connection afterwards and the return value, -1 for an error. */
  ghost function SendOnce(k: Sock, data: seq<byte>): (r: (Sock, int))
    ensures -1 <= r.1 <= |data|
  {
    match k.kernel(k.calls)
    case Accept(n) => (k.(calls := k.calls + 1, wire := k.wire + data[..Min(n, |data|)]), Min(n, |data|) as int)
    case WouldBlock => (k.(calls := k.calls + 1), -1)
    case Broken => (k.(calls := k.calls + 1, canWrite := false), -1)
  }

  /** Send unsent pieces until one is not taken whole. */
  ghost function Flush(k: Sock): Sock
    decreases |k.pending|
  {
    if k.pending == [] then k
    else
      var (k', ret) := SendOnce(k, k.pending[0]);
      if ret < 0 then k'
      else if ret < |k.pending[0]| then k'.(pending := [k.pending[0][ret..]] + k.pending[1..])
      else Flush(k'.(pending := k.pending[1..]))
  }

  /** Send a frame behind whatever is unsent; what the kernel does not take is kept, unless
      the connection broke. */
  ghost function SendFrame(k: Sock, frame: seq<byte>): Sock {
    var f := Flush(k);
    if f.pending != [] then
      if f.canWrite then f.(pending := f.pending + [frame]) else f
    else
      var (s, ret) := SendOnce(f, frame);
      if ret < 0 then
        if s.canWrite then s.(pending := s.pending + [frame]) else s
      else if ret < |frame| then s.(pending := s.pending + [frame[ret..]])
      else s
  }

  /** What the publishers do with each member of a channel. */
  ghost function Offer(k: Sock, frame: seq<byte>): Sock {
    if k.canWrite then SendFrame(k, frame) else k
  }

  // ---- Conservation ----

  ghost predicate NoEmptyPiece(k: Sock) {
    forall i :: 0 <= i < |k.pending| ==> k.pending[i] != []
  }

  /** All bytes handed over so far that are not lost: on the wire, then still unsent. */
  ghost function Stream(k: Sock): seq<byte> { k.wire + Flatten(k.pending) }

  lemma {:induction false} FlushConserves(k: Sock)
    ensures Stream(Flush(k)) == Stream(k) && k.wire <= Flush(k).wire
    ensures NoEmptyPiece(k) ==> NoEmptyPiece(Flush(k))
    ensures Flush(k).canWrite ==> k.canWrite
    decreases |k.pending|
  {
    if k.pending != [] {
      var first, later := k.pending[0], k.pending[1..];
      var (k', ret) := SendOnce(k, first);
      if 0 <= ret < |first| {
        var left := [first[ret..]] + later;
        assert left[1..] == later;
        assert k'.wire + Flatten(left) == k.wire + Flatten(k.pending);
      } else if ret >= 0 {
        var next := k'.(pending := later);
        assert first[..ret] == first;
        assert Stream(next) == Stream(k);
        FlushConserves(next);
      }
    }
  }

  /** How many pieces the kernel takes whole, one call each, before it first does not. */
  ghost function TakenWhole(kernel: Kernel, calls: nat, pieces: seq<seq<byte>>): (i: nat)
    ensures i <= |pieces|
    ensures i < |pieces| && kernel(calls + i).Accept? ==> kernel(calls + i).n < |pieces[i]|
    decreases |pieces|
  {
    if pieces == [] then 0
    else
      match kernel(calls)
      case Accept(n) => if n < |pieces[0]| then 0 else 1 + TakenWhole(kernel, calls + 1, pieces[1..])
      case _ => 0
  }

  /** The connection when pieces 0 to `i` have been sent whole and the answer to piece `i`, if
      there is one, was not to take it whole: the rest of it stands in front of the later
      ones, or all of it if the answer was an error, which clears the flag only on a broken
      connection. */
  ghost function StoppedAt(k: Sock, i: nat): Sock
    requires i <= |k.pending|
  {
    var sent := k.wire + Flatten(k.pending[..i]);
    if i == |k.pending| then Sock(k.kernel, k.calls + i, k.canWrite, [], sent)
    else
      match k.kernel(k.calls + i)
      case Accept(n) =>
        var m := Min(n, |k.pending[i]|);
        Sock(k.kernel, k.calls + i + 1, k.canWrite, [k.pending[i][m..]] + k.pending[i + 1..], sent + k.pending[i][..m])
      case WouldBlock => Sock(k.kernel, k.calls + i + 1, k.canWrite, k.pending[i..], sent)
      case Broken => Sock(k.kernel, k.calls + i + 1, false, k.pending[i..], sent)
  }

  /** The first piece taken whole. */
  ghost function OneTaken(k: Sock): Sock
    requires k.pending != []
  {
    Sock(k.kernel, k.calls + 1, k.canWrite, k.pending[1..], k.wire + k.pending[0])
  }

  lemma FlushesOn(k: Sock)
    requires k.pending != [] && k.kernel(k.calls).Accept? && k.kernel(k.calls).n >= |k.pending[0]|
    ensures Flush(k) == Flush(OneTaken(k))
  {
    var first := k.pending[0];
    assert first[..|first|] == first;
  }

  lemma TakenOneOn(k: Sock)
    requires k.pending != [] && k.kernel(k.calls).Accept? && k.kernel(k.calls).n >= |k.pending[0]|
    ensures var next := OneTaken(k);
            TakenWhole(k.kernel, k.calls, k.pending) == 1 + TakenWhole(next.kernel, next.calls, next.pending)
  {
  }

  /** A flush sends exactly the pieces that are taken whole and gives up only because of the
      kernel, at the first that is not. */
  lemma {:induction false} FlushIsEager(k: Sock)
    ensures Flush(k) == StoppedAt(k, TakenWhole(k.kernel, k.calls, k.pending))
    decreases |k.pending|
  {
    if k.pending != [] && k.kernel(k.calls).Accept? && k.kernel(k.calls).n >= |k.pending[0]| {
      FlushesOn(k);
      var next := OneTaken(k);
      FlushIsEager(next);
      StoppedOneOn(k, TakenWhole(next.kernel, next.calls, next.pending));
      TakenOneOn(k);
    } else {
      StoppedAtOnce(k);
    }
  }

  lemma StoppedAtOnce(k: Sock)
    requires k.pending != [] && k.kernel(k.calls).Accept? ==> k.kernel(k.calls).n < |k.pending[0]|
    ensures Flush(k) == StoppedAt(k, 0)
  {
    assert k.wire + Flatten(k.pending[..0]) == k.wire;
    assert k.pending[0..] == k.pending;
  }

  lemma StoppedOneOn(k: Sock, i: nat)
    requires i < |k.pending|
    ensures StoppedAt(OneTaken(k), i) == StoppedAt(k, i + 1)
  {
    var later := k.pending[1..];
    assert k.pending[..i + 1][1..] == later[..i];
    Associative(k.wire, k.pending[0], Flatten(later[..i]));
    assert k.pending[i + 1..] == later[i..];
    if i < |later| {
      assert k.pending[i + 2..] == later[i + 1..];
    }
  }

  ghost predicate Takes(reply: Reply, frame: seq<byte>) { reply.Accept? && reply.n >= |frame| }

  lemma SnocFirst<T>(s: seq<T>, x: T)
    ensures if s == [] then s + [x] == [x] && (s + [x])[1..] == [] else (s + [x])[0] == s[0] && (s + [x])[1..] == s[1..] + [x]
  {
  }

  lemma {:induction false} TakenSnoc(kernel: Kernel, calls: nat, pieces: seq<seq<byte>>, frame: seq<byte>)
    ensures var i := TakenWhole(kernel, calls, pieces);
            TakenWhole(kernel, calls, pieces + [frame]) ==
              i + if i == |pieces| && Takes(kernel(calls + i), frame) then 1 else 0
    decreases |pieces|
  {
    SnocFirst(pieces, frame);
    if pieces != [] {
      TakenSnoc(kernel, calls + 1, pieces[1..], frame);
    }
  }

  /** Stopped before the frame: it joins the list. */
  lemma StoppedBefore(k: Sock, frame: seq<byte>, i: nat)
    requires i < |k.pending|
    ensures var f := StoppedAt(k, i);
            StoppedAt(k.(pending := k.pending + [frame]), i) == f.(pending := f.pending + [frame]) && f.pending != []
  {
    var more := k.pending + [frame];
    assert more[..i] == k.pending[..i] && more[i] == k.pending[i];
    assert more[i..] == k.pending[i..] + [frame] && more[i + 1..] == k.pending[i + 1..] + [frame];
  }

  /** Nothing is left before the frame: it goes to the kernel. */
  lemma StoppedInside(k: Sock, frame: seq<byte>)
    ensures var more, n, gone := k.(pending := k.pending + [frame]), |k.pending|, k.wire + Flatten(k.pending);
            && StoppedAt(k, n) == Sock(k.kernel, k.calls + n, k.canWrite, [], gone)
            && StoppedAt(more, n + 1) == Sock(k.kernel, k.calls + n + 1, k.canWrite, [], gone + frame)
            && StoppedAt(more, n) == (
                 match k.kernel(k.calls + n)
                 case Accept(m) =>
                   var cut := Min(m, |frame|);
                   Sock(k.kernel, k.calls + n + 1, k.canWrite, [frame[cut..]], gone + frame[..cut])
                 case WouldBlock => Sock(k.kernel, k.calls + n + 1, k.canWrite, [frame], gone)
                 case Broken => Sock(k.kernel, k.calls + n + 1, false, [frame], gone))
  {
    var all, n := k.pending + [frame], |k.pending|;
    assert k.pending[..n] == k.pending && all[..n] == k.pending && all[..n + 1] == all;
    assert all[n..] == [frame] && all[n + 1..] == [];
    FlattenAppend(k.pending, [frame]);
    FlattenOne(frame);
    Associative(k.wire, Flatten(k.pending), frame);
  }

  /** What is left is kept, but on a connection that is not writable the last piece is not,
      unless the kernel has part of it. */
  ghost function Keeping(t: Sock, begun: bool): Sock {
    if t.canWrite || t.pending == [] || begun then t else t.(pending := t.pending[..|t.pending| - 1])
  }

  /** The connection when a frame is sent as if it had been the last unsent piece, and `i` pieces
      are taken whole: everything before the first piece that is not has gone out. */
  ghost function EagerlySent(k: Sock, frame: seq<byte>, i: nat): Sock
    requires i <= |k.pending| + 1
  {
    Keeping(StoppedAt(k.(pending := k.pending + [frame]), i), i == |k.pending| && k.kernel(k.calls + i).Accept?)
  }

  lemma SendsBehind(k: Sock, frame: seq<byte>, i: nat)
    requires i < |k.pending| && Flush(k) == StoppedAt(k, i)
    ensures SendFrame(k, frame) == EagerlySent(k, frame, i)
  {
    StoppedBefore(k, frame, i);
    var f := StoppedAt(k, i);
    assert (f.pending + [frame])[..|f.pending|] == f.pending;
  }

  lemma OnlyOne<T>(s: seq<T>, x: seq<T>)
    ensures s[..|s|] == s && [] + [x] == [x] && [x][..0] == []
  {
  }

  /** What becomes of a frame with nothing left before it. */
  ghost function Alone(f: Sock, frame: seq<byte>): Sock {
    match f.kernel(f.calls)
    case Accept(m) =>
      if m >= |frame| then Sock(f.kernel, f.calls + 1, f.canWrite, [], f.wire + frame)
      else Sock(f.kernel, f.calls + 1, f.canWrite, [frame[m..]], f.wire + frame[..m])
    case WouldBlock => Sock(f.kernel, f.calls + 1, f.canWrite, if f.canWrite then [frame] else [], f.wire)
    case Broken => Sock(f.kernel, f.calls + 1, false, [], f.wire)
  }

  lemma SendsAlone(k: Sock, frame: seq<byte>)
    requires Flush(k).pending == []
    ensures SendFrame(k, frame) == Alone(Flush(k), frame)
  {
    var f := Flush(k);
    OnlyOne(frame, frame);
    if f.kernel(f.calls).Accept? && f.kernel(f.calls).n < |frame| {
      OnlyOne(frame, frame[f.kernel(f.calls).n..]);
    }
  }

  /** Where the kernel stops, with the frame as the only piece. */
  ghost function StoppedAlone(f: Sock, frame: seq<byte>): Sock {
    match f.kernel(f.calls)
    case Accept(m) =>
      if m >= |frame| then Sock(f.kernel, f.calls + 1, f.canWrite, [], f.wire + frame)
      else Sock(f.kernel, f.calls + 1, f.canWrite, [frame[m..]], f.wire + frame[..m])
    case WouldBlock => Sock(f.kernel, f.calls + 1, f.canWrite, [frame], f.wire)
    case Broken => Sock(f.kernel, f.calls + 1, false, [frame], f.wire)
  }

  lemma KeepingAlone(f: Sock, frame: seq<byte>)
    ensures Keeping(StoppedAlone(f, frame), f.kernel(f.calls).Accept?) == Alone(f, frame)
  {
    OnlyOne(frame, frame);
  }

  lemma EagerAlone(k: Sock, frame: seq<byte>, i: nat)
    requires i == |k.pending| + if Takes(k.kernel(k.calls + |k.pending|), frame) then 1 else 0
    ensures EagerlySent(k, frame, i) == Alone(StoppedAt(k, |k.pending|), frame)
  {
    StoppedInside(k, frame);
    assert StoppedAt(k.(pending := k.pending + [frame]), i) == StoppedAlone(StoppedAt(k, |k.pending|), frame);
    KeepingAlone(StoppedAt(k, |k.pending|), frame);
  }

  lemma SendsThrough(k: Sock, frame: seq<byte>, i: nat, f: Sock)
    requires f == Flush(k) == StoppedAt(k, |k.pending|) && f.pending == []
    requires i == |k.pending| + if Takes(k.kernel(k.calls + |k.pending|), frame) then 1 else 0
    ensures SendFrame(k, frame) == EagerlySent(k, frame, i)
  {
    SendsAlone(k, frame);
    EagerAlone(k, frame, i);
  }

  /** A frame is sent as eagerly as if it had been the last unsent piece. */
  lemma SendIsEager(k: Sock, frame: seq<byte>)
    ensures SendFrame(k, frame) == EagerlySent(k, frame, TakenWhole(k.kernel, k.calls, k.pending + [frame]))
  {
    var i := TakenWhole(k.kernel, k.calls, k.pending);
    FlushIsEager(k);
    TakenSnoc(k.kernel, k.calls, k.pending, frame);
    var taken := TakenWhole(k.kernel, k.calls, k.pending + [frame]);
    if i < |k.pending| {
      SendsBehind(k, frame, i);
    } else {
      SendsThrough(k, frame, taken, Flush(k));
    }
  }

  /** The kernel takes each of these frames whole, one call each. */
  ghost predicate TakesAll(k: Sock, frames: seq<seq<byte>>) {
    forall i :: 0 <= i < |frames| ==> Takes(k.kernel(k.calls + i), frames[i])
  }

  lemma TakenAlone(k: Sock, frame: seq<byte>)
    requires k.pending == [] && k.canWrite && Takes(k.kernel(k.calls), frame)
    ensures SendFrame(k, frame) == Sock(k.kernel, k.calls + 1, true, [], k.wire + frame)
  {
    SendIsEager(k, frame);
    TakenSnoc(k.kernel, k.calls, k.pending, frame);
    StoppedInside(k, frame);
    assert k.wire + Flatten(k.pending) == k.wire;
  }

  lemma FlattenLast(frames: seq<seq<byte>>)
    requires frames != []
    ensures var n := |frames| - 1; Flatten(frames) == Flatten(frames[..n]) + frames[n]
  {
    var n := |frames| - 1;
    assert frames == frames[..n] + [frames[n]];
    FlattenAppend(frames[..n], [frames[n]]);
    FlattenOne(frames[n]);
  }

  /** So on a connection whose kernel takes everything nothing waits: the wire is all frames. */
  lemma {:induction false} NothingWaits(k: Sock, frames: seq<seq<byte>>)
    requires k.pending == [] && k.canWrite && TakesAll(k, frames)
    ensures OfferAll(k, frames) == Sock(k.kernel, k.calls + |frames|, true, [], k.wire + Flatten(frames))
  {
    if frames == [] {
      assert k.wire + [] == k.wire;
    } else {
      var n := |frames| - 1;
      forall i | 0 <= i < n ensures Takes(k.kernel(k.calls + i), frames[..n][i]) {
        assert frames[..n][i] == frames[i];
      }
      assert Takes(k.kernel(k.calls + n), frames[n]);
      NothingWaits(k, frames[..n]);
      TakenAlone(OfferAll(k, frames[..n]), frames[n]);
      FlattenLast(frames);
      Associative(k.wire, Flatten(frames[..n]), frames[n]);
    }
  }

  /** A flush that empties the list met no break. */
  lemma {:induction false} FlushKeepsFlag(k: Sock)
    ensures Flush(k).pending == [] ==> Flush(k).canWrite == k.canWrite
    decreases |k.pending|
  {
    if k.pending != [] {
      var (k', ret) := SendOnce(k, k.pending[0]);
      if ret >= |k.pending[0]| {
        FlushKeepsFlag(k'.(pending := k.pending[1..]));
      } else if ret >= 0 {
        assert Flush(k).pending != [];
      }
    }
  }

  /** A frame sent with nothing before it unsent. */
  lemma SendConservesAlone(f: Sock, frame: seq<byte>)
    requires f.pending == [] && frame != []
    ensures var (k, ret) := SendOnce(f, frame);
            var s := if ret < 0 then (if k.canWrite then k.(pending := k.pending + [frame]) else k)
                     else if ret < |frame| then k.(pending := k.pending + [frame[ret..]]) else k;
            && (f.canWrite ==> Stream(s) == f.wire + if s.canWrite then frame else [])
            && f.wire <= s.wire && NoEmptyPiece(s)
  {
    var (k, ret) := SendOnce(f, frame);
    FlattenOne(frame);
    if 0 <= ret < |frame| {
      FlattenOne(frame[ret..]);
      assert [] + [frame[ret..]] == [frame[ret..]];
      assert frame[..ret] + frame[ret..] == frame;
    } else if ret < 0 {
      assert [] + [frame] == [frame];
    } else {
      assert frame[..ret] == frame;
    }
  }

  /** A frame is either accepted whole, behind everything accepted before it, or the
      connection is broken and no byte of it counts. */
  lemma SendConserves(k: Sock, frame: seq<byte>)
    requires NoEmptyPiece(k) && frame != [] && k.canWrite
    ensures var s := SendFrame(k, frame);
            && Stream(s) == Stream(k) + (if s.canWrite then frame else [])
            && k.wire <= s.wire && NoEmptyPiece(s)
  {
    FlushConserves(k);
    var f := Flush(k);
    if f.pending != [] {
      FlattenAppend(f.pending, [frame]);
      FlattenOne(frame);
    } else {
      FlushKeepsFlag(k);
      SendConservesAlone(f, frame);
      assert f.wire + [] == f.wire;
    }
  }

  ghost predicate NoEmptyFrame(frames: seq<seq<byte>>) {
    forall i :: 0 <= i < |frames| ==> frames[i] != []
  }

  ghost function OfferAll(k: Sock, frames: seq<seq<byte>>): Sock {
    if frames == [] then k
    else Offer(OfferAll(k, frames[..|frames| - 1]), frames[|frames| - 1])
  }

  /** How many of the frames are accepted: all of them, or those before the break. */
  ghost function AcceptedCount(k: Sock, frames: seq<seq<byte>>): (n: nat)
    ensures n <= |frames|
  {
    if frames == [] then 0
    else if OfferAll(k, frames).canWrite then |frames|
    else AcceptedCount(k, frames[..|frames| - 1])
  }

  /** Conservation over a whole run of sends, for every way the kernel may answer: the wire
      and the unsent pieces together are exactly the accepted frames in order; no unsent piece
      is empty; and frames are lost only whole, only at the end, and only by a break. */
  lemma {:induction false} RunConserves(k: Sock, frames: seq<seq<byte>>)
    requires NoEmptyPiece(k) && NoEmptyFrame(frames)
    ensures var s, n := OfferAll(k, frames), AcceptedCount(k, frames);
            && Stream(s) == Stream(k) + Flatten(frames[..n])
            && k.wire <= s.wire && NoEmptyPiece(s)
            && (s.canWrite && k.canWrite ==> n == |frames|)
            && (s.canWrite ==> k.canWrite)
  {
    if frames == [] {
      assert frames[..0] == [];
    } else {
      var m := |frames| - 1;
      var before, frame := OfferAll(k, frames[..m]), frames[m];
      RunConserves(k, frames[..m]);
      if before.canWrite {
        SendConserves(before, frame);
        assert AcceptedCount(k, frames[..m]) == m;
        if OfferAll(k, frames).canWrite {
          assert frames[..m][..m] == frames[..m];
          assert frames[..m + 1] == frames[..m] + [frame];
          FlattenAppend(frames[..m], [frame]);
          FlattenOne(frame);
        } else {
          assert frames[..m][..m] == frames[..m];
        }
      } else {
        var n := AcceptedCount(k, frames[..m]);
        assert frames[..m][..n] == frames[..n];
      }
    }
  }

  lemma PrefixOf(wire: seq<byte>, stream: seq<byte>, frames: seq<seq<byte>>, n: nat)
    requires wire <= stream && n <= |frames| && stream == Flatten(frames[..n])
    ensures wire <= Flatten(frames)
  {
    assert frames == frames[..n] + frames[n..];
    FlattenAppend(frames[..n], frames[n..]);
  }

  /** So what a receiver has got is always a prefix of the frames sent, cut anywhere. */
  lemma WireIsPrefix(k: Sock, frames: seq<seq<byte>>)
    requires k.pending == [] && k.wire == [] && NoEmptyFrame(frames)
    ensures OfferAll(k, frames).wire <= Flatten(frames)
  {
    RunConserves(k, frames);
    var n, s := AcceptedCount(k, frames), OfferAll(k, frames);
    assert Stream(k) == [];
    PrefixOf(s.wire, Stream(s), frames, n);
  }

  // ---- The connection itself ----

  /** Base and derived session classes in one: `deviceId` is PcSession's, `lastSeqId`
      Subscriber's. */
  class TcpSession {
    const sessionId: nat
    const kernel: Kernel
    var calls: nat
    var canWrite: bool
    var pending: seq<seq<byte>>
    var wire: seq<byte>
    var deviceId: string
    var lastSeqId: nat

    ghost function View(): Sock
      reads this
    {
      Sock(kernel, calls, canWrite, pending, wire)
    }

    constructor (sessionId: nat, kernel: Kernel)
      ensures View() == Sock(kernel, 0, true, [], [])
      ensures this.sessionId == sessionId && deviceId == "" && lastSeqId == 0xffff_ffff
    {
      this.sessionId, this.kernel := sessionId, kernel;
      calls, canWrite, pending, wire, deviceId, lastSeqId := 0, true, [], [], "", 0xffff_ffff;
    }

    method SendBuffer(data: seq<byte>) returns (ret: int, again: bool)
      modifies this`calls, this`canWrite, this`wire
      ensures (View(), ret) == SendOnce(old(View()), data)
      ensures ret < 0 ==> again == kernel(old(calls)).WouldBlock?
    {
      again := false;
      var reply := kernel(calls);
      calls := calls + 1;
      match reply
      case Accept(n) =>
        ret := Min(n, |data|);
        wire := wire + data[..ret];
      case WouldBlock =>
        ret, again := -1, true;
      case Broken =>
        ret, canWrite := -1, false;
    }

    method SendPendingBuffer() returns (empty: bool)
      modifies this`calls, this`canWrite, this`wire, this`pending
      ensures View() == Flush(old(View())) && empty == (pending == [])
    {
      while pending != []
        invariant Flush(View()) == Flush(old(View()))
        decreases |pending|
      {
        var piece := pending[0];
        var written, _ := SendBuffer(piece);
        if written < 0 {
          return false;
        } else if written < |piece| {
          var left := piece[written..];
          pending := pending[1..];
          pending := [left] + pending;
          return false;
        } else {
          pending := pending[1..];
        }
      }
      return true;
    }

    /** PcSession's way: queue on any failure that leaves the connection writable. */
    method SendPacket(packet: seq<byte>) returns (ok: bool)
      modifies this`calls, this`canWrite, this`wire, this`pending
      ensures View() == SendFrame(old(View()), packet)
      ensures old(canWrite) ==> ok == canWrite
    {
      ghost var k := View();
      if pending != [] {
        var empty := SendPendingBuffer();
        if !empty {
          if !canWrite {
            return false;
          } else {
            pending := pending + [packet];
            return true;
          }
        }
      }
      assert View() == Flush(k);
      FlushKeepsFlag(k);
      var ret, _ := SendBuffer(packet);
      if ret < 0 {
        if canWrite {
          pending := pending + [packet];
        } else {
          return false;
        }
      } else if ret < |packet| {
        pending := pending + [packet[ret..]];
      }
      return true;
    }

    /** Subscriber's way: queue when the error says to try again. For a writable connection
        the two do the same; on one that is not, this way alone keeps a frame that the kernel
        would take later. */
    method SendMsg(packet: seq<byte>) returns (ret: int)
      modifies this`calls, this`canWrite, this`wire, this`pending
      ensures var k, f := old(View()), Flush(old(View()));
              && View() == (if !k.canWrite && f.pending == [] && kernel(f.calls).WouldBlock?
                            then SendFrame(k, packet).(pending := [packet]) else SendFrame(k, packet))
              && (ret >= 0 <==> if k.canWrite then canWrite else f.pending == [] && !kernel(f.calls).Broken?)
    {
      ghost var k := View();
      FlushConserves(k);
      if pending != [] {
        var empty := SendPendingBuffer();
        if !empty {
          if canWrite {
            pending := pending + [packet];
            return |packet|;
          } else {
            return -1;
          }
        }
      }
      assert View() == Flush(k);
      FlushKeepsFlag(k);
      var sent, again := SendBuffer(packet);
      if sent < 0 {
        if again {
          pending := pending + [packet];
          return 0;
        } else {
          return -1;
        }
      } else if sent < |packet| {
        pending := pending + [packet[sent..]];
        return sent;
      }
      return |packet|;
    }

    /** The next frame number, wrapping through the invalid one. */
    method GetIpcPktSeqId() returns (id: nat)
      modifies this`lastSeqId
      ensures id == lastSeqId == NextSeqId(old(lastSeqId))
    {
      if lastSeqId == 0xffff_ffff {
        lastSeqId := 0;
      } else {
        lastSeqId := (lastSeqId + 1) % 0x1_0000_0000;
      }
      id := lastSeqId;
    }
  }

  function NextSeqId(last: nat): nat {
    if last == 0xffff_ffff then 0 else (last + 1) % 0x1_0000_0000
  }

  /** The counter after `k` frames of a connection. */
  function SeqIdAfter(k: nat): nat {
    if k == 0 then 0xffff_ffff else NextSeqId(SeqIdAfter(k - 1))
  }

  /** Frame number k of a connection, counting from zero, carries k mod 2^32, also where the
      counter passes the value that means "none yet". */
  lemma {:induction false} SeqIdIsCount(k: nat)
    ensures SeqIdAfter(k + 1) == k % 0x1_0000_0000
  {
    if k > 0 {
      SeqIdIsCount(k - 1);
      WrapStep(k - 1);
    }
  }

  lemma WrapStep(k: nat)
    ensures NextSeqId(k % 0x1_0000_0000) == (k + 1) % 0x1_0000_0000
  {
  }
}
