/** How the forwarding server frames a JT1078 packet for a subscriber: the private header, the
    device id, the packet's header struct as it lies in memory, and its body
    (jt1078/forward_server/Subscriber.cpp, jt1078/jt1078_server/Jt1078Header.h). */
module Subscribers {
  import opened Bytes
  import opened Ids
  import opened IpcPktType
  import opened TcpSessions
  import D = DeviceId
  import Ipc = IpcPacket
  import Jt = Jt1078Parser

  const HEADER_SIZE := 30
  const DEVICE_SIZE := 8
  const FORWARDED_TYPE := IPC_PKT_TYPE_JT1078_PACKET + IPC_PKT_FROM_JT1078_SERVER

  datatype Message = Message(device: Device, packet: Jt.Packet)

  /** What the jt1078 decoder can have produced, under an id that fits its type. */
  ghost predicate Legal(m: Message) {
    m.device < 0x1_0000_0000_0000_0000 && Jt.WellFormed(m.packet)
  }

  /** And is so: any packet the decoder takes off a stream, under the id of the car it names. */
  lemma EmittedIsLegal(s: seq<byte>)
    requires Jt.Parse(s).Got?
    ensures var p := Jt.Parse(s).frame;
            |p.header.sim| == 6 && p.header.channel < 256 && Legal(Message(D.Parse(D.GenerateDeviceIdStr(p.header.sim, p.header.channel)), p))
  {
    Jt.SerializeOfParse(s);
  }

  // ---- The header struct in memory ----

  /** header_t, packed, little-endian, low bits first in a bit field. */
  function HeaderImage(h: Jt.Header): (s: seq<byte>)
    requires Jt.FirstFits(h)
    ensures |s| == HEADER_SIZE
  {
    FirstImage(h) + SecondImage(h)
  }

  function FirstImage(h: Jt.Header): (s: seq<byte>)
    requires Jt.FirstFits(h)
    ensures |s| == 16
  {
    ToLittle(Jt.JT_1078_HEAD_MARK, 4) + [2 + 16 * 1, h.m1 + 2 * h.pt7] + ToLittle(h.sequence, 2)
    + h.sim + [h.channel, h.dataType + 16 * h.mark]
  }

  function SecondImage(h: Jt.Header): (s: seq<byte>)
    ensures |s| == 14
  {
    ToLittle(h.timestamp, 8) + ToLittle(h.lastIFrame, 2) + ToLittle(h.lastFrame, 2) + ToLittle(h.bodyLen, 2)
  }

  /** The struct overlaid on bytes. */
  function HeaderAt(s: seq<byte>, i: nat): Jt.Header
    requires i + HEADER_SIZE <= |s|
  {
    Jt.Header(s[i + 5] % 2, s[i + 5] / 2, Host(s, i + 6, i + 8), s[i + 8..i + 14], s[i + 14], s[i + 15] % 16, s[i + 15] / 16,
              Host(s, i + 16, i + 24), Host(s, i + 24, i + 26), Host(s, i + 26, i + 28), Host(s, i + 28, i + 30))
  }

  /** The struct byte by byte, as it lies in the memory of a little-endian machine: the frame mark,
      V, P, X and CC, and then every field. */
  ghost predicate LiesAt(h: Jt.Header, s: seq<byte>, i: nat)
    requires i + 30 <= |s|
  {
    FixedAt(s, i) && FirstAt(h, s, i) && SecondAt(h, s, i)
  }

  ghost predicate FixedAt(s: seq<byte>, i: nat)
    requires i + 30 <= |s|
  {
    && s[i] == 0x64 && s[i + 1] == 0x63 && s[i + 2] == 0x31 && s[i + 3] == 0x30
    && s[i + 4] % 4 == 2 && s[i + 4] / 4 % 2 == 0 && s[i + 4] / 8 % 2 == 0 && s[i + 4] / 16 == 1
  }

  ghost predicate FirstAt(h: Jt.Header, s: seq<byte>, i: nat)
    requires i + 30 <= |s|
  {
    && s[i + 5] % 2 == h.m1 && s[i + 5] / 2 == h.pt7 && Little2(s, i + 6) == h.sequence
    && s[i + 8..i + 14] == h.sim && s[i + 14] == h.channel && s[i + 15] % 16 == h.dataType && s[i + 15] / 16 == h.mark
  }

  ghost predicate SecondAt(h: Jt.Header, s: seq<byte>, i: nat)
    requires i + 30 <= |s|
  {
    && Little8(s, i + 16) == h.timestamp
    && Little2(s, i + 24) == h.lastIFrame && Little2(s, i + 26) == h.lastFrame && Little2(s, i + 28) == h.bodyLen
  }

  lemma MarkBytes(h: Jt.Header, s: seq<byte>, i: nat)
    requires Jt.FirstFits(h) && i + 16 <= |s| && s[i..i + 16] == FirstImage(h)
    ensures s[i] == 0x64 && s[i + 1] == 0x63 && s[i + 2] == 0x31 && s[i + 3] == 0x30 && s[i + 4] == 0x12
  {
    var f := FirstImage(h);
    assert ToLittle(0x30316364, 4) == [0x64] + ToLittle(0x303163, 3);
    assert ToLittle(0x303163, 3) == [0x63] + ToLittle(0x3031, 2);
    assert ToLittle(0x3031, 2) == [0x31] + ToLittle(0x30, 1);
    assert ToLittle(0x30, 1) == [0x30];
    assert forall k :: i <= k < i + 16 ==> s[k] == f[k - i];
  }

  lemma FixedLies(h: Jt.Header, s: seq<byte>, i: nat)
    requires Jt.FirstFits(h) && i + 30 <= |s| && s[i..i + 16] == FirstImage(h)
    ensures FixedAt(s, i)
  {
    MarkBytes(h, s, i);
    var b := s[i + 4];
    assert b % 4 == 2 && b / 4 % 2 == 0 && b / 8 % 2 == 0 && b / 16 == 1;
  }

  lemma FirstLies(h: Jt.Header, s: seq<byte>, i: nat)
    requires i + 30 <= |s| && HeaderAt(s, i) == h
    ensures FirstAt(h, s, i)
  {
    HostIsLittle2(s, i + 6);
  }

  lemma SecondLies(h: Jt.Header, s: seq<byte>, i: nat)
    requires i + 30 <= |s|
    requires Host(s, i + 16, i + 24) == h.timestamp && Host(s, i + 24, i + 26) == h.lastIFrame
    requires Host(s, i + 26, i + 28) == h.lastFrame && Host(s, i + 28, i + 30) == h.bodyLen
    ensures SecondAt(h, s, i)
  {
    HostIsLittle8(s, i + 16);
    HostIsLittle2(s, i + 24);
    HostIsLittle2(s, i + 26);
    HostIsLittle2(s, i + 28);
  }

  /** A little-endian field inside an image. */
  lemma FieldBack(n: nat, width: nat, f: seq<byte>, j: nat, s: seq<byte>, i: nat)
    requires n < Pow256(width) && j + width <= |f| && f[j..j + width] == ToLittle(n, width)
    requires i + |f| <= |s| && s[i..i + |f|] == f
    ensures Host(s, i + j, i + j + width) == n
  {
    HostOfToLittle(n, width, f, j);
    assert forall k :: 0 <= k < |f| ==> f[k] == s[i + k];
    HostMoves(s, i + j, f, j, width);
  }

  lemma Halves(h: Jt.Header, s: seq<byte>, i: nat)
    requires Jt.FirstFits(h) && i + 30 <= |s| && s[i..i + 30] == HeaderImage(h)
    ensures s[i..i + 16] == FirstImage(h) && s[i + 16..i + 30] == SecondImage(h)
  {
    assert s[i..i + 16] == HeaderImage(h)[..16];
    assert s[i + 16..i + 30] == HeaderImage(h)[16..];
  }

  lemma FieldsBack(h: Jt.Header, s: seq<byte>, i: nat)
    requires Jt.FirstFits(h) && Jt.SecondFits(h)
    requires i + 30 <= |s| && s[i..i + 16] == FirstImage(h) && s[i + 16..i + 30] == SecondImage(h)
    ensures HeaderAt(s, i) == h
  {
    FirstHalf(h, s, i);
    SecondHalf(h, s, i + 16);
  }

  lemma SecondHalfLies(h: Jt.Header, s: seq<byte>, i: nat)
    requires Jt.SecondFits(h) && i + 30 <= |s| && s[i + 16..i + 30] == SecondImage(h)
    ensures SecondAt(h, s, i)
  {
    SecondHalf(h, s, i + 16);
    SecondLies(h, s, i);
  }

  lemma BytesLie(h: Jt.Header, s: seq<byte>, i: nat)
    requires Jt.FirstFits(h) && Jt.SecondFits(h)
    requires i + 30 <= |s| && s[i..i + 16] == FirstImage(h) && s[i + 16..i + 30] == SecondImage(h)
    requires HeaderAt(s, i) == h
    ensures LiesAt(h, s, i)
  {
    FixedLies(h, s, i);
    FirstLies(h, s, i);
    SecondHalfLies(h, s, i);
  }

  /** The struct that was copied is read back whole, and lies in the frame byte by byte. */
  lemma HeaderBack(h: Jt.Header, s: seq<byte>, i: nat)
    requires Jt.FirstFits(h) && Jt.SecondFits(h)
    requires i + HEADER_SIZE <= |s| && s[i..i + HEADER_SIZE] == HeaderImage(h)
    ensures HeaderAt(s, i) == h && LiesAt(h, s, i)
  {
    Halves(h, s, i);
    FieldsBack(h, s, i);
    BytesLie(h, s, i);
  }

  lemma FirstHalf(h: Jt.Header, s: seq<byte>, i: nat)
    requires Jt.FirstFits(h)
    requires i + HEADER_SIZE <= |s| && s[i..i + 16] == FirstImage(h)
    ensures var g := HeaderAt(s, i);
            g.m1 == h.m1 && g.pt7 == h.pt7 && g.sequence == h.sequence && g.sim == h.sim && g.channel == h.channel
            && g.dataType == h.dataType && g.mark == h.mark
  {
    var f := FirstImage(h);
    assert forall k :: i <= k < i + 16 ==> s[k] == f[k - i];
    assert s[i + 5] == f[5] && s[i + 14] == f[14] && s[i + 15] == f[15];
    SplitByte(h.m1, h.pt7, 2);
    SplitByte(h.dataType, h.mark, 16);
    SequenceBack(h, f, s, i);
    assert f[8..14] == h.sim;
    assert s[i + 8..i + 14] == f[8..14];
  }

  lemma SplitByte(low: nat, high: nat, weight: nat)
    requires low < weight == 2 || low < weight == 16
    ensures (low + weight * high) % weight == low && (low + weight * high) / weight == high
  {
  }

  lemma SequenceBack(h: Jt.Header, f: seq<byte>, s: seq<byte>, i: nat)
    requires Jt.FirstFits(h) && f == FirstImage(h) && i + 16 <= |s| && s[i..i + 16] == f
    ensures Host(s, i + 6, i + 8) == h.sequence
  {
    Widths();
    assert f[6..8] == ToLittle(h.sequence, 2);
    FieldBack(h.sequence, 2, f, 6, s, i);
  }

  lemma SecondHalf(h: Jt.Header, s: seq<byte>, i: nat)
    requires Jt.SecondFits(h)
    requires i + 14 <= |s| && s[i..i + 14] == SecondImage(h)
    ensures Host(s, i, i + 8) == h.timestamp && Host(s, i + 8, i + 10) == h.lastIFrame
    ensures Host(s, i + 10, i + 12) == h.lastFrame && Host(s, i + 12, i + 14) == h.bodyLen
  {
    TimestampBack(h, SecondImage(h), s, i);
    LengthsBack(h, SecondImage(h), s, i);
  }

  lemma TimestampBack(h: Jt.Header, f: seq<byte>, s: seq<byte>, i: nat)
    requires Jt.SecondFits(h) && f == SecondImage(h) && i + 14 <= |s| && s[i..i + 14] == f
    ensures Host(s, i, i + 8) == h.timestamp
  {
    Widths();
    assert f[0..8] == ToLittle(h.timestamp, 8);
    FieldBack(h.timestamp, 8, f, 0, s, i);
  }

  lemma FourParts(a: seq<byte>, b: seq<byte>, c: seq<byte>, d: seq<byte>)
    ensures var s, i, j := a + b + c + d, |a| + |b|, |a| + |b| + |c|;
            s[|a|..i] == b && s[i..j] == c && s[j..|s|] == d
  {
  }

  lemma LengthsBack(h: Jt.Header, f: seq<byte>, s: seq<byte>, i: nat)
    requires Jt.SecondFits(h) && f == SecondImage(h) && i + 14 <= |s| && s[i..i + 14] == f
    ensures Host(s, i + 8, i + 10) == h.lastIFrame
    ensures Host(s, i + 10, i + 12) == h.lastFrame && Host(s, i + 12, i + 14) == h.bodyLen
  {
    Widths();
    FourParts(ToLittle(h.timestamp, 8), ToLittle(h.lastIFrame, 2), ToLittle(h.lastFrame, 2), ToLittle(h.bodyLen, 2));
    assert f[8..10] == ToLittle(h.lastIFrame, 2);
    FieldBack(h.lastIFrame, 2, f, 8, s, i);
    assert f[10..12] == ToLittle(h.lastFrame, 2);
    FieldBack(h.lastFrame, 2, f, 10, s, i);
    assert f[12..14] == ToLittle(h.bodyLen, 2);
    FieldBack(h.bodyLen, 2, f, 12, s, i);
  }

  // ---- The payload ----

  function Payload(m: Message): seq<byte>
    requires Jt.FirstFits(m.packet.header)
  {
    ToLittle(m.device, DEVICE_SIZE) + HeaderImage(m.packet.header) + m.packet.body
  }

  /** What a receiver makes of a payload. */
  function MessageOf(data: seq<byte>): Message
    requires |data| >= DEVICE_SIZE + HEADER_SIZE
  {
    Message(Host(data, 0, 8), Jt.Packet(HeaderAt(data, 8), data[DEVICE_SIZE + HEADER_SIZE..]))
  }

  /** The same byte by byte: the device id in eight, the struct in thirty, then the body. */
  ghost predicate Tells(data: seq<byte>, m: Message) {
    |data| >= 38 && Little8(data, 0) == m.device && LiesAt(m.packet.header, data, 8) && data[38..] == m.packet.body
  }

  /** The receiver gets back the device and the whole packet, and the frame stays within what
      the receiving decoder has room for: 16 + 8 + 30 + 950 + 1 <= 1024. */
  lemma PayloadBack(m: Message)
    requires Legal(m)
    ensures |Payload(m)| == DEVICE_SIZE + HEADER_SIZE + m.packet.header.bodyLen <= 988
    ensures Ipc.HEAD_SIZE + |Payload(m)| + 1 <= 1024
    ensures MessageOf(Payload(m)) == m && Host(Payload(m), 0, 8) == m.device && Tells(Payload(m), m)
  {
    Widths();
    var s := Payload(m);
    assert s[0..8] == ToLittle(m.device, 8);
    HostOfToLittle(m.device, 8, s, 0);
    assert s[8..8 + HEADER_SIZE] == HeaderImage(m.packet.header);
    HeaderBack(m.packet.header, s, 8);
    assert s[DEVICE_SIZE + HEADER_SIZE..] == m.packet.body;
    HostIsLittle8(s, 0);
  }

  // ---- A run of messages to one subscriber ----

  /** Message number k of a connection, framed. */
  ghost function Frame(k: nat, m: Message): Ipc.Packet
    requires Legal(m)
  {
    Ipc.Packet(SeqIdAfter(k + 1), FORWARDED_TYPE, Payload(m))
  }

  ghost predicate AllLegal(ms: seq<Message>) {
    forall i :: 0 <= i < |ms| ==> Legal(ms[i])
  }

  /** Consecutive messages of a connection, number `first` on, framed. */
  ghost function FramesFrom(first: nat, ms: seq<Message>): (ps: seq<Ipc.Packet>)
    requires AllLegal(ms)
    ensures |ps| == |ms|
  {
    if ms == [] then [] else FramesFrom(first, ms[..|ms| - 1]) + [Frame(first + |ms| - 1, ms[|ms| - 1])]
  }

  /** All messages of a connection, framed. */
  ghost function Frames(ms: seq<Message>): (ps: seq<Ipc.Packet>)
    requires AllLegal(ms)
    ensures |ps| == |ms|
  {
    FramesFrom(0, ms)
  }

  lemma {:induction false} FrameAt(first: nat, ms: seq<Message>, i: nat)
    requires AllLegal(ms) && i < |ms|
    ensures FramesFrom(first, ms)[i] == Frame(first + i, ms[i])
  {
    if i < |ms| - 1 {
      FrameAt(first, ms[..|ms| - 1], i);
    }
  }

  lemma FrameOfStretch(ms: seq<Message>, i: nat, j: nat, k: nat)
    requires i + k < j <= |ms| && AllLegal(ms) && AllLegal(ms[i..j])
    ensures Frames(ms)[i + k] == FramesFrom(i, ms[i..j])[k]
  {
    FrameAt(0, ms, i + k);
    FrameAt(i, ms[i..j], k);
  }

  lemma SameStretch<T>(a: seq<T>, i: nat, j: nat, b: seq<T>)
    requires i <= j <= |a| && |b| == j - i && forall k :: 0 <= k < |b| ==> a[i + k] == b[k]
    ensures a[i..j] == b
  {
  }

  /** A stretch of the frames is the frames of a stretch of the messages. */
  lemma FramesStretch(ms: seq<Message>, i: nat, j: nat)
    requires AllLegal(ms) && i <= j <= |ms|
    ensures AllLegal(ms[i..j]) && Frames(ms)[i..j] == FramesFrom(i, ms[i..j])
  {
    forall k | 0 <= k < j - i ensures Frames(ms)[i + k] == FramesFrom(i, ms[i..j])[k] {
      FrameOfStretch(ms, i, j, k);
    }
    SameStretch(Frames(ms), i, j, FramesFrom(i, ms[i..j]));
  }

  lemma FrameFits(k: nat, m: Message)
    requires Legal(m)
    ensures Ipc.WellFormed(Frame(k, m)) && |Frame(k, m).data| <= 988
    ensures Frame(k, m).seqId == k % 0x1_0000_0000 && Frame(k, m).pktType == 0x1_0004
  {
    PayloadBack(m);
    SeqIdIsCount(k);
  }

  lemma FramesFit(ms: seq<Message>)
    requires AllLegal(ms)
    ensures forall p :: p in Frames(ms) ==> Ipc.WellFormed(p) && |p.data| <= 988
  {
    forall i | 0 <= i < |ms| ensures Ipc.WellFormed(Frames(ms)[i]) && |Frames(ms)[i].data| <= 988 {
      FrameAt(0, ms, i);
      FrameFits(i, ms[i]);
    }
  }

  /** What a receiver makes of the k-th frame of a connection is message `m`. */
  ghost predicate Recovers(p: Ipc.Packet, k: nat, m: Message) {
    && DEVICE_SIZE + HEADER_SIZE <= |p.data| <= 988 && MessageOf(p.data) == m && Tells(p.data, m)
    && p.seqId == k % 0x1_0000_0000 && p.pktType == 0x1_0004
  }

  ghost predicate AllRecovered(ps: seq<Ipc.Packet>, ms: seq<Message>) {
    |ps| == |ms| && forall i :: 0 <= i < |ms| ==> Recovers(ps[i], i, ms[i])
  }

  lemma FrameRecovers(k: nat, m: Message)
    requires Legal(m)
    ensures Recovers(Frame(k, m), k, m)
  {
    FrameFits(k, m);
    PayloadBack(m);
  }

  lemma FramesRecover(ms: seq<Message>)
    requires AllLegal(ms)
    ensures AllRecovered(Frames(ms), ms)
  {
    forall i | 0 <= i < |ms| ensures Recovers(Frames(ms)[i], i, ms[i]) {
      FrameAt(0, ms, i);
      FrameRecovers(i, ms[i]);
    }
  }

  /** IPC round trip. Any messages, framed one after another, are read back by any receiver as
      the same payloads, device ids and types in order; the k-th carries k mod 2^32; and no
      frame announces more than the receiving decoder has room for. */
  lemma RoundTrip(ms: seq<Message>)
    requires AllLegal(ms)
    ensures var read := Ipc.ReadAll(Flatten(Ipc.Images(Frames(ms))));
            AllRecovered(read.frames, ms) && read.rest == [] && !read.bad
    ensures Ipc.AnnouncesAtMost(Flatten(Ipc.Images(Frames(ms))), 1007)
  {
    FramesFit(ms);
    FramesRecover(ms);
    Ipc.ReadAllImages(Frames(ms));
    Ipc.ImagesAnnounce(Frames(ms), 1007);
  }

  /** A subscriber: its connection and its frame counter. */
  datatype Sub = Sub(sock: Sock, lastSeqId: nat)

  /** What a channel does with each member. */
  ghost function Deliver(s: Sub, payload: seq<byte>): Sub {
    if s.sock.canWrite
    then Sub(SendFrame(s.sock, Ipc.Image(Ipc.Packet(NextSeqId(s.lastSeqId), FORWARDED_TYPE, payload))), NextSeqId(s.lastSeqId))
    else s
  }

  ghost function DeliverAll(s: Sub, ms: seq<Message>): Sub
    requires AllLegal(ms)
  {
    if ms == [] then s else Deliver(DeliverAll(s, ms[..|ms| - 1]), Payload(ms[|ms| - 1]))
  }

  /** On a fresh connection the counter numbers the frames, as long as it is writable. */
  lemma {:induction false} DeliverAllOffers(k: Sock, ms: seq<Message>)
    requires AllLegal(ms) && k.pending == []
    ensures var s := DeliverAll(Sub(k, 0xffff_ffff), ms);
            && s.sock == OfferAll(k, Ipc.Images(Frames(ms)))
            && (s.sock.canWrite ==> s.lastSeqId == SeqIdAfter(|ms|) && k.canWrite)
  {
    if ms == [] {
      assert Ipc.Images(Frames(ms)) == [];
    } else {
      var n := |ms| - 1;
      DeliverAllOffers(k, ms[..n]);
      Ipc.ImagesSnoc(Frames(ms[..n]), Frame(n, ms[n]));
      var before := DeliverAll(Sub(k, 0xffff_ffff), ms[..n]);
      OfferOneMore(k, Frames(ms[..n]), Frame(n, ms[n]));
      if before.sock.canWrite {
        FlushConserves(before.sock);
      }
    }
  }

  lemma OfferOneMore(k: Sock, packets: seq<Ipc.Packet>, p: Ipc.Packet)
    ensures OfferAll(k, Ipc.Images(packets + [p])) == Offer(OfferAll(k, Ipc.Images(packets)), Ipc.Image(p))
  {
    Ipc.ImagesSnoc(packets, p);
    var images := Ipc.Images(packets);
    assert (images + [Ipc.Image(p)])[..|images|] == images;
  }

  /** The connection carries these packets: at every moment the bytes on the wire are a prefix
      of theirs and decode to the first so-many of them, whole and in order, plus at most a cut
      one, and nothing is refused; while it lasts, wire and unsent bytes together are exactly
      all of them. */
  ghost predicate Carries(k: Sock, ps: seq<Ipc.Packet>) {
    && k.wire <= Flatten(Ipc.Images(ps))
    && Ipc.ReadAll(k.wire).frames <= ps && !Ipc.ReadAll(k.wire).bad
    && (k.canWrite ==> Stream(k) == Flatten(Ipc.Images(ps)))
  }

  /** Offering packets to a fresh connection, however its kernel answers. */
  lemma OfferedIsCarried(k: Sock, ps: seq<Ipc.Packet>, bound: nat)
    requires k.pending == [] && k.wire == []
    requires forall p :: p in ps ==> Ipc.WellFormed(p) && |p.data| <= bound
    ensures Carries(OfferAll(k, Ipc.Images(ps)), ps)
    ensures Ipc.AnnouncesAtMost(OfferAll(k, Ipc.Images(ps)).wire, bound)
  {
    var images := Ipc.Images(ps);
    assert forall i :: 0 <= i < |images| ==> |images[i]| >= 16;
    WireIsPrefix(k, images);
    Ipc.ReadCut(ps, OfferAll(k, images).wire, bound);
    RunConserves(k, images);
    assert images[..|images|] == images;
  }

  /** So a subscriber's connection carries the messages, numbered from zero. */
  lemma SubscriberReceives(k: Sock, ms: seq<Message>)
    requires AllLegal(ms) && k.pending == [] && k.wire == []
    ensures Carries(DeliverAll(Sub(k, 0xffff_ffff), ms).sock, Frames(ms))
    ensures Ipc.AnnouncesAtMost(DeliverAll(Sub(k, 0xffff_ffff), ms).sock.wire, 1007)
  {
    DeliverAllOffers(k, ms);
    FramesFit(ms);
    OfferedIsCarried(k, Frames(ms), 1007);
  }
}
