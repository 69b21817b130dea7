/** The servers composed, from the messages a forwarding server delivers to the bytes on a
    viewer's wire: its connection to the viewer server, sent in whatever pieces the kernel takes
    and read in whatever pieces arrive, lost and made anew any number of times; the drain loop
    that hands packets on; and the viewers joining, switching and leaving meanwhile
    (jt1078/forward_server/Subscriber.cpp, jt1078_client/Jt1078Client.cpp, pc_server/PcServer.cpp). */
module EndToEnd {
  import opened Buffers
  import opened Bytes
  import opened Ids
  import opened Subscribers
  import opened TcpSessions
  import Decoder = IpcDecoder
  import Framing
  import Ipc = IpcPacket
  import PcModel
  import Relay

  /** The forwarding server's end of a connection: how it started, the subscriber as it stands,
      and the messages delivered to it with their frames. */
  datatype Source = Source(start: Sock, sub: Sub, ms: seq<Message>, frames: seq<Ipc.Packet>)

  /** A connection between the servers: the sending end, how many bytes of its wire have been
      read, the bytes of those that wait for the rest of their packet, and how many packets have
      been handed on. */
  datatype Epoch = Epoch(source: Source, read: nat, held: seq<byte>, seen: nat)

  /** `link` is the present connection, if there is one. */
  datatype Chain = Chain(viewers: Relay.State, link: Epoch)

  datatype Happening =
    | AtViewers(event: Relay.Event)
    | LinkUp(kernel: Kernel)
    | Delivers(message: Message)
    | Reads(n: nat, after: seq<byte>)

  function NewEpoch(kernel: Kernel): Epoch {
    var start := Sock(kernel, 0, true, [], []);
    Epoch(Source(start, Sub(start, 0xffff_ffff), [], []), 0, [], 0)
  }

  /** A read takes some of the bytes that have arrived, at most five kilobytes; behind a payload
      the packet buffer holds `after`. */
  ghost predicate Enabled(s: Chain, e: Happening) {
    match e
    case AtViewers(event) => Relay.Enabled(s.viewers, event) && !event.Arrives? && !(event.Dialled? && event.ok)
    case LinkUp(_) => s.viewers.pc.link.Connecting?
    case Delivers(message) => s.viewers.pc.link.Up? && Legal(message)
    case Reads(n, after) =>
      s.viewers.pc.link.Up? && n <= MAX_SIZE_ONCE_READ && s.link.read + n <= |s.link.source.sub.sock.wire| && |after| >= 8
  }

  /** What the drain loop makes of the next `n` bytes behind those that wait. */
  ghost function Taken(held: seq<byte>, wire: seq<byte>, read: nat, n: nat): Framing.Drained<Ipc.Packet>
    requires read + n <= |wire|
  {
    Ipc.ReadAll(held + wire[read..read + n])
  }

  /** The packets of one read, handed on one after another. */
  ghost function Feed(s: Relay.State, packets: seq<Ipc.Packet>, after: seq<byte>): Relay.State
    requires |after| >= 8
  {
    if packets == [] then s
    else Relay.Forward(Feed(s, packets[..|packets| - 1], after), packets[|packets| - 1], after)
  }

  /** `n` bytes on, `more` packets on, with `rest` waiting. */
  ghost function AfterRead(link: Epoch, n: nat, more: nat, rest: seq<byte>): Epoch {
    Epoch(link.source, link.read + n, rest, link.seen + more)
  }

  ghost function AfterDelivery(src: Source, m: Message): Source
    requires Legal(m)
  {
    Source(src.start, Deliver(src.sub, Payload(m)), src.ms + [m], src.frames + [Frame(|src.ms|, m)])
  }

  /** A refused header is an error of the connection, found after the packets before it. */
  ghost function Step(kernels: Relay.Kernels, s: Chain, e: Happening): Chain
    requires Enabled(s, e)
  {
    match e
    case AtViewers(event) => s.(viewers := Relay.Step(kernels, s.viewers, event))
    case LinkUp(kernel) => Chain(Relay.Step(kernels, s.viewers, Relay.Dialled(true)), NewEpoch(kernel))
    case Delivers(m) => s.(link := s.link.(source := AfterDelivery(s.link.source, m)))
    case Reads(n, after) =>
      var taken := Taken(s.link.held, s.link.source.sub.sock.wire, s.link.read, n);
      var fed := Feed(s.viewers, taken.frames, after);
      Chain(if taken.bad then fed.(pc := PcModel.ClientError(fed.pc)) else fed, AfterRead(s.link, n, |taken.frames|, taken.rest))
  }

  ghost predicate Possible(kernels: Relay.Kernels, run: seq<Happening>)
    decreases |run|, 0
  {
    run == [] || var n := |run| - 1; Possible(kernels, run[..n]) && Enabled(Run(kernels, run[..n]), run[n])
  }

  ghost function Run(kernels: Relay.Kernels, run: seq<Happening>): Chain
    requires Possible(kernels, run)
    decreases |run|, 1
  {
    if run == [] then Chain(Relay.State(PcModel.START, map[]), NewEpoch(_ => WouldBlock))
    else Step(kernels, Run(kernels, run[..|run| - 1]), run[|run| - 1])
  }

  // ---- The invariant of a connection ----

  /** The subscriber has been delivered exactly these messages since the connection came up. */
  ghost predicate Filled(src: Source) {
    && AllLegal(src.ms) && src.frames == Frames(src.ms) && src.start.pending == [] && src.start.wire == []
    && src.sub == DeliverAll(Sub(src.start, 0xffff_ffff), src.ms)
  }

  /** What has been read, of the bytes on the wire, is the first `seen` of the frames and the
      bytes that wait; nothing was refused. */
  ghost predicate ReadSoFar(link: Epoch) {
    ReadAs(link.source.frames, link.source.sub.sock.wire, link.read, link.seen, link.held)
  }

  /** The first `i` bytes of the wire are the first `seen` of these packets and the bytes held. */
  ghost predicate ReadAs(ps: seq<Ipc.Packet>, wire: seq<byte>, i: nat, seen: nat, held: seq<byte>) {
    i <= |wire| && seen <= |ps| && Ipc.ReadAll(wire[..i]) == Framing.Drained(ps[..seen], held, false)
  }

  /** The wire reads as a prefix of these packets. */
  ghost predicate Sound(ps: seq<Ipc.Packet>, wire: seq<byte>) {
    Ipc.ReadAll(wire).frames <= ps && !Ipc.ReadAll(wire).bad
  }

  /** These are the next of the packets. */
  ghost predicate AreNext(ps: seq<Ipc.Packet>, seen: nat, taken: Framing.Drained<Ipc.Packet>) {
    !taken.bad && seen + |taken.frames| <= |ps| && taken.frames == ps[seen..seen + |taken.frames|]
  }

  ghost predicate InStep(link: Epoch) { Filled(link.source) && ReadSoFar(link) }

  ghost predicate Inv(s: Chain) {
    Relay.Inv(s.viewers) && (s.viewers.pc.link.Up? ==> InStep(s.link))
  }

  lemma NewEpochInStep(kernel: Kernel)
    ensures InStep(NewEpoch(kernel))
  {
    var link := NewEpoch(kernel);
    assert link.source.sub.sock.wire[..0] == [] && link.source.frames[..0] == [];
  }

  /** Delivering only ever adds to the wire. */
  lemma DeliverExtends(s: Sub, payload: seq<byte>)
    ensures s.sock.wire <= Deliver(s, payload).sock.wire
  {
    FlushConserves(s.sock);
  }

  lemma DeliveryFills(src: Source, m: Message)
    requires Filled(src) && Legal(m)
    ensures Filled(AfterDelivery(src, m))
  {
    assert (src.ms + [m])[..|src.ms|] == src.ms;
  }

  lemma DeliversInStep(link: Epoch, m: Message)
    requires InStep(link) && Legal(m)
    ensures InStep(link.(source := AfterDelivery(link.source, m)))
  {
    var src, after := link.source, AfterDelivery(link.source, m);
    DeliveryFills(src, m);
    DeliverExtends(src.sub, Payload(m));
    assert after.sub.sock.wire[..link.read] == src.sub.sock.wire[..link.read];
    assert after.frames[..link.seen] == src.frames[..link.seen];
  }

  /** Reading on from where a drain left off: the next packets are the next of those the wire
      is a prefix of. */
  lemma ReadOnward(ps: seq<Ipc.Packet>, wire: seq<byte>, read: nat, n: nat, seen: nat, held: seq<byte>)
    requires read + n <= |wire| && ReadAs(ps, wire, read, seen, held) && Sound(ps, wire)
    ensures AreNext(ps, seen, Taken(held, wire, read, n))
  {
    Ipc.ParseIsIncremental();
    Framing.NextOfStream(Ipc.Parse, ps, wire, read, n, seen);
  }

  /** What waits afterwards is what belongs to none of them. */
  lemma RestOnward(ps: seq<Ipc.Packet>, wire: seq<byte>, read: nat, n: nat, seen: nat, held: seq<byte>)
    requires read + n <= |wire| && ReadAs(ps, wire, read, seen, held) && Sound(ps, wire)
    ensures var taken := Taken(held, wire, read, n);
            ReadAs(ps, wire, read + n, seen + |taken.frames|, taken.rest)
  {
    Ipc.ParseIsIncremental();
    Framing.RestOfStream(Ipc.Parse, ps, wire, read, n, seen);
  }

  lemma FilledIsSound(src: Source)
    requires Filled(src)
    ensures Sound(src.frames, src.sub.sock.wire)
  {
    SubscriberReceives(src.start, src.ms);
  }

  /** A read yields exactly the next frames of the messages delivered, and is never refused. */
  lemma ReadsNext(link: Epoch, n: nat)
    requires InStep(link) && link.read + n <= |link.source.sub.sock.wire|
    ensures AreNext(link.source.frames, link.seen, Taken(link.held, link.source.sub.sock.wire, link.read, n))
  {
    var ps, wire := link.source.frames, link.source.sub.sock.wire;
    assert Sound(ps, wire) by { FilledIsSound(link.source); }
    ReadOnward(ps, wire, link.read, n, link.seen, link.held);
  }

  lemma ReadsOn(link: Epoch, n: nat)
    requires ReadSoFar(link) && Sound(link.source.frames, link.source.sub.sock.wire)
    requires link.read + n <= |link.source.sub.sock.wire|
    ensures var taken := Taken(link.held, link.source.sub.sock.wire, link.read, n);
            ReadAs(link.source.frames, link.source.sub.sock.wire, link.read + n, link.seen + |taken.frames|, taken.rest)
  {
    RestOnward(link.source.frames, link.source.sub.sock.wire, link.read, n, link.seen, link.held);
  }

  lemma ReadsSoFar(link: Epoch, n: nat, more: nat, rest: seq<byte>)
    requires ReadAs(link.source.frames, link.source.sub.sock.wire, link.read + n, link.seen + more, rest)
    ensures ReadSoFar(AfterRead(link, n, more, rest))
  {
  }

  /** What waits after it is what belongs to no frame handed on so far. */
  lemma ReadsInStep(link: Epoch, n: nat)
    requires InStep(link) && link.read + n <= |link.source.sub.sock.wire|
    ensures var taken := Taken(link.held, link.source.sub.sock.wire, link.read, n);
            InStep(AfterRead(link, n, |taken.frames|, taken.rest))
  {
    var taken := Taken(link.held, link.source.sub.sock.wire, link.read, n);
    assert ReadSoFar(AfterRead(link, n, |taken.frames|, taken.rest)) by {
      FilledIsSound(link.source);
      ReadsOn(link, n);
      ReadsSoFar(link, n, |taken.frames|, taken.rest);
    }
  }

  // ---- What a viewer hears, told by the messages ----

  /** These messages, number `i` on of a connection, each framed and published to the channel of
      its own device. */
  ghost function Relayed(s: Relay.State, i: nat, ms: seq<Message>): Relay.State
    requires AllLegal(ms)
  {
    if ms == [] then s
    else
      var n := |ms| - 1;
      Relay.ForwardTo(Relayed(s, i, ms[..n]), ms[n].device, Frame(i + n, ms[n]))
  }

  /** The frames among them that come while the viewer is in the channel of the message's
      device, in order. */
  ghost function Selected(s: Relay.State, i: nat, ms: seq<Message>, sid: Sid): seq<Ipc.Packet>
    requires AllLegal(ms)
  {
    if ms == [] then []
    else
      var n := |ms| - 1;
      var before := Selected(s, i, ms[..n], sid);
      if sid in Relay.Members(Relayed(s, i, ms[..n]), ms[n].device) then before + [Frame(i + n, ms[n])] else before
  }

  /** How many frames a read completes. */
  ghost function Completes(link: Epoch, n: nat): (k: nat)
    requires InStep(link) && link.read + n <= |link.source.sub.sock.wire|
    ensures link.seen + k <= |link.source.ms|
  {
    ReadsNext(link, n);
    |Taken(link.held, link.source.sub.sock.wire, link.read, n).frames|
  }

  /** The messages number `i` to `i + k` of a connection. */
  ghost function Stretch(ms: seq<Message>, i: nat, k: nat): (some: seq<Message>)
    requires AllLegal(ms) && i + k <= |ms|
    ensures AllLegal(some)
  {
    ms[i..i + k]
  }

  /** All a viewer hears over a run: connection by connection, read by read, the selection from
      the messages completed. */
  ghost function Heard(kernels: Relay.Kernels, run: seq<Happening>, sid: Sid): seq<Ipc.Packet>
    requires Possible(kernels, run)
  {
    if run == [] then []
    else
      var n := |run| - 1;
      var before, s := Heard(kernels, run[..n], sid), Run(kernels, run[..n]);
      RunKeeps(kernels, run[..n]);
      match run[n]
      case Reads(size, _) =>
        before + Selected(s.viewers, s.link.seen, Stretch(s.link.source.ms, s.link.seen, Completes(s.link, size)), sid)
      case _ => before
  }

  // ---- Reading hands on exactly the messages ----

  lemma FrameForwards(s: Relay.State, k: nat, m: Message, after: seq<byte>)
    requires Legal(m) && |after| >= 8
    ensures Relay.Forward(s, Frame(k, m), after) == Relay.ForwardTo(s, m.device, Frame(k, m))
  {
    FrameFits(k, m);
    PayloadBack(m);
    Relay.DeviceOf(Frame(k, m), k, m);
  }

  lemma {:induction false} FeedIsRelayed(s: Relay.State, i: nat, ms: seq<Message>, after: seq<byte>)
    requires AllLegal(ms) && |after| >= 8
    ensures Feed(s, FramesFrom(i, ms), after) == Relayed(s, i, ms)
  {
    if ms != [] {
      var n := |ms| - 1;
      FeedIsRelayed(s, i, ms[..n], after);
      FrameForwards(Relayed(s, i, ms[..n]), i + n, ms[n], after);
      FeedOneMore(s, FramesFrom(i, ms[..n]), Frame(i + n, ms[n]), after);
    }
  }

  lemma FeedOneMore(s: Relay.State, packets: seq<Ipc.Packet>, p: Ipc.Packet, after: seq<byte>)
    requires |after| >= 8
    ensures Feed(s, packets + [p], after) == Relay.Forward(Feed(s, packets, after), p, after)
  {
    assert (packets + [p])[..|packets|] == packets;
  }

  lemma StretchFrames(ms: seq<Message>, i: nat, frames: seq<Ipc.Packet>)
    requires AllLegal(ms) && i + |frames| <= |ms| && frames == Frames(ms)[i..i + |frames|]
    ensures frames == FramesFrom(i, Stretch(ms, i, |frames|))
  {
    FramesStretch(ms, i, i + |frames|);
  }

  lemma FeedStretch(s: Relay.State, ms: seq<Message>, i: nat, frames: seq<Ipc.Packet>, after: seq<byte>)
    requires AllLegal(ms) && i + |frames| <= |ms| && frames == Frames(ms)[i..i + |frames|] && |after| >= 8
    ensures Feed(s, frames, after) == Relayed(s, i, Stretch(ms, i, |frames|))
  {
    StretchFrames(ms, i, frames);
    FeedIsRelayed(s, i, Stretch(ms, i, |frames|), after);
  }

  lemma {:induction false} RelayedKeeps(s: Relay.State, i: nat, ms: seq<Message>)
    requires Relay.Inv(s) && AllLegal(ms)
    ensures Relay.Inv(Relayed(s, i, ms)) && Relayed(s, i, ms).pc.link == s.pc.link
  {
    if ms != [] {
      var n := |ms| - 1;
      RelayedKeeps(s, i, ms[..n]);
      Relay.ForwardToKeeps(Relayed(s, i, ms[..n]), ms[n].device, Frame(i + n, ms[n]));
    }
  }

  lemma OneMoreHeard(heard: seq<Ipc.Packet>, before: seq<Ipc.Packet>, p: Ipc.Packet, hit: bool)
    ensures heard + (if hit then before + [p] else before) == if hit then heard + before + [p] else heard + before
  {
  }

  lemma {:induction false} RelayedOffers(kernels: Relay.Kernels, s: Relay.State, i: nat, ms: seq<Message>, sid: Sid,
                                         heard: seq<Ipc.Packet>)
    requires Relay.Inv(s) && AllLegal(ms) && Relay.Offered(kernels, s, sid, heard)
    ensures Relay.Offered(kernels, Relayed(s, i, ms), sid, heard + Selected(s, i, ms, sid))
  {
    if ms == [] {
      assert heard + [] == heard;
    } else {
      var n := |ms| - 1;
      RelayedOffers(kernels, s, i, ms[..n], sid, heard);
      RelayedKeeps(s, i, ms[..n]);
      var so, before, p := Relayed(s, i, ms[..n]), Selected(s, i, ms[..n], sid), Frame(i + n, ms[n]);
      Relay.ForwardToOffers(kernels, so, ms[n].device, p, sid, heard + before);
      OneMoreHeard(heard, before, p, sid in Relay.Members(so, ms[n].device));
    }
  }

  // ---- Over every run ----

  /** A read that is not refused hands on the frames it completes. */
  lemma ReadRelays(kernels: Relay.Kernels, s: Chain, n: nat, after: seq<byte>)
    requires Inv(s) && Enabled(s, Reads(n, after))
    ensures var taken := Taken(s.link.held, s.link.source.sub.sock.wire, s.link.read, n);
            && !taken.bad && s.link.seen + |taken.frames| <= |s.link.source.ms|
            && Step(kernels, s, Reads(n, after)) ==
                 Chain(Relayed(s.viewers, s.link.seen, Stretch(s.link.source.ms, s.link.seen, |taken.frames|)),
                     AfterRead(s.link, n, |taken.frames|, taken.rest))
  {
    ReadsNext(s.link, n);
    var taken := Taken(s.link.held, s.link.source.sub.sock.wire, s.link.read, n);
    FeedStretch(s.viewers, s.link.source.ms, s.link.seen, taken.frames, after);
  }

  lemma ReadKeeps(kernels: Relay.Kernels, s: Chain, n: nat, after: seq<byte>)
    requires Inv(s) && Enabled(s, Reads(n, after))
    ensures Inv(Step(kernels, s, Reads(n, after)))
  {
    ReadRelays(kernels, s, n, after);
    ReadsInStep(s.link, n);
    RelayedKeeps(s.viewers, s.link.seen, Stretch(s.link.source.ms, s.link.seen, Completes(s.link, n)));
  }

  /** Nothing the viewers do brings a connection up. */
  lemma ViewersDoNotConnect(kernels: Relay.Kernels, s: Chain, event: Relay.Event)
    requires Enabled(s, AtViewers(event))
    ensures Relay.Step(kernels, s.viewers, event).pc.link.Up? ==> s.viewers.pc.link.Up?
  {
    match event
    case Sends(sid, pktType, data) => PcModel.ViewerPacketExtends(s.viewers.pc, sid, pktType, data);
    case Fails(sid) => PcModel.UnsubscribeExtends(s.viewers.pc, sid);
    case _ =>
  }

  lemma ViewersKeep(kernels: Relay.Kernels, s: Chain, event: Relay.Event)
    requires Inv(s) && Enabled(s, AtViewers(event))
    ensures Inv(Step(kernels, s, AtViewers(event)))
  {
    Relay.StepKeeps(kernels, s.viewers, event);
    ViewersDoNotConnect(kernels, s, event);
  }

  lemma LinkUpKeeps(kernels: Relay.Kernels, s: Chain, kernel: Kernel)
    requires Relay.Inv(s.viewers) && Enabled(s, LinkUp(kernel))
    ensures Inv(Step(kernels, s, LinkUp(kernel)))
  {
    Relay.StepKeeps(kernels, s.viewers, Relay.Dialled(true));
    NewEpochInStep(kernel);
  }

  lemma {:induction false} RunKeeps(kernels: Relay.Kernels, run: seq<Happening>)
    requires Possible(kernels, run)
    ensures Inv(Run(kernels, run))
  {
    if run != [] {
      var n := |run| - 1;
      var s := Run(kernels, run[..n]);
      RunKeeps(kernels, run[..n]);
      match run[n]
      case AtViewers(event) => ViewersKeep(kernels, s, event);
      case LinkUp(kernel) => LinkUpKeeps(kernels, s, kernel);
      case Delivers(m) => DeliversInStep(s.link, m);
      case Reads(k, after) => ReadKeeps(kernels, s, k, after);
    }
  }

  lemma {:induction false} OfferedOverRun(kernels: Relay.Kernels, run: seq<Happening>, sid: Sid)
    requires Possible(kernels, run)
    ensures Relay.Offered(kernels, Run(kernels, run).viewers, sid, Heard(kernels, run, sid))
  {
    if run != [] {
      var n := |run| - 1;
      var s, heard := Run(kernels, run[..n]), Heard(kernels, run[..n], sid);
      OfferedOverRun(kernels, run[..n], sid);
      RunKeeps(kernels, run[..n]);
      match run[n]
      case Reads(k, after) =>
        ReadRelays(kernels, s, k, after);
        RelayedOffers(kernels, s.viewers, s.link.seen, Stretch(s.link.source.ms, s.link.seen, Completes(s.link, k)), sid, heard);
      case AtViewers(event) => Relay.OthersOfferNothing(kernels, s.viewers, event, sid, heard);
      case LinkUp(_) => Relay.OthersOfferNothing(kernels, s.viewers, Relay.Dialled(true), sid, heard);
      case Delivers(_) =>
    }
  }

  ghost predicate AllFit(packets: seq<Ipc.Packet>) {
    forall p :: p in packets ==> Ipc.WellFormed(p) && |p.data| <= 988
  }

  lemma {:induction false} SelectedFits(s: Relay.State, i: nat, ms: seq<Message>, sid: Sid)
    requires AllLegal(ms)
    ensures AllFit(Selected(s, i, ms, sid))
  {
    if ms != [] {
      var n := |ms| - 1;
      SelectedFits(s, i, ms[..n], sid);
      FrameFits(i + n, ms[n]);
    }
  }

  lemma {:induction false} HeardFits(kernels: Relay.Kernels, run: seq<Happening>, sid: Sid)
    requires Possible(kernels, run)
    ensures AllFit(Heard(kernels, run, sid))
  {
    if run != [] {
      var n := |run| - 1;
      HeardFits(kernels, run[..n], sid);
      var s := Run(kernels, run[..n]);
      RunKeeps(kernels, run[..n]);
      if run[n].Reads? {
        SelectedFits(s.viewers, s.link.seen, Stretch(s.link.source.ms, s.link.seen, Completes(s.link, run[n].n)), sid);
      }
    }
  }

  /** End to end, over every run, through any number of connections between the servers and
      however all the kernels answer and the bytes are cut: each viewer's connection carries,
      whole, unchanged and in order, exactly the frames of the messages whose last byte was read
      while that viewer was in the channel of the message's device. */
  lemma ViewerGets(kernels: Relay.Kernels, run: seq<Happening>, sid: Sid)
    requires Possible(kernels, run) && sid in Run(kernels, run).viewers.socks
    ensures Carries(Run(kernels, run).viewers.socks[sid], Heard(kernels, run, sid))
  {
    OfferedOverRun(kernels, run, sid);
    HeardFits(kernels, run, sid);
    OfferedIsCarried(Relay.Fresh(kernels, sid), Heard(kernels, run, sid), 988);
  }

  /** Nothing is withheld either: once every byte on the wire has been read, and none waits to
      be sent, every message delivered to the connection has been handed on. */
  lemma NothingWithheld(kernels: Relay.Kernels, run: seq<Happening>)
    requires Possible(kernels, run) && Run(kernels, run).viewers.pc.link.Up?
    requires var link := Run(kernels, run).link;
             link.read == |link.source.sub.sock.wire| && link.source.sub.sock.pending == [] && link.source.sub.sock.canWrite
    ensures Run(kernels, run).link.seen == |Run(kernels, run).link.source.ms| && Run(kernels, run).link.held == []
  {
    RunKeeps(kernels, run);
    var link := Run(kernels, run).link;
    SubscriberReceives(link.source.start, link.source.ms);
    FramesFit(link.source.ms);
    Ipc.ReadAllImages(link.source.frames);
    assert link.source.sub.sock.wire[..link.read] == link.source.sub.sock.wire;
    assert Stream(link.source.sub.sock) == link.source.sub.sock.wire + [] == link.source.sub.sock.wire;
  }

  lemma StreamHeldIsShort(wire: seq<byte>, i: nat, bound: nat)
    requires i <= |wire| && Ipc.AnnouncesAtMost(wire, bound) && !Ipc.ReadAll(wire[..i]).bad
    ensures var rest := Ipc.ReadAll(wire[..i]).rest; Ipc.AnnouncesAtMost(rest, bound) && |rest| < Ipc.HEAD_SIZE + bound
  {
    assert wire == wire[..i] + wire[i..];
    Ipc.AnnouncedBefore(wire[..i], wire[i..], bound);
    Ipc.RestIsShort(wire[..i], bound);
  }

  lemma HeldIsShort(link: Epoch)
    requires InStep(link)
    ensures |link.held| < Ipc.HEAD_SIZE + 1007
  {
    SubscriberReceives(link.source.start, link.source.ms);
    StreamHeldIsShort(link.source.sub.sock.wire, link.read, 1007);
  }

  lemma NextAreShort(ms: seq<Message>, seen: nat, taken: Framing.Drained<Ipc.Packet>)
    requires AllLegal(ms) && AreNext(Frames(ms), seen, taken)
    ensures !Decoder.TooLong(taken.frames)
  {
    FramesFit(ms);
    forall p | p in taken.frames ensures |p.data| <= 988 {
      assert p in Frames(ms);
    }
  }

  lemma ReadIsShort(link: Epoch, n: nat)
    requires InStep(link) && link.read + n <= |link.source.sub.sock.wire|
    ensures !Decoder.TooLong(Taken(link.held, link.source.sub.sock.wire, link.read, n).frames)
  {
    ReadsNext(link, n);
    NextAreShort(link.source.ms, link.seen, Taken(link.held, link.source.sub.sock.wire, link.read, n));
  }

  /** Between reads less than one frame waits, so the next read always fits the decoder's read
      buffer. */
  lemma ReadsFit(kernels: Relay.Kernels, run: seq<Happening>, next: seq<byte>)
    requires Possible(kernels, run) && Run(kernels, run).viewers.pc.link.Up? && |next| <= MAX_SIZE_ONCE_READ
    ensures Decoder.Accepted(Run(kernels, run).link.held, next) == next
  {
    RunKeeps(kernels, run);
    HeldIsShort(Run(kernels, run).link);
  }

  /** And no packet a read completes is too long for the packet buffer, so what the decoder
      hands on is what is said here. */
  lemma ReadsAreShort(kernels: Relay.Kernels, run: seq<Happening>, n: nat)
    requires Possible(kernels, run) && Run(kernels, run).viewers.pc.link.Up?
    requires Run(kernels, run).link.read + n <= |Run(kernels, run).link.source.sub.sock.wire|
    ensures var link := Run(kernels, run).link;
            !Decoder.TooLong(Taken(link.held, link.source.sub.sock.wire, link.read, n).frames)
  {
    RunKeeps(kernels, run);
    ReadIsShort(Run(kernels, run).link, n);
  }
}
