/** What a viewer gets, end to end: frames leave the forwarding server on a subscriber
    connection, are read by the viewer server in whatever pieces they arrive, and go out to the
    viewers of their device as long as those are in its channel
    (pc_server/PcServer.cpp, pc_server/PcPublisher.cpp, pc_server/PcSession.cpp). */
module Relay {
  import opened Bytes
  import opened Ids
  import opened IpcPktType
  import opened TcpSessions
  import Ipc = IpcPacket
  import PcModel
  import Subs = Subscribers
  import Tables

  /** The viewer server and its viewers' connections; a connection stays on record after its
      session is gone. */
  datatype State = State(pc: PcModel.PcState, socks: map<Sid, Sock>)

  datatype Event =
    | Connects(sid: Sid)
    | Sends(sid: Sid, pktType: nat, data: string)
    | Fails(sid: Sid)
    | Dials(ok: bool)
    | Dialled(ok: bool)
    | Lost
    | Beats
    | Arrives(packet: Ipc.Packet, after: seq<byte>)

  /** How each connection's kernel will answer. */
  type Kernels = Sid -> Kernel

  function Fresh(kernels: Kernels, sid: Sid): Sock { Sock(kernels(sid), 0, true, [], []) }

  ghost predicate Enabled(s: State, e: Event) {
    match e
    case Connects(sid) => sid !in s.socks
    case Sends(sid, _, _) => sid in s.pc.viewers
    case Fails(sid) => sid in s.pc.viewers
    case Arrives(packet, after) => Ipc.WellFormed(packet) && |packet.data| + |after| >= 8
    case _ => true
  }

  /** The members of a device's channel. */
  ghost function Members(s: State, d: Device): set<Sid> {
    if d in s.pc.channels then s.pc.channels[d] else {}
  }

  /** A frame is offered to the members of a channel, and those that turn out unwritable are
      dropped from it. */
  ghost function ForwardTo(s: State, d: Device, packet: Ipc.Packet): State {
    var socks := map sid | sid in s.socks :: if sid in Members(s, d) then Offer(s.socks[sid], Ipc.Image(packet)) else s.socks[sid];
    State(PcModel.Publish(s.pc, d, set sid | sid in Members(s, d) && sid in socks && !socks[sid].canWrite), socks)
  }

  predicate IsFrame(packet: Ipc.Packet) { TypeOf(packet.pktType) == IPC_PKT_TYPE_JT1078_PACKET }

  /** A packet from upstream. The device id is read from the packet buffer, which holds `after`
      behind the payload. */
  ghost function Forward(s: State, packet: Ipc.Packet, after: seq<byte>): State
    requires |packet.data| + |after| >= 8
  {
    if IsFrame(packet) then ForwardTo(s, Host(packet.data + after, 0, 8), packet) else s
  }

  /** The sessions such a packet is handed to. */
  ghost function Listeners(s: State, packet: Ipc.Packet, after: seq<byte>): set<Sid>
    requires |packet.data| + |after| >= 8
  {
    if IsFrame(packet) then Members(s, Host(packet.data + after, 0, 8)) else {}
  }

  ghost function Step(kernels: Kernels, s: State, e: Event): State
    requires Enabled(s, e)
  {
    match e
    case Connects(sid) => State(PcModel.NewViewer(s.pc, sid), s.socks[sid := Fresh(kernels, sid)])
    case Sends(sid, pktType, data) => s.(pc := PcModel.ViewerPacket(s.pc, sid, pktType, data))
    case Fails(sid) => s.(pc := PcModel.ViewerError(s.pc, sid))
    case Dials(ok) => s.(pc := PcModel.Dial(s.pc, ok))
    case Dialled(ok) => s.(pc := PcModel.ClientConnect(s.pc, ok))
    case Lost => s.(pc := PcModel.ClientError(s.pc))
    case Beats => s.(pc := PcModel.Heartbeat(s.pc))
    case Arrives(packet, after) => Forward(s, packet, after)
  }

  ghost predicate Possible(kernels: Kernels, events: seq<Event>)
    decreases |events|, 0
  {
    events == [] || var n := |events| - 1; Possible(kernels, events[..n]) && Enabled(Run(kernels, events[..n]), events[n])
  }

  ghost function Run(kernels: Kernels, events: seq<Event>): State
    requires Possible(kernels, events)
    decreases |events|, 1
  {
    if events == [] then State(PcModel.START, map[])
    else Step(kernels, Run(kernels, events[..|events| - 1]), events[|events| - 1])
  }

  /** All packets that came from upstream, in order. */
  ghost function Upstream(events: seq<Event>): seq<Ipc.Packet> {
    if events == [] then []
    else
      var before, e := Upstream(events[..|events| - 1]), events[|events| - 1];
      if e.Arrives? then before + [e.packet] else before
  }

  /** Those that arrived while the viewer was in the channel of the packet's device. */
  ghost function Heard(kernels: Kernels, events: seq<Event>, sid: Sid): seq<Ipc.Packet>
    requires Possible(kernels, events)
  {
    if events == [] then []
    else
      var n := |events| - 1;
      var before, e := Heard(kernels, events[..n], sid), events[n];
      if e.Arrives? && sid in Listeners(Run(kernels, events[..n]), e.packet, e.after) then before + [e.packet] else before
  }

  /** A packet of the frame type goes to the channel that its first eight bytes name, in
      little-endian order; any other does nothing. */
  lemma ForwardMeans(s: State, packet: Ipc.Packet, after: seq<byte>)
    requires |packet.data| + |after| >= 8
    ensures Forward(s, packet, after)
         == if packet.pktType % 0x100 == 4 then ForwardTo(s, Little8(packet.data + after, 0), packet) else s
  {
    HostIsLittle8(packet.data + after, 0);
  }

  /** Exactly the members are offered it, and of them exactly those it leaves unwritable are out
      of the channel afterwards. */
  lemma ForwardToPlaces(s: State, d: Device, packet: Ipc.Packet, e: Device, sid: Sid)
    requires sid in s.socks
    ensures var next := ForwardTo(s, d, packet);
            && next.socks.Keys == s.socks.Keys
            && next.socks[sid] == (if Tables.IsIn(s.pc.channels, d, sid) then Offer(s.socks[sid], Ipc.Image(packet)) else s.socks[sid])
            && (Tables.IsIn(next.pc.channels, e, sid) <==> Tables.IsIn(s.pc.channels, e, sid) && (e == d ==> next.socks[sid].canWrite))
  {
  }

  // ---- Invariants ----

  ghost predicate Inv(s: State) {
    PcModel.TablesAgree(s.pc) && s.pc.viewers.Keys <= s.socks.Keys
  }

  lemma MembersAreConnected(s: State, d: Device)
    requires Inv(s)
    ensures Members(s, d) <= s.socks.Keys
  {
    forall sid | sid in Members(s, d) ensures sid in s.socks {
      assert PcModel.RecordedUnder(s.pc.viewers, sid, d);
      assert sid in s.pc.viewers.Keys;
    }
  }

  lemma ForwardToKeeps(s: State, d: Device, packet: Ipc.Packet)
    requires Inv(s)
    ensures Inv(ForwardTo(s, d, packet)) && ForwardTo(s, d, packet).socks.Keys == s.socks.Keys
  {
    assert ForwardTo(s, d, packet).socks.Keys == s.socks.Keys;
  }

  /** Events at the viewer server itself, after which the same sessions or fewer are on record. */
  lemma ViewersKeep(s: State, pc: PcModel.PcState)
    requires Inv(s) && PcModel.TablesAgree(pc) && pc.viewers.Keys <= s.pc.viewers.Keys
    ensures Inv(s.(pc := pc))
  {
  }

  lemma ConnectsKeeps(kernels: Kernels, s: State, sid: Sid)
    requires Inv(s) && sid !in s.socks
    ensures Inv(State(PcModel.NewViewer(s.pc, sid), s.socks[sid := Fresh(kernels, sid)]))
  {
    assert sid !in s.pc.viewers.Keys;
    PcModel.NewViewerTables(s.pc, sid);
  }

  lemma StepKeeps(kernels: Kernels, s: State, e: Event)
    requires Inv(s) && Enabled(s, e)
    ensures Inv(Step(kernels, s, e))
  {
    match e
    case Connects(sid) => ConnectsKeeps(kernels, s, sid);
    case Sends(sid, pktType, data) =>
      PcModel.ViewerPacketTables(s.pc, sid, pktType, data);
      ViewersKeep(s, PcModel.ViewerPacket(s.pc, sid, pktType, data));
    case Fails(sid) =>
      PcModel.ViewerErrorTables(s.pc, sid);
      ViewersKeep(s, PcModel.ViewerError(s.pc, sid));
    case Dials(ok) => ViewersKeep(s, PcModel.Dial(s.pc, ok));
    case Dialled(ok) => ViewersKeep(s, PcModel.ClientConnect(s.pc, ok));
    case Lost => ViewersKeep(s, PcModel.ClientError(s.pc));
    case Beats => ViewersKeep(s, PcModel.Heartbeat(s.pc));
    case Arrives(packet, after) => ForwardToKeeps(s, Host(packet.data + after, 0, 8), packet);
  }

  lemma {:induction false} RunKeeps(kernels: Kernels, events: seq<Event>)
    requires Possible(kernels, events)
    ensures Inv(Run(kernels, events))
  {
    if events != [] {
      var n := |events| - 1;
      RunKeeps(kernels, events[..n]);
      StepKeeps(kernels, Run(kernels, events[..n]), events[n]);
    }
  }

  /** A viewer's connection is what a fresh one becomes when it is offered exactly these packets;
      before it connects there are none. */
  ghost predicate Offered(kernels: Kernels, s: State, sid: Sid, heard: seq<Ipc.Packet>) {
    if sid in s.socks then s.socks[sid] == OfferAll(Fresh(kernels, sid), Ipc.Images(heard)) else heard == []
  }

  /** A frame to a channel is one more packet heard for its members, and nothing for others. */
  lemma ForwardToOffers(kernels: Kernels, s: State, d: Device, p: Ipc.Packet, sid: Sid, heard: seq<Ipc.Packet>)
    requires Inv(s) && Offered(kernels, s, sid, heard)
    ensures Offered(kernels, ForwardTo(s, d, p), sid, if sid in Members(s, d) then heard + [p] else heard)
  {
    MembersAreConnected(s, d);
    Subs.OfferOneMore(Fresh(kernels, sid), heard, p);
  }

  /** Nothing else offers anything to anybody. */
  lemma OthersOfferNothing(kernels: Kernels, s: State, e: Event, sid: Sid, heard: seq<Ipc.Packet>)
    requires Enabled(s, e) && !e.Arrives? && Offered(kernels, s, sid, heard)
    ensures Offered(kernels, Step(kernels, s, e), sid, heard)
  {
    if e.Connects? && e.sid == sid {
      assert Ipc.Images([]) == [];
    }
  }

  lemma {:induction false} OfferedWhatIsHeard(kernels: Kernels, events: seq<Event>, sid: Sid)
    requires Possible(kernels, events)
    ensures Offered(kernels, Run(kernels, events), sid, Heard(kernels, events, sid))
  {
    if events != [] {
      var n := |events| - 1;
      var e := events[n];
      var s, heard := Run(kernels, events[..n]), Heard(kernels, events[..n], sid);
      OfferedWhatIsHeard(kernels, events[..n], sid);
      RunKeeps(kernels, events[..n]);
      if e.Arrives? {
        ForwardToOffers(kernels, s, Host(e.packet.data + e.after, 0, 8), e.packet, sid, heard);
      } else {
        OthersOfferNothing(kernels, s, e, sid, heard);
      }
    }
  }

  lemma {:induction false} HeardIsUpstream(kernels: Kernels, events: seq<Event>, sid: Sid)
    requires Possible(kernels, events)
    ensures forall p :: p in Heard(kernels, events, sid) ==> Ipc.WellFormed(p) && p in Upstream(events)
  {
    if events != [] {
      HeardIsUpstream(kernels, events[..|events| - 1], sid);
    }
  }

  // ---- Relay transparency ----

  /** At every moment, however the kernels answer, a viewer's connection carries, unchanged and
      in order, exactly the packets that came from upstream while the viewer was in the channel
      of the packet's device. */
  lemma Transparent(kernels: Kernels, events: seq<Event>, sid: Sid)
    requires Possible(kernels, events) && sid in Run(kernels, events).socks
    ensures Subs.Carries(Run(kernels, events).socks[sid], Heard(kernels, events, sid))
  {
    OfferedWhatIsHeard(kernels, events, sid);
    HeardIsUpstream(kernels, events, sid);
    Subs.OfferedIsCarried(Fresh(kernels, sid), Heard(kernels, events, sid), 0xffff_ffff);
  }

  /** The packet is published under the message's device, whatever lies behind it. */
  ghost predicate PublishedUnder(p: Ipc.Packet, device: Device) {
    IsFrame(p) && forall after: seq<byte> :: |p.data| + |after| >= 8 ==> Host(p.data + after, 0, 8) == device
  }

  lemma DeviceOf(p: Ipc.Packet, i: nat, m: Subs.Message)
    requires Subs.Recovers(p, i, m)
    ensures PublishedUnder(p, m.device)
  {
    forall after: seq<byte> ensures Host(p.data + after, 0, 8) == m.device {
      HostMoves(p.data + after, 0, p.data, 0, 8);
    }
  }
}
