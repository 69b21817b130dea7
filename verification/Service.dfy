/** The whole service: the subscription protocol and the path of the frames at work on the same
    viewers and the same connection. The forwarding server delivers what it publishes to the
    sessions its channels hold, and loses those that turn out unwritable
    (jt1078/forward_server/ForwardServer.cpp, Channel.cpp, Subscriber.cpp, pc_server/PcServer.cpp). */
module Service {
  import opened Bytes
  import opened Ids
  import opened IpcPktType
  import opened Subscribers
  import opened TcpSessions
  import D = DeviceId
  import EndToEnd
  import Ipc = IpcPacket
  import PcModel
  import Protocol
  import Relay
  import Tables

  /** `sys` holds the requests and channels of both servers, `chain` the frames on their way and
      the viewers' connections. */
  datatype Whole = Whole(sys: Protocol.Sys, chain: EndToEnd.Chain)

  datatype Event =
    | AtViewers(event: Relay.Event)
    | LinkUp(kernel: Kernel)
    | Reads(n: nat, after: seq<byte>)
    | AtServer(served: Protocol.Event)
    | Publishes(message: Message, broken: set<Sid>)

  /** What the protocol sees of an event at the viewer server. */
  function Seen(event: Relay.Event): Protocol.Event
    requires !event.Arrives?
  {
    match event
    case Connects(sid) => Protocol.ViewerConnects(sid)
    case Sends(sid, pktType, data) => Protocol.ViewerSends(sid, pktType, data)
    case Fails(sid) => Protocol.ViewerFails(sid)
    case Dials(ok) => Protocol.ConnectTimer(ok)
    case Dialled(ok) => Protocol.ConnectDone(ok)
    case Lost => Protocol.ConnectionLost
    case Beats => Protocol.HeartbeatTimer
  }

  /** Events at the forwarding server other than publishing. */
  ghost predicate Serves(e: Protocol.Event) {
    e.RequestArrives? || e.SessionFails? || e.PeerConnects? || (e.PeerActs? && !e.event.Frame?)
  }

  ghost predicate Enabled(w: Whole, e: Event) {
    match e
    case AtViewers(event) => EndToEnd.Enabled(w.chain, EndToEnd.AtViewers(event)) && Protocol.Enabled(w.sys, Seen(event))
    case LinkUp(kernel) => EndToEnd.Enabled(w.chain, EndToEnd.LinkUp(kernel)) && Protocol.Enabled(w.sys, Protocol.ConnectDone(true))
    case Reads(n, after) => EndToEnd.Enabled(w.chain, EndToEnd.Reads(n, after))
    case AtServer(event) => Serves(event) && Protocol.Enabled(w.sys, event)
    case Publishes(message, _) => Legal(message)
  }

  /** The present connection's session is in the channel of this device. */
  ghost predicate Gets(w: Whole, d: Device) { w.chain.viewers.pc.link.Up? && Protocol.Joined(w.sys, d) }

  /** A message reaches the members of its device's channel; whether that breaks the present
      connection is up to that connection, `broken` says it of the others. */
  ghost function Publish(kernels: Relay.Kernels, w: Whole, m: Message, broken: set<Sid>): Whole
    requires Legal(m)
  {
    if Gets(w, m.device) then
      var chain := EndToEnd.Step(kernels, w.chain, EndToEnd.Delivers(m));
      var lost := if chain.link.source.sub.sock.canWrite then broken - {w.sys.session} else broken + {w.sys.session};
      Whole(Protocol.Step(w.sys, Protocol.PeerActs(Protocol.Fwd.Frame(m.device, lost))), chain)
    else w.(sys := Protocol.Step(w.sys, Protocol.PeerActs(Protocol.Fwd.Frame(m.device, broken))))
  }

  ghost function Step(kernels: Relay.Kernels, w: Whole, e: Event): Whole
    requires Enabled(w, e)
  {
    match e
    case AtViewers(event) =>
      Whole(Protocol.Step(w.sys, Seen(event)), EndToEnd.Step(kernels, w.chain, EndToEnd.AtViewers(event)))
    case LinkUp(kernel) =>
      Whole(Protocol.Step(w.sys, Protocol.ConnectDone(true)), EndToEnd.Step(kernels, w.chain, EndToEnd.LinkUp(kernel)))
    case Reads(n, after) =>
      var chain := EndToEnd.Step(kernels, w.chain, EndToEnd.Reads(n, after));
      Whole(w.sys.(pc := chain.viewers.pc), chain)
    case AtServer(event) => w.(sys := Protocol.Step(w.sys, event))
    case Publishes(m, broken) => Publish(kernels, w, m, broken)
  }

  ghost predicate Possible(kernels: Relay.Kernels, run: seq<Event>)
    decreases |run|, 0
  {
    run == [] || var n := |run| - 1; Possible(kernels, run[..n]) && Enabled(Run(kernels, run[..n]), run[n])
  }

  ghost function Run(kernels: Relay.Kernels, run: seq<Event>): Whole
    requires Possible(kernels, run)
    decreases |run|, 1
  {
    if run == [] then Whole(Protocol.START, EndToEnd.Run(kernels, []))
    else Step(kernels, Run(kernels, run[..|run| - 1]), run[|run| - 1])
  }

  // ---- Both models at work ----

  /** What the path of the frames sees of an event. */
  ghost function HappensIn(w: Whole, e: Event): seq<EndToEnd.Happening> {
    match e
    case AtViewers(event) => [EndToEnd.AtViewers(event)]
    case LinkUp(kernel) => [EndToEnd.LinkUp(kernel)]
    case Reads(n, after) => [EndToEnd.Reads(n, after)]
    case AtServer(_) => []
    case Publishes(m, _) => if Gets(w, m.device) then [EndToEnd.Delivers(m)] else []
  }

  /** And of a run. */
  ghost function Chained(kernels: Relay.Kernels, run: seq<Event>): seq<EndToEnd.Happening>
    requires Possible(kernels, run)
  {
    if run == [] then []
    else
      var n := |run| - 1;
      Chained(kernels, run[..n]) + HappensIn(Run(kernels, run[..n]), run[n])
  }

  lemma ChainOneMore(kernels: Relay.Kernels, before: seq<EndToEnd.Happening>, e: EndToEnd.Happening)
    requires EndToEnd.Possible(kernels, before) && EndToEnd.Enabled(EndToEnd.Run(kernels, before), e)
    ensures EndToEnd.Possible(kernels, before + [e])
    ensures EndToEnd.Run(kernels, before + [e]) == EndToEnd.Step(kernels, EndToEnd.Run(kernels, before), e)
  {
    assert (before + [e])[..|before|] == before;
  }

  lemma StepChains(kernels: Relay.Kernels, before: seq<EndToEnd.Happening>, w: Whole, e: Event)
    requires EndToEnd.Possible(kernels, before) && EndToEnd.Run(kernels, before) == w.chain && Enabled(w, e)
    ensures EndToEnd.Possible(kernels, before + HappensIn(w, e))
    ensures EndToEnd.Run(kernels, before + HappensIn(w, e)) == Step(kernels, w, e).chain
  {
    if HappensIn(w, e) == [] {
      assert before + [] == before;
    } else {
      ChainOneMore(kernels, before, HappensIn(w, e)[0]);
    }
  }

  /** Publishing keeps the present connection in the channel exactly as long as it is writable. */
  lemma PublishDrops(kernels: Relay.Kernels, w: Whole, m: Message, broken: set<Sid>)
    requires Legal(m) && Gets(w, m.device)
    ensures var after := Publish(kernels, w, m, broken);
            && after.chain == EndToEnd.Step(kernels, w.chain, EndToEnd.Delivers(m))
            && (Protocol.Joined(after.sys, m.device) <==> after.chain.link.source.sub.sock.canWrite)
  {
  }

  /** Every run of the service is one of the path of the frames. */
  lemma {:induction false} ChainRuns(kernels: Relay.Kernels, run: seq<Event>)
    requires Possible(kernels, run)
    ensures EndToEnd.Possible(kernels, Chained(kernels, run))
    ensures EndToEnd.Run(kernels, Chained(kernels, run)) == Run(kernels, run).chain
  {
    if run != [] {
      var n := |run| - 1;
      ChainRuns(kernels, run[..n]);
      StepChains(kernels, Chained(kernels, run[..n]), Run(kernels, run[..n]), run[n]);
    }
  }

  lemma ChainInv(kernels: Relay.Kernels, run: seq<Event>)
    requires Possible(kernels, run)
    ensures EndToEnd.Inv(Run(kernels, run).chain)
  {
    ChainRuns(kernels, run);
    EndToEnd.RunKeeps(kernels, Chained(kernels, run));
  }

  /** Both see the same viewer server, and a connection that the forwarding server has not found
      unwritable is writable. */
  ghost predicate Coupled(w: Whole) {
    && Protocol.SysInv(w.sys) && w.sys.pc == w.chain.viewers.pc
    && (w.sys.pc.link.Up? && w.sys.health.Healthy? ==> w.chain.link.source.sub.sock.canWrite)
  }

  lemma ViewersCouple(kernels: Relay.Kernels, w: Whole, event: Relay.Event)
    requires Coupled(w) && Enabled(w, AtViewers(event))
    ensures Coupled(Step(kernels, w, AtViewers(event)))
  {
    Protocol.StepKeeps(w.sys, Seen(event));
    EndToEnd.ViewersDoNotConnect(kernels, w.chain, event);
  }

  /** Handing frames on is publishing them to viewers, one after another. */
  lemma {:induction false} RelayedViews(s: Relay.State, i: nat, ms: seq<Message>, exact: bool)
    requires AllLegal(ms) && Protocol.Viewing(s.pc, exact)
    ensures Protocol.Viewing(EndToEnd.Relayed(s, i, ms).pc, exact) && PcModel.Extends(s.pc, EndToEnd.Relayed(s, i, ms).pc)
  {
    if ms != [] {
      var n := |ms| - 1;
      var so := EndToEnd.Relayed(s, i, ms[..n]);
      RelayedViews(s, i, ms[..n], exact);
      ForwardViews(so, ms[n].device, Frame(i + n, ms[n]), exact);
      ExtendsOn(s.pc, so.pc, EndToEnd.Relayed(s, i, ms).pc);
    }
  }

  lemma ExtendsOn(a: PcModel.PcState, b: PcModel.PcState, c: PcModel.PcState)
    requires PcModel.Extends(a, b) && PcModel.Extends(b, c)
    ensures PcModel.Extends(a, c)
  {
  }

  lemma ForwardViews(s: Relay.State, d: Device, p: Ipc.Packet, exact: bool)
    requires Protocol.Viewing(s.pc, exact)
    ensures Protocol.Viewing(Relay.ForwardTo(s, d, p).pc, exact) && PcModel.Extends(s.pc, Relay.ForwardTo(s, d, p).pc)
  {
    var socks := Relay.ForwardTo(s, d, p).socks;
    var broken := set sid | sid in Relay.Members(s, d) && sid in socks && !socks[sid].canWrite;
    PcModel.PublishTables(s.pc, d, broken);
    if exact {
      PcModel.PublishKeeps(s.pc, d, broken);
    }
  }

  lemma ReadCouples(kernels: Relay.Kernels, w: Whole, n: nat, after: seq<byte>)
    requires Coupled(w) && EndToEnd.Inv(w.chain) && Enabled(w, Reads(n, after))
    ensures Coupled(Step(kernels, w, Reads(n, after)))
  {
    var link := w.chain.link;
    EndToEnd.ReadRelays(kernels, w.chain, n, after);
    var ms := EndToEnd.Stretch(link.source.ms, link.seen, EndToEnd.Completes(link, n));
    RelayedViews(w.chain.viewers, link.seen, ms, w.sys.exact);
    Protocol.ExtendsKeeps(w.sys, EndToEnd.Relayed(w.chain.viewers, link.seen, ms).pc);
  }

  lemma PublishCouples(kernels: Relay.Kernels, w: Whole, m: Message, broken: set<Sid>)
    requires Coupled(w) && Legal(m)
    ensures Coupled(Publish(kernels, w, m, broken))
  {
    var lost := if Publish(kernels, w, m, broken).chain.link.source.sub.sock.canWrite then broken - {w.sys.session}
                else broken + {w.sys.session};
    Protocol.StepKeeps(w.sys, Protocol.PeerActs(Protocol.Fwd.Frame(m.device, lost)));
    Protocol.StepKeeps(w.sys, Protocol.PeerActs(Protocol.Fwd.Frame(m.device, broken)));
  }

  lemma LinkUpCouples(kernels: Relay.Kernels, w: Whole, kernel: Kernel)
    requires Coupled(w) && Enabled(w, LinkUp(kernel))
    ensures Coupled(Step(kernels, w, LinkUp(kernel)))
  {
    Protocol.ConnectKeeps(w.sys, true);
  }

  lemma ServerCouples(kernels: Relay.Kernels, w: Whole, event: Protocol.Event)
    requires Coupled(w) && Enabled(w, AtServer(event))
    ensures Coupled(Step(kernels, w, AtServer(event)))
  {
    Protocol.StepKeeps(w.sys, event);
  }

  lemma StepCouples(kernels: Relay.Kernels, w: Whole, e: Event)
    requires Coupled(w) && EndToEnd.Inv(w.chain) && Enabled(w, e)
    ensures Coupled(Step(kernels, w, e))
  {
    match e
    case AtViewers(event) => ViewersCouple(kernels, w, event);
    case LinkUp(kernel) => LinkUpCouples(kernels, w, kernel);
    case Reads(n, after) => ReadCouples(kernels, w, n, after);
    case AtServer(event) => ServerCouples(kernels, w, event);
    case Publishes(m, broken) => PublishCouples(kernels, w, m, broken);
  }

  /** Every run of the service keeps the invariant of the protocol too. */
  lemma {:induction false} RunCouples(kernels: Relay.Kernels, run: seq<Event>)
    requires Possible(kernels, run)
    ensures Coupled(Run(kernels, run))
  {
    if run == [] {
      Protocol.RunKeeps([]);
    } else {
      var n := |run| - 1;
      RunCouples(kernels, run[..n]);
      ChainInv(kernels, run[..n]);
      StepCouples(kernels, Run(kernels, run[..n]), run[n]);
    }
  }

  // ---- A viewer that stays in its channel ----

  ghost predicate Drops(r: Request, d: Device) {
    TypeOf(r.pktType) == IPC_PKT_TYPE_UNSUBSCRIBE_DEVICE_ID && D.Parse(r.data) == d
  }

  /** None of the requests from number `from` on gives this device up. */
  ghost predicate NoneDrops(sent: seq<Request>, from: nat, d: Device) {
    forall i :: from <= i < |sent| ==> !Drops(sent[i], d)
  }

  ghost predicate Sits(pc: PcModel.PcState, sid: Sid, d: Device) { Tables.IsIn(pc.channels, d, sid) }

  /** The viewer is in the channel, on a connection that stands and is found healthy. */
  ghost predicate Stands(w: Whole, sid: Sid, d: Device) {
    w.sys.pc.link.Up? && w.sys.health.Healthy? && Sits(w.sys.pc, sid, d)
  }

  /** And the forwarding server serves the device on it, with no request on the way to stop. */
  ghost predicate Steady(w: Whole, sid: Sid, d: Device) {
    Stands(w, sid, d) && Protocol.Joined(w.sys, d) && NoneDrops(w.sys.pc.sent, w.sys.taken, d)
  }

  /** So it is once every request has arrived, if the subscriptions are in step. */
  lemma DrainedIsSteady(w: Whole, sid: Sid, d: Device)
    requires Protocol.SysInv(w.sys) && Stands(w, sid, d) && w.sys.taken == |w.sys.pc.sent| && PcModel.Sandwiched(w.sys.pc)
    ensures Steady(w, sid, d)
  {
    Protocol.DrainedServes(w.sys);
  }

  /** Requests added behind others, none of which drops the device. */
  ghost predicate Adds(before: seq<Request>, after: seq<Request>, d: Device) {
    before <= after && NoneDrops(after, |before|, d)
  }

  lemma AddsMore(a: seq<Request>, b: seq<Request>, c: seq<Request>, d: Device)
    requires Adds(a, b, d) && Adds(b, c, d)
    ensures Adds(a, c, d)
  {
    forall i | |a| <= i < |c| ensures !Drops(c[i], d) {
      assert i < |b| ==> c[i] == b[i];
    }
  }

  lemma NoneDropsOn(before: seq<Request>, after: seq<Request>, from: nat, d: Device)
    requires Adds(before, after, d) && from <= |before| && NoneDrops(before, from, d)
    ensures NoneDrops(after, from, d)
  {
    forall i | from <= i < |after| ensures !Drops(after[i], d) {
      assert i < |before| ==> after[i] == before[i];
    }
  }

  /** Another viewer that leaves does not give the device up. */
  lemma OtherLeaves(pc: PcModel.PcState, other: Sid, device: string, sid: Sid, d: Device)
    requires Sits(pc, sid, d) && other != sid
    ensures Sits(PcModel.Left(pc, other, device), sid, d) && Adds(pc.sent, PcModel.Left(pc, other, device).sent, d)
  {
    if D.Parse(device) == d {
      assert sid in pc.channels[d] - {other};
    }
  }

  lemma OtherEnters(pc: PcModel.PcState, other: Sid, device: string, sid: Sid, d: Device)
    requires Sits(pc, sid, d)
    ensures Sits(PcModel.Entered(pc, other, device), sid, d) && Adds(pc.sent, PcModel.Entered(pc, other, device).sent, d)
  {
    PcModel.TypeOfAsk(IPC_PKT_TYPE_SUBSCRIBE_DEVICE_ID, device);
  }

  lemma OtherSwitches(pc: PcModel.PcState, other: Sid, device: string, sid: Sid, d: Device)
    requires Sits(pc, sid, d) && other != sid && other in pc.viewers
    ensures var after := PcModel.TryUnsubscribeOld(pc, other, device);
            Sits(after, sid, d) && Adds(pc.sent, after.sent, d)
  {
    OtherLeaves(pc, other, pc.viewers[other], sid, d);
  }

  lemma OtherSubscribes(pc: PcModel.PcState, other: Sid, device: string, sid: Sid, d: Device)
    requires Sits(pc, sid, d) && other != sid && other in pc.viewers
    ensures var after := PcModel.Subscribe(pc, other, device); Sits(after, sid, d) && Adds(pc.sent, after.sent, d)
  {
    OtherSwitches(pc, other, device, sid, d);
    var st1 := PcModel.TryUnsubscribeOld(pc, other, device);
    if device != "" {
      var st2 := st1.(viewers := st1.viewers[other := device]);
      OtherEnters(st2, other, device, sid, d);
      AddsMore(pc.sent, st2.sent, PcModel.Entered(st2, other, device).sent, d);
    }
  }

  lemma OtherUnsubscribes(pc: PcModel.PcState, other: Sid, sid: Sid, d: Device)
    requires Sits(pc, sid, d) && other != sid && other in pc.viewers
    ensures var after := PcModel.Unsubscribe(pc, other); Sits(after, sid, d) && Adds(pc.sent, after.sent, d)
  {
    OtherLeaves(pc, other, pc.viewers[other], sid, d);
  }

  lemma OtherSends(pc: PcModel.PcState, other: Sid, pktType: nat, data: string, sid: Sid, d: Device)
    requires Sits(pc, sid, d) && other != sid && other in pc.viewers
    ensures Adds(pc.sent, PcModel.ViewerPacket(pc, other, pktType, data).sent, d)
  {
    if TypeOf(pktType) == IPC_PKT_TYPE_SUBSCRIBE_DEVICE_ID {
      OtherSubscribes(pc, other, data, sid, d);
    } else {
      OtherUnsubscribes(pc, other, sid, d);
    }
  }

  /** What this viewer does itself. */
  ghost predicate IsOwn(e: Event, sid: Sid) {
    e.AtViewers? && ((e.event.Sends? && e.event.sid == sid) || (e.event.Fails? && e.event.sid == sid))
  }

  lemma OtherFails(pc: PcModel.PcState, other: Sid, sid: Sid, d: Device)
    requires Sits(pc, sid, d) && other != sid && other in pc.viewers
    ensures Adds(pc.sent, PcModel.ViewerError(pc, other).sent, d)
  {
    OtherUnsubscribes(pc, other, sid, d);
  }

  lemma BeatAdds(pc: PcModel.PcState, d: Device)
    ensures Adds(pc.sent, PcModel.Heartbeat(pc).sent, d)
  {
    PcModel.TypeOfAsk(IPC_PKT_TYPE_HEARTBEAT, "");
  }

  /** Events at the viewer server that give up nothing leave the service of the device alone. */
  lemma StillSteady(w: Whole, after: Whole, sid: Sid, d: Device)
    requires Steady(w, sid, d) && Stands(after, sid, d) && w.sys.taken <= |w.sys.pc.sent|
    requires after.sys == w.sys.(pc := after.sys.pc) && Adds(w.sys.pc.sent, after.sys.pc.sent, d)
    ensures Steady(after, sid, d)
  {
    NoneDropsOn(w.sys.pc.sent, after.sys.pc.sent, w.sys.taken, d);
  }

  lemma SendsStaySteady(kernels: Relay.Kernels, w: Whole, other: Sid, pktType: nat, data: string, sid: Sid, d: Device)
    requires Coupled(w) && Steady(w, sid, d) && Enabled(w, AtViewers(Relay.Sends(other, pktType, data))) && other != sid
    requires Stands(Step(kernels, w, AtViewers(Relay.Sends(other, pktType, data))), sid, d)
    ensures Steady(Step(kernels, w, AtViewers(Relay.Sends(other, pktType, data))), sid, d)
  {
    OtherSends(w.sys.pc, other, pktType, data, sid, d);
    StillSteady(w, Step(kernels, w, AtViewers(Relay.Sends(other, pktType, data))), sid, d);
  }

  lemma FailsStaySteady(kernels: Relay.Kernels, w: Whole, other: Sid, sid: Sid, d: Device)
    requires Coupled(w) && Steady(w, sid, d) && Enabled(w, AtViewers(Relay.Fails(other))) && other != sid
    requires Stands(Step(kernels, w, AtViewers(Relay.Fails(other))), sid, d)
    ensures Steady(Step(kernels, w, AtViewers(Relay.Fails(other))), sid, d)
  {
    OtherFails(w.sys.pc, other, sid, d);
    StillSteady(w, Step(kernels, w, AtViewers(Relay.Fails(other))), sid, d);
  }

  lemma BeatsStaySteady(kernels: Relay.Kernels, w: Whole, sid: Sid, d: Device)
    requires Coupled(w) && Steady(w, sid, d) && Enabled(w, AtViewers(Relay.Beats))
    requires Stands(Step(kernels, w, AtViewers(Relay.Beats)), sid, d)
    ensures Steady(Step(kernels, w, AtViewers(Relay.Beats)), sid, d)
  {
    BeatAdds(w.sys.pc, d);
    StillSteady(w, Step(kernels, w, AtViewers(Relay.Beats)), sid, d);
  }

  lemma ViewersStaySteady(kernels: Relay.Kernels, w: Whole, event: Relay.Event, sid: Sid, d: Device)
    requires Coupled(w) && Steady(w, sid, d) && Enabled(w, AtViewers(event)) && !IsOwn(AtViewers(event), sid)
    requires Stands(Step(kernels, w, AtViewers(event)), sid, d)
    ensures Steady(Step(kernels, w, AtViewers(event)), sid, d)
  {
    match event
    case Sends(other, pktType, data) => SendsStaySteady(kernels, w, other, pktType, data, sid, d);
    case Fails(other) => FailsStaySteady(kernels, w, other, sid, d);
    case Beats => BeatsStaySteady(kernels, w, sid, d);
    case _ =>
  }

  lemma ServerStaysSteady(kernels: Relay.Kernels, w: Whole, event: Protocol.Event, sid: Sid, d: Device)
    requires Coupled(w) && Steady(w, sid, d) && Enabled(w, AtServer(event))
    requires Stands(Step(kernels, w, AtServer(event)), sid, d)
    ensures Steady(Step(kernels, w, AtServer(event)), sid, d)
  {
    var s, s' := w.sys, Step(kernels, w, AtServer(event)).sys;
    if event.RequestArrives? {
      Protocol.ReceivedMembership(s.fwd, s.session, s.pc.sent[s.taken], s.nextSession);
    } else if event.PeerActs? {
      Protocol.OthersDoNotMatter(s.fwd, s.session, event.event);
    }
    assert d in Protocol.Membership(s.fwd, s.session);
    assert d in Protocol.Membership(s'.fwd, s.session);
  }

  lemma PublishStaysSteady(kernels: Relay.Kernels, w: Whole, m: Message, broken: set<Sid>, sid: Sid, d: Device)
    requires Coupled(w) && Steady(w, sid, d) && Legal(m)
    requires Stands(Publish(kernels, w, m, broken), sid, d)
    ensures Steady(Publish(kernels, w, m, broken), sid, d)
  {
  }

  lemma StaysSteady(kernels: Relay.Kernels, w: Whole, e: Event, sid: Sid, d: Device)
    requires Coupled(w) && EndToEnd.Inv(w.chain) && Steady(w, sid, d) && Enabled(w, e) && !IsOwn(e, sid)
    requires Stands(Step(kernels, w, e), sid, d)
    ensures Steady(Step(kernels, w, e), sid, d)
  {
    match e
    case AtViewers(event) => ViewersStaySteady(kernels, w, event, sid, d);
    case LinkUp(_) =>
    case Reads(n, after) => ReadStaysSteady(kernels, w, n, after, sid, d);
    case AtServer(event) => ServerStaysSteady(kernels, w, event, sid, d);
    case Publishes(m, broken) => PublishStaysSteady(kernels, w, m, broken, sid, d);
  }

  lemma ReadStaysSteady(kernels: Relay.Kernels, w: Whole, n: nat, after: seq<byte>, sid: Sid, d: Device)
    requires Coupled(w) && EndToEnd.Inv(w.chain) && Steady(w, sid, d) && Enabled(w, Reads(n, after))
    requires Stands(Step(kernels, w, Reads(n, after)), sid, d)
    ensures Steady(Step(kernels, w, Reads(n, after)), sid, d)
  {
    var link := w.chain.link;
    EndToEnd.ReadRelays(kernels, w.chain, n, after);
    RelayedSends(w.chain.viewers, link.seen, EndToEnd.Stretch(link.source.ms, link.seen, EndToEnd.Completes(link, n)));
  }

  lemma {:induction false} RelayedSends(s: Relay.State, i: nat, ms: seq<Message>)
    requires AllLegal(ms)
    ensures EndToEnd.Relayed(s, i, ms).pc.sent == s.pc.sent && EndToEnd.Relayed(s, i, ms).pc.link == s.pc.link
  {
    if ms != [] {
      RelayedSends(s, i, ms[..|ms| - 1]);
    }
  }

  // ---- What it is told ----

  /** The messages a viewer hears of one read: those that come while it is in the channel of
      their device. */
  ghost function ToldBy(s: Relay.State, i: nat, ms: seq<Message>, sid: Sid): seq<Message>
    requires AllLegal(ms)
  {
    if ms == [] then []
    else
      var n := |ms| - 1;
      var before := ToldBy(s, i, ms[..n], sid);
      if sid in Relay.Members(EndToEnd.Relayed(s, i, ms[..n]), ms[n].device) then before + [ms[n]] else before
  }

  /** The messages a read completes. */
  ghost function CompletedBy(link: EndToEnd.Epoch, n: nat): (ms: seq<Message>)
    requires EndToEnd.InStep(link) && link.read + n <= |link.source.sub.sock.wire|
    ensures AllLegal(ms)
  {
    EndToEnd.Stretch(link.source.ms, link.seen, EndToEnd.Completes(link, n))
  }

  /** What a viewer is told in one step. */
  ghost function ToldIn(w: Whole, e: Event, sid: Sid): seq<Message>
    requires EndToEnd.Inv(w.chain) && Enabled(w, e)
  {
    if e.Reads? then ToldBy(w.chain.viewers, w.chain.link.seen, CompletedBy(w.chain.link, e.n), sid) else []
  }

  /** All a viewer is told over a run. */
  ghost function Told(kernels: Relay.Kernels, run: seq<Event>, sid: Sid): seq<Message>
    requires Possible(kernels, run)
  {
    if run == [] then []
    else
      var n := |run| - 1;
      ChainInv(kernels, run[..n]);
      Told(kernels, run[..n], sid) + ToldIn(Run(kernels, run[..n]), run[n], sid)
  }

  /** These packets carry these messages. */
  ghost predicate Carry(ps: seq<Ipc.Packet>, ms: seq<Message>) {
    |ps| == |ms| && forall i :: 0 <= i < |ps| ==> IsFrameOf(ps[i], ms[i])
  }

  ghost predicate IsFrameOf(p: Ipc.Packet, m: Message) {
    Legal(m) && p.pktType == FORWARDED_TYPE && p.data == Payload(m)
  }

  lemma CarryMore(ps: seq<Ipc.Packet>, ms: seq<Message>, more: seq<Ipc.Packet>, others: seq<Message>)
    requires Carry(ps, ms) && Carry(more, others)
    ensures Carry(ps + more, ms + others)
  {
  }

  lemma CarryOne(k: nat, m: Message)
    requires Legal(m)
    ensures Carry([Frame(k, m)], [m])
  {
  }

  lemma {:induction false} SelectedCarry(s: Relay.State, i: nat, ms: seq<Message>, sid: Sid)
    requires AllLegal(ms)
    ensures Carry(EndToEnd.Selected(s, i, ms, sid), ToldBy(s, i, ms, sid))
  {
    if ms != [] {
      var n := |ms| - 1;
      SelectedCarry(s, i, ms[..n], sid);
      CarryOne(i + n, ms[n]);
      CarryMore(EndToEnd.Selected(s, i, ms[..n], sid), ToldBy(s, i, ms[..n], sid), [Frame(i + n, ms[n])], [ms[n]]);
    }
  }

  /** What a viewer hears in one more event. */
  lemma HeardOneMore(kernels: Relay.Kernels, before: seq<EndToEnd.Happening>, e: EndToEnd.Happening, sid: Sid)
    requires EndToEnd.Possible(kernels, before) && EndToEnd.Possible(kernels, before + [e])
    requires EndToEnd.Inv(EndToEnd.Run(kernels, before)) && EndToEnd.Enabled(EndToEnd.Run(kernels, before), e)
    ensures var chain := EndToEnd.Run(kernels, before);
            EndToEnd.Heard(kernels, before + [e], sid) == EndToEnd.Heard(kernels, before, sid)
              + if e.Reads? then EndToEnd.Selected(chain.viewers, chain.link.seen, CompletedBy(chain.link, e.n), sid) else []
  {
    assert (before + [e])[..|before|] == before;
  }

  lemma ReadHeard(kernels: Relay.Kernels, before: seq<EndToEnd.Happening>, chain: EndToEnd.Chain, n: nat, after: seq<byte>,
                  told: seq<Message>, sid: Sid)
    requires EndToEnd.Possible(kernels, before) && EndToEnd.Run(kernels, before) == chain && EndToEnd.Inv(chain)
    requires EndToEnd.Enabled(chain, EndToEnd.Reads(n, after)) && EndToEnd.Possible(kernels, before + [EndToEnd.Reads(n, after)])
    requires Carry(EndToEnd.Heard(kernels, before, sid), told)
    ensures Carry(EndToEnd.Heard(kernels, before + [EndToEnd.Reads(n, after)], sid),
                  told + ToldBy(chain.viewers, chain.link.seen, CompletedBy(chain.link, n), sid))
  {
    HeardOneMore(kernels, before, EndToEnd.Reads(n, after), sid);
    var ms := CompletedBy(chain.link, n);
    SelectedCarry(chain.viewers, chain.link.seen, ms, sid);
    CarryMore(EndToEnd.Heard(kernels, before, sid), told, EndToEnd.Selected(chain.viewers, chain.link.seen, ms, sid),
              ToldBy(chain.viewers, chain.link.seen, ms, sid));
  }

  lemma NothingHeard(kernels: Relay.Kernels, before: seq<EndToEnd.Happening>, e: EndToEnd.Happening, sid: Sid)
    requires EndToEnd.Possible(kernels, before) && EndToEnd.Possible(kernels, before + [e]) && !e.Reads?
    ensures EndToEnd.Heard(kernels, before + [e], sid) == EndToEnd.Heard(kernels, before, sid)
  {
    assert (before + [e])[..|before|] == before;
  }

  lemma StepTells(kernels: Relay.Kernels, before: seq<EndToEnd.Happening>, w: Whole, e: Event, told: seq<Message>, sid: Sid)
    requires EndToEnd.Possible(kernels, before) && EndToEnd.Run(kernels, before) == w.chain
    requires Enabled(w, e) && EndToEnd.Inv(w.chain)
    requires EndToEnd.Possible(kernels, before + HappensIn(w, e))
    requires Carry(EndToEnd.Heard(kernels, before, sid), told)
    ensures Carry(EndToEnd.Heard(kernels, before + HappensIn(w, e), sid), told + ToldIn(w, e, sid))
  {
    if e.Reads? {
      ReadHeard(kernels, before, w.chain, e.n, e.after, told, sid);
    } else {
      assert told + [] == told;
      if HappensIn(w, e) == [] {
        assert before + [] == before;
      } else {
        NothingHeard(kernels, before, HappensIn(w, e)[0], sid);
      }
    }
  }

  /** What a viewer hears carries what it is told. */
  lemma {:induction false} HeardIsTold(kernels: Relay.Kernels, run: seq<Event>, sid: Sid)
    requires Possible(kernels, run) && EndToEnd.Possible(kernels, Chained(kernels, run))
    ensures Carry(EndToEnd.Heard(kernels, Chained(kernels, run), sid), Told(kernels, run, sid))
  {
    if run != [] {
      var n := |run| - 1;
      ChainRuns(kernels, run[..n]);
      HeardIsTold(kernels, run[..n], sid);
      ChainInv(kernels, run[..n]);
      StepTells(kernels, Chained(kernels, run[..n]), Run(kernels, run[..n]), run[n], Told(kernels, run[..n], sid), sid);
    }
  }

  // ---- Nothing published to it is missed ----

  /** The messages of one device. */
  ghost function Of(ms: seq<Message>, d: Device): seq<Message> {
    if ms == [] then []
    else
      var before, last := Of(ms[..|ms| - 1], d), ms[|ms| - 1];
      if last.device == d then before + [last] else before
  }

  /** The messages published for one device. */
  ghost function Published(run: seq<Event>, d: Device): seq<Message> {
    if run == [] then []
    else
      var before, e := Published(run[..|run| - 1], d), run[|run| - 1];
      if e.Publishes? && e.message.device == d then before + [e.message] else before
  }

  lemma OfSnoc(ms: seq<Message>, m: Message, d: Device)
    ensures Of(ms + [m], d) == Of(ms, d) + if m.device == d then [m] else []
  {
    assert (ms + [m])[..|ms|] == ms;
  }

  lemma {:induction false} OfAppend(a: seq<Message>, b: seq<Message>, d: Device)
    ensures Of(a + b, d) == Of(a, d) + Of(b, d)
  {
    if b == [] {
      assert a + b == a;
    } else {
      var n := |b| - 1;
      assert a + b == a + b[..n] + [b[n]] && b == b[..n] + [b[n]];
      OfAppend(a, b[..n], d);
      OfSnoc(a + b[..n], b[n], d);
      OfSnoc(b[..n], b[n], d);
    }
  }

  /** Delivered, but not handed on yet. */
  ghost function OnTheWay(link: EndToEnd.Epoch): seq<Message> {
    if link.seen <= |link.source.ms| then link.source.ms[link.seen..] else []
  }

  /** A viewer that is still in the channel after a read was in it all along. */
  lemma {:induction false} ToldAll(s: Relay.State, i: nat, ms: seq<Message>, sid: Sid, d: Device)
    requires AllLegal(ms) && sid in Relay.Members(EndToEnd.Relayed(s, i, ms), d)
    ensures Of(ToldBy(s, i, ms, sid), d) == Of(ms, d)
  {
    if ms != [] {
      var n := |ms| - 1;
      var so := EndToEnd.Relayed(s, i, ms[..n]);
      assert sid in Relay.Members(so, d);
      ToldAll(s, i, ms[..n], sid, d);
      OfSnoc(ToldBy(s, i, ms[..n], sid), ms[n], d);
    }
  }

  /** What a viewer has been told of a device, and what is on the way to it. */
  ghost function Account(kernels: Relay.Kernels, run: seq<Event>, sid: Sid, d: Device): seq<Message>
    requires Possible(kernels, run)
  {
    Of(Told(kernels, run, sid), d) + Of(OnTheWay(Run(kernels, run).chain.link), d)
  }

  lemma DeliveredIsOnTheWay(link: EndToEnd.Epoch, m: Message, d: Device)
    requires Legal(m) && link.seen <= |link.source.ms|
    ensures var after := link.(source := EndToEnd.AfterDelivery(link.source, m));
            Of(OnTheWay(after), d) == Of(OnTheWay(link), d) + if m.device == d then [m] else []
  {
    OfSnoc(OnTheWay(link), m, d);
    assert (link.source.ms + [m])[link.seen..] == OnTheWay(link) + [m];
  }

  lemma PublishAccounts(kernels: Relay.Kernels, w: Whole, m: Message, broken: set<Sid>, sid: Sid, d: Device)
    requires Steady(w, sid, d) && Coupled(w) && Legal(m) && w.chain.link.seen <= |w.chain.link.source.ms|
    ensures Of(OnTheWay(Publish(kernels, w, m, broken).chain.link), d)
         == Of(OnTheWay(w.chain.link), d) + if m.device == d then [m] else []
  {
    if Gets(w, m.device) {
      DeliveredIsOnTheWay(w.chain.link, m, d);
    } else {
      assert m.device != d;
      assert Of(OnTheWay(w.chain.link), d) + [] == Of(OnTheWay(w.chain.link), d);
    }
  }

  lemma OfSplit(ms: seq<Message>, i: nat, k: nat, d: Device)
    requires i + k <= |ms|
    ensures Of(ms[i..], d) == Of(ms[i..i + k], d) + Of(ms[i + k..], d)
  {
    assert ms[i..] == ms[i..i + k] + ms[i + k..];
    OfAppend(ms[i..i + k], ms[i + k..], d);
  }

  /** A read hands on the messages it completes, and no longer has them on the way. */
  lemma ReadMoves(kernels: Relay.Kernels, chain: EndToEnd.Chain, n: nat, after: seq<byte>)
    requires EndToEnd.Inv(chain) && EndToEnd.Enabled(chain, EndToEnd.Reads(n, after))
    ensures var link, moved := chain.link, EndToEnd.Step(kernels, chain, EndToEnd.Reads(n, after));
            && moved.link.source == link.source && moved.link.seen == link.seen + EndToEnd.Completes(link, n)
            && moved.viewers == EndToEnd.Relayed(chain.viewers, link.seen, CompletedBy(link, n))
  {
    EndToEnd.ReadRelays(kernels, chain, n, after);
  }

  lemma LinkLeaves(before: EndToEnd.Epoch, after: EndToEnd.Epoch, k: nat, d: Device)
    requires AllLegal(before.source.ms) && after.source.ms == before.source.ms
    requires before.seen + k == after.seen <= |before.source.ms|
    ensures Of(OnTheWay(before), d) == Of(EndToEnd.Stretch(before.source.ms, before.seen, k), d) + Of(OnTheWay(after), d)
  {
    OfSplit(before.source.ms, before.seen, k, d);
  }

  lemma ReadLeaves(kernels: Relay.Kernels, chain: EndToEnd.Chain, n: nat, after: seq<byte>, d: Device)
    requires EndToEnd.Inv(chain) && EndToEnd.Enabled(chain, EndToEnd.Reads(n, after))
    ensures Of(OnTheWay(chain.link), d)
         == Of(CompletedBy(chain.link, n), d) + Of(OnTheWay(EndToEnd.Step(kernels, chain, EndToEnd.Reads(n, after)).link), d)
  {
    ReadMoves(kernels, chain, n, after);
    var moved := EndToEnd.Step(kernels, chain, EndToEnd.Reads(n, after)).link;
    LinkLeaves(chain.link, moved, EndToEnd.Completes(chain.link, n), d);
  }

  lemma ReadTells(kernels: Relay.Kernels, chain: EndToEnd.Chain, n: nat, after: seq<byte>, sid: Sid, d: Device)
    requires EndToEnd.Inv(chain) && EndToEnd.Enabled(chain, EndToEnd.Reads(n, after))
    requires Sits(EndToEnd.Step(kernels, chain, EndToEnd.Reads(n, after)).viewers.pc, sid, d)
    ensures Of(ToldBy(chain.viewers, chain.link.seen, CompletedBy(chain.link, n), sid), d) == Of(CompletedBy(chain.link, n), d)
  {
    ReadMoves(kernels, chain, n, after);
    ToldAll(chain.viewers, chain.link.seen, CompletedBy(chain.link, n), sid, d);
  }

  /** What a read completes is told and no longer on the way. */
  lemma ReadAccounts(kernels: Relay.Kernels, w: Whole, n: nat, after: seq<byte>, sid: Sid, d: Device)
    requires EndToEnd.Inv(w.chain) && Enabled(w, Reads(n, after)) && Sits(Step(kernels, w, Reads(n, after)).sys.pc, sid, d)
    ensures Of(ToldIn(w, Reads(n, after), sid), d) + Of(OnTheWay(Step(kernels, w, Reads(n, after)).chain.link), d)
         == Of(OnTheWay(w.chain.link), d)
  {
    ReadLeaves(kernels, w.chain, n, after, d);
    ReadTells(kernels, w.chain, n, after, sid, d);
  }

  lemma OnePublished(e: Event, d: Device)
    ensures Published([e], d) == if e.Publishes? && e.message.device == d then [e.message] else []
  {
    assert [e][..0] == [] && Published([], d) == [];
  }

  lemma InStepSees(link: EndToEnd.Epoch)
    requires EndToEnd.InStep(link)
    ensures link.seen <= |link.source.ms|
  {
  }

  /** In every step what is told and what is on the way grow by what is published, and by
      nothing else. */
  lemma StepBalances(kernels: Relay.Kernels, w: Whole, e: Event, sid: Sid, d: Device)
    requires Coupled(w) && EndToEnd.Inv(w.chain) && Enabled(w, e) && Steady(w, sid, d) && Stands(Step(kernels, w, e), sid, d)
    ensures Of(ToldIn(w, e, sid), d) + Of(OnTheWay(Step(kernels, w, e).chain.link), d)
         == Of(OnTheWay(w.chain.link), d) + Published([e], d)
  {
    OnePublished(e, d);
    InStepSees(w.chain.link);
    match e
    case Publishes(m, broken) => PublishAccounts(kernels, w, m, broken, sid, d);
    case Reads(n, after) => ReadAccounts(kernels, w, n, after, sid, d);
    case _ =>
  }

  lemma Balanced<T>(told: seq<T>, more: seq<T>, left: seq<T>, way: seq<T>, published: seq<T>)
    requires more + left == way + published
    ensures told + more + left == told + way + published
  {
    assert told + more + left == told + (more + left);
  }

  lemma StepAccounts(kernels: Relay.Kernels, run: seq<Event>, sid: Sid, d: Device)
    requires Possible(kernels, run) && run != [] && Steady(Run(kernels, run[..|run| - 1]), sid, d)
    requires Stands(Run(kernels, run), sid, d)
    ensures var n := |run| - 1;
            Account(kernels, run, sid, d) == Account(kernels, run[..n], sid, d) + Published([run[n]], d)
  {
    var n := |run| - 1;
    var w, told := Run(kernels, run[..n]), Told(kernels, run[..n], sid);
    RunCouples(kernels, run[..n]);
    ChainInv(kernels, run[..n]);
    StepBalances(kernels, w, run[n], sid, d);
    OfAppend(told, ToldIn(w, run[n], sid), d);
    Balanced(Of(told, d), Of(ToldIn(w, run[n], sid), d), Of(OnTheWay(Run(kernels, run).chain.link), d),
             Of(OnTheWay(w.chain.link), d), Published([run[n]], d));
  }

  /** From number `from` on the viewer stands in the channel after every event, on a connection
      that is served, and does nothing itself. */
  ghost predicate Stays(kernels: Relay.Kernels, run: seq<Event>, from: nat, sid: Sid, d: Device)
    requires Possible(kernels, run) && from <= |run|
  {
    if |run| == from then Steady(Run(kernels, run), sid, d)
    else
      var n := |run| - 1;
      Stands(Run(kernels, run), sid, d) && !IsOwn(run[n], sid) && Stays(kernels, run[..n], from, sid, d)
  }

  lemma StayStep(kernels: Relay.Kernels, run: seq<Event>, sid: Sid, d: Device)
    requires Possible(kernels, run) && run != [] && Steady(Run(kernels, run[..|run| - 1]), sid, d)
    requires Stands(Run(kernels, run), sid, d) && !IsOwn(run[|run| - 1], sid)
    ensures Steady(Run(kernels, run), sid, d)
  {
    var n := |run| - 1;
    RunCouples(kernels, run[..n]);
    ChainInv(kernels, run[..n]);
    StaysSteady(kernels, Run(kernels, run[..n]), run[n], sid, d);
  }

  /** It goes on being served. */
  lemma {:induction false} StaysServed(kernels: Relay.Kernels, run: seq<Event>, from: nat, sid: Sid, d: Device)
    requires Possible(kernels, run) && from <= |run| && Stays(kernels, run, from, sid, d)
    ensures Steady(Run(kernels, run), sid, d)
  {
    if |run| > from {
      StaysServed(kernels, run[..|run| - 1], from, sid, d);
      StayStep(kernels, run, sid, d);
    }
  }

  lemma PublishedFrom(run: seq<Event>, from: nat, d: Device)
    requires from < |run|
    ensures var n := |run| - 1; Published(run[from..], d) == Published(run[..n][from..], d) + Published([run[n]], d)
  {
    var n := |run| - 1;
    PublishedSnoc(run[..n][from..], run[n], d);
    assert run[from..] == run[..n][from..] + [run[n]];
  }

  /** Conservation for a viewer that stays: every message published for its device, from the
      beginning of its stay on and through whatever else happens, is told to it, in order and
      each once, or still on the way. */
  lemma {:induction false} NothingMissed(kernels: Relay.Kernels, run: seq<Event>, from: nat, sid: Sid, d: Device)
    requires Possible(kernels, run) && from <= |run| && Stays(kernels, run, from, sid, d)
    requires Possible(kernels, run[..from])
    ensures Account(kernels, run, sid, d) == Account(kernels, run[..from], sid, d) + Published(run[from..], d)
  {
    if |run| == from {
      assert run[..from] == run && run[from..] == [];
    } else {
      var n := |run| - 1;
      assert run[..n][..from] == run[..from];
      NothingMissed(kernels, run[..n], from, sid, d);
      StaysServed(kernels, run[..n], from, sid, d);
      StepAccounts(kernels, run, sid, d);
      PublishedFrom(run, from, d);
      Gathered(Account(kernels, run[..from], sid, d), Published(run[..n][from..], d), Published([run[n]], d));
    }
  }

  lemma Gathered<T>(a: seq<T>, b: seq<T>, c: seq<T>)
    ensures a + b + c == a + (b + c)
  {
  }

  lemma PublishedSnoc(run: seq<Event>, e: Event, d: Device)
    ensures Published(run + [e], d) == Published(run, d) + Published([e], d)
  {
    assert (run + [e])[..|run|] == run && [e][..0] == [];
  }

  /** So once every byte on the wire has been read and none waits to be sent, it has been told
      exactly what was on the way at first and everything published since; and that is what the
      frames carry that its connection carries. */
  lemma GetsEverything(kernels: Relay.Kernels, run: seq<Event>, from: nat, sid: Sid, d: Device)
    requires Possible(kernels, run) && from <= |run| && Stays(kernels, run, from, sid, d)
    requires Possible(kernels, run[..from])
    requires var link := Run(kernels, run).chain.link;
             link.read == |link.source.sub.sock.wire| && link.source.sub.sock.pending == []
    ensures Of(Told(kernels, run, sid), d) == Account(kernels, run[..from], sid, d) + Published(run[from..], d)
  {
    NothingMissed(kernels, run, from, sid, d);
    StaysServed(kernels, run, from, sid, d);
    RunCouples(kernels, run);
    ChainRuns(kernels, run);
    EndToEnd.NothingWithheld(kernels, Chained(kernels, run));
    assert OnTheWay(Run(kernels, run).chain.link) == [];
    assert Of(Told(kernels, run, sid), d) + [] == Of(Told(kernels, run, sid), d);
  }

  /** What a viewer is told is on its wire: its connection carries frames that carry exactly
      those messages. */
  lemma ToldIsCarried(kernels: Relay.Kernels, run: seq<Event>, sid: Sid) returns (frames: seq<Ipc.Packet>)
    requires Possible(kernels, run) && sid in Run(kernels, run).chain.viewers.socks
    ensures Carry(frames, Told(kernels, run, sid)) && Carries(Run(kernels, run).chain.viewers.socks[sid], frames)
  {
    ChainRuns(kernels, run);
    HeardIsTold(kernels, run, sid);
    frames := EndToEnd.Heard(kernels, Chained(kernels, run), sid);
    EndToEnd.ViewerGets(kernels, Chained(kernels, run), sid);
  }
}
