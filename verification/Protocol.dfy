/** The subscription protocol end to end: viewers, the viewer server, its connection to the
    forwarding server with requests on the way, that server's other peers, and the breaking and
    remaking of the connection, as one transition system. */
module Protocol {
  import opened DeviceId
  import opened Ids
  import opened IpcPktType
  import opened PcModel
  import opened Tables
  import Effects = PcEffects
  import Fwd = ForwardModel
  import FwdEffects = ForwardEffects

  /** The forwarding server's end of the present connection. */
  datatype Health = Healthy | Unwritable | Gone

  /** `session` is the forwarding server's number for the present connection, which has taken
      in the first `taken` of the requests sent on it. Numbers from `nextSession` on are
      unused. `exact` says that every device watched when the connection came up has an id that
      can be printed. */
  datatype Sys = Sys(pc: PcState, fwd: Fwd.FwdState, session: Sid, nextSession: Sid, taken: nat, health: Health, exact: bool)

  datatype Event =
    | ViewerConnects(sid: Sid)
    | ViewerSends(sid: Sid, pktType: nat, data: string)
    | ViewerFails(sid: Sid)
    | ConnectTimer(ok: bool)
    | ConnectDone(ok: bool)
    | ConnectionLost
    | HeartbeatTimer
    | FrameToViewers(device: Device, broken: set<Sid>)
    | RequestArrives
    | SessionFails
    | PeerConnects
    | PeerActs(event: Fwd.Event)

  ghost const START := Sys(PcModel.START, Fwd.START, 0, 0, 0, Healthy, true)

  /** A peer's requests and failure come on its own session. The forwarding server may find a
      dead session, the present one or one long replaced, at any time. */
  ghost predicate PeerMay(s: Sys, e: Fwd.Event) {
    match e
    case SubscribeRequest(sid, _, _) => sid < s.nextSession && (s.pc.link.Up? ==> sid != s.session)
    case UnsubscribeRequest(sid, _) => sid < s.nextSession && (s.pc.link.Up? ==> sid != s.session)
    case SessionError(sid) => sid < s.nextSession && (s.pc.link.Up? ==> sid != s.session)
    case Frame(_, _) => true
  }

  ghost predicate Enabled(s: Sys, e: Event) {
    match e
    case ViewerConnects(sid) => sid !in s.pc.viewers
    case ViewerSends(sid, _, _) => sid in s.pc.viewers
    case ViewerFails(sid) => sid in s.pc.viewers
    case ConnectTimer(_) => s.pc.link.Down?
    case ConnectDone(_) => s.pc.link.Connecting?
    case ConnectionLost => s.pc.link.Up?
    case HeartbeatTimer => true
    case FrameToViewers(_, _) => true
    case RequestArrives => s.pc.link.Up? && !s.health.Gone? && s.taken < |s.pc.sent|
    case SessionFails => s.pc.link.Up? && !s.health.Gone?
    case PeerConnects => true
    case PeerActs(event) => PeerMay(s, event)
  }

  /** The forwarding server takes in a request. */
  ghost function Received(fwd: Fwd.FwdState, sid: Sid, r: Request): Fwd.FwdState {
    if TypeOf(r.pktType) == IPC_PKT_TYPE_SUBSCRIBE_DEVICE_ID then
      Fwd.Step(fwd, Fwd.SubscribeRequest(sid, r.pktType, Parse(r.data)))
    else if TypeOf(r.pktType) == IPC_PKT_TYPE_UNSUBSCRIBE_DEVICE_ID then
      Fwd.Step(fwd, Fwd.UnsubscribeRequest(sid, Parse(r.data)))
    else fwd
  }

  /** A frame that finds the present session unwritable drops it from that channel. */
  ghost predicate Hits(s: Sys, e: Fwd.Event) {
    e.Frame? && s.session in e.broken && e.device in s.fwd.channels && s.session in s.fwd.channels[e.device]
  }

  ghost function Step(s: Sys, e: Event): Sys
    requires Enabled(s, e)
  {
    match e
    case ViewerConnects(sid) => s.(pc := NewViewer(s.pc, sid))
    case ViewerSends(sid, pktType, data) => s.(pc := ViewerPacket(s.pc, sid, pktType, data))
    case ViewerFails(sid) => s.(pc := ViewerError(s.pc, sid))
    case ConnectTimer(ok) => s.(pc := Dial(s.pc, ok))
    case ConnectDone(ok) =>
      if ok then Sys(ClientConnect(s.pc, ok), s.fwd, s.nextSession, s.nextSession + 1, 0, Healthy, AllPrintable(Watched(s.pc.channels)))
      else s.(pc := ClientConnect(s.pc, ok))
    case ConnectionLost => s.(pc := ClientError(s.pc))
    case HeartbeatTimer => s.(pc := Heartbeat(s.pc))
    case FrameToViewers(d, broken) => s.(pc := Publish(s.pc, d, broken))
    case RequestArrives => s.(fwd := Received(s.fwd, s.session, s.pc.sent[s.taken]), taken := s.taken + 1)
    case SessionFails => s.(fwd := Fwd.Step(s.fwd, Fwd.SessionError(s.session)), health := Gone)
    case PeerConnects => s.(nextSession := s.nextSession + 1)
    case PeerActs(event) =>
      s.(fwd := Fwd.Step(s.fwd, event), health := if Hits(s, event) && s.health.Healthy? then Unwritable else s.health)
  }

  ghost predicate Possible(events: seq<Event>)
    decreases |events|, 0
  {
    events == [] || var n := |events| - 1; Possible(events[..n]) && Enabled(Run(events[..n]), events[n])
  }

  ghost function Run(events: seq<Event>): Sys
    requires Possible(events)
    decreases |events|, 1
  {
    if events == [] then START else Step(Run(events[..|events| - 1]), events[|events| - 1])
  }

  // ---- What the forwarding server has this session down for ----

  ghost function Membership(fwd: Fwd.FwdState, sid: Sid): set<Device> {
    set d | d in fwd.channels && sid in fwd.channels[d]
  }

  ghost predicate SessionsBelow(fwd: Fwd.FwdState, bound: Sid) {
    forall d, sid :: d in fwd.channels && sid in fwd.channels[d] ==> sid < bound
  }

  /** Releasing empty channels takes no session out of one. */
  lemma ReleaseMembership(fwd: Fwd.FwdState, sid: Sid)
    ensures Membership(Fwd.Release(fwd), sid) == Membership(fwd, sid)
  {
    forall d | d in Membership(fwd, sid) ensures d !in Empties(fwd.channels) {
      assert sid in fwd.channels[d];
    }
  }

  lemma SubscribeMembership(fwd: Fwd.FwdState, sid: Sid, pktType: nat, d: Device)
    ensures Membership(Fwd.Subscribe(fwd, sid, pktType, d), sid) == Membership(fwd, sid) + {d}
  {
  }

  lemma UnsubscribeMembership(fwd: Fwd.FwdState, sid: Sid, d: Device)
    ensures Membership(Fwd.Unsubscribe(fwd, sid, d), sid) == Membership(fwd, sid) - {d}
  {
    var without := fwd.(channels := Without(fwd.channels, d, sid));
    ReleaseMembership(without, sid);
    assert Membership(without, sid) == Membership(fwd, sid) - {d};
  }

  /** Taking in a request changes what the session is down for exactly as the request says. */
  lemma ReceivedMembership(fwd: Fwd.FwdState, sid: Sid, r: Request, bound: Sid)
    requires sid < bound && SessionsBelow(fwd, bound)
    ensures Membership(Received(fwd, sid, r), sid) == Applied(Membership(fwd, sid), r)
    ensures SessionsBelow(Received(fwd, sid, r), bound)
  {
    if TypeOf(r.pktType) == IPC_PKT_TYPE_SUBSCRIBE_DEVICE_ID {
      SubscribeMembership(fwd, sid, r.pktType, Parse(r.data));
    } else if TypeOf(r.pktType) == IPC_PKT_TYPE_UNSUBSCRIBE_DEVICE_ID {
      UnsubscribeMembership(fwd, sid, Parse(r.data));
    }
  }

  /** A frame that does not find the session unwritable, or something on another session. */
  ghost predicate Elsewhere(fwd: Fwd.FwdState, sid: Sid, e: Fwd.Event) {
    if e.Frame? then !(sid in e.broken && e.device in fwd.channels && sid in fwd.channels[e.device]) else e.sid != sid
  }

  /** Nothing that happens elsewhere changes what this session is down for. */
  lemma OthersDoNotMatter(fwd: Fwd.FwdState, sid: Sid, e: Fwd.Event)
    requires Elsewhere(fwd, sid, e)
    ensures Membership(Fwd.Step(fwd, e), sid) == Membership(fwd, sid)
  {
    match e
    case SubscribeRequest(_, _, _) =>
    case UnsubscribeRequest(other, d) =>
      var without := fwd.(channels := Without(fwd.channels, d, other));
      ReleaseMembership(without, sid);
      assert Membership(without, sid) == Membership(fwd, sid);
    case SessionError(other) =>
      var without := fwd.(channels := WithoutAnywhere(fwd.channels, other));
      ReleaseMembership(without, sid);
      assert Membership(without, sid) == Membership(fwd, sid);
    case Frame(_, _) =>
  }

  lemma StaysBelow(fwd: Fwd.FwdState, e: Fwd.Event, bound: Sid)
    requires SessionsBelow(fwd, bound) && (e.SubscribeRequest? ==> e.sid < bound)
    ensures SessionsBelow(Fwd.Step(fwd, e), bound)
  {
  }

  // ---- The invariant ----

  /** The server has the session down for no more than the requests it has taken in say, for
      exactly that while it is healthy, and for nothing once it has found it dead. */
  ghost predicate Linked(s: Sys) {
    && s.session < s.nextSession && s.taken <= |s.pc.sent|
    && Membership(s.fwd, s.session) <= Fold({}, s.pc.sent[..s.taken])
    && (s.health.Healthy? ==> Membership(s.fwd, s.session) == Fold({}, s.pc.sent[..s.taken]))
    && (s.health.Gone? ==> Membership(s.fwd, s.session) == {})
  }

  ghost predicate SysInv(s: Sys) {
    && Viewing(s.pc, s.exact) && Fwd.Inv(s.fwd) && SessionsBelow(s.fwd, s.nextSession)
    && (s.pc.link.Up? ==> Linked(s))
  }

  /** The viewers' side: the tables agree in any case, and the subscriptions with them on a
      connection that came up exact. */
  ghost predicate Viewing(pc: PcState, exact: bool) { TablesAgree(pc) && (exact ==> PcModel.Inv(pc)) }

  /** What happens at the viewers' side while connected: the requests taken in are still the
      first ones sent. */
  lemma ExtendsKeeps(s: Sys, pc: PcState)
    requires SysInv(s) && Viewing(pc, s.exact) && Extends(s.pc, pc)
    ensures SysInv(s.(pc := pc))
  {
    if s.pc.link.Up? {
      assert pc.sent[..s.taken] == s.pc.sent[..s.taken];
    }
  }

  lemma ViewerSendsKeeps(s: Sys, sid: Sid, pktType: nat, data: string)
    requires SysInv(s) && sid in s.pc.viewers
    ensures SysInv(Step(s, ViewerSends(sid, pktType, data)))
  {
    ViewerPacketTables(s.pc, sid, pktType, data);
    if s.exact {
      ViewerPacketKeeps(s.pc, sid, pktType, data);
    }
    ViewerPacketExtends(s.pc, sid, pktType, data);
    ExtendsKeeps(s, ViewerPacket(s.pc, sid, pktType, data));
  }

  lemma ViewerFailsKeeps(s: Sys, sid: Sid)
    requires SysInv(s) && sid in s.pc.viewers
    ensures SysInv(Step(s, ViewerFails(sid)))
  {
    ViewerErrorTables(s.pc, sid);
    if s.exact {
      ViewerErrorKeeps(s.pc, sid);
    }
    UnsubscribeExtends(s.pc, sid);
    ExtendsKeeps(s, ViewerError(s.pc, sid));
  }

  lemma ViewerSideKeeps(s: Sys, e: Event)
    requires SysInv(s) && Enabled(s, e)
    requires e.ViewerConnects? || e.ViewerSends? || e.ViewerFails? || e.HeartbeatTimer? || e.FrameToViewers?
    ensures SysInv(Step(s, e))
  {
    match e
    case ViewerSends(sid, pktType, data) => ViewerSendsKeeps(s, sid, pktType, data);
    case ViewerFails(sid) => ViewerFailsKeeps(s, sid);
    case ViewerConnects(sid) =>
      NewViewerTables(s.pc, sid);
      if s.exact {
        NewViewerKeeps(s.pc, sid);
      }
      ExtendsKeeps(s, NewViewer(s.pc, sid));
    case HeartbeatTimer =>
      if s.exact {
        HeartbeatKeeps(s.pc);
      }
      SendExtends(s.pc, IPC_PKT_TYPE_HEARTBEAT, "");
      ExtendsKeeps(s, Heartbeat(s.pc));
    case FrameToViewers(d, broken) =>
      if s.exact {
        PublishKeeps(s.pc, d, broken);
      }
      ExtendsKeeps(s, Publish(s.pc, d, broken));
  }

  /** A new session starts with no membership and no request taken. */
  lemma ConnectKeeps(s: Sys, ok: bool)
    requires SysInv(s) && Enabled(s, ConnectDone(ok))
    ensures SysInv(Step(s, ConnectDone(ok)))
  {
    LinkDownKeeps(s.pc);
    if ok {
      ReconnectExact(s.pc);
      assert Membership(s.fwd, s.nextSession) == {};
    }
  }

  /** It starts with the right requests if and only if it comes up exact. */
  lemma ConnectsRightly(s: Sys)
    requires SysInv(s) && Enabled(s, ConnectDone(true))
    ensures Sandwiched(Step(s, ConnectDone(true)).pc) <==> Step(s, ConnectDone(true)).exact
  {
    ReconnectExact(s.pc);
  }

  lemma RequestKeeps(s: Sys)
    requires SysInv(s) && Enabled(s, RequestArrives)
    ensures SysInv(Step(s, RequestArrives))
  {
    var r := s.pc.sent[s.taken];
    ReceivedMembership(s.fwd, s.session, r, s.nextSession);
    assert s.pc.sent[..s.taken + 1] == s.pc.sent[..s.taken] + [r];
    FoldSnoc({}, s.pc.sent[..s.taken], r);
    if TypeOf(r.pktType) == IPC_PKT_TYPE_SUBSCRIBE_DEVICE_ID {
      Fwd.StepKeeps(s.fwd, Fwd.SubscribeRequest(s.session, r.pktType, Parse(r.data)));
    } else if TypeOf(r.pktType) == IPC_PKT_TYPE_UNSUBSCRIBE_DEVICE_ID {
      Fwd.StepKeeps(s.fwd, Fwd.UnsubscribeRequest(s.session, Parse(r.data)));
    }
  }

  lemma PeerKeeps(s: Sys, event: Fwd.Event)
    requires SysInv(s) && PeerMay(s, event)
    ensures SysInv(Step(s, PeerActs(event)))
  {
    if s.pc.link.Up? {
      if Hits(s, event) {
        assert Membership(Fwd.Step(s.fwd, event), s.session) <= Membership(s.fwd, s.session);
      } else {
        OthersDoNotMatter(s.fwd, s.session, event);
      }
    }
    StaysBelow(s.fwd, event, s.nextSession);
    Fwd.StepKeeps(s.fwd, event);
  }

  lemma SessionFailsKeeps(s: Sys)
    requires SysInv(s) && Enabled(s, SessionFails)
    ensures SysInv(Step(s, SessionFails))
  {
    var without := s.fwd.(channels := WithoutAnywhere(s.fwd.channels, s.session));
    ReleaseMembership(without, s.session);
    assert Membership(without, s.session) == {};
    StaysBelow(s.fwd, Fwd.SessionError(s.session), s.nextSession);
    Fwd.StepKeeps(s.fwd, Fwd.SessionError(s.session));
  }

  lemma StepKeeps(s: Sys, e: Event)
    requires SysInv(s) && Enabled(s, e)
    ensures SysInv(Step(s, e))
  {
    match e
    case ConnectTimer(_) => LinkDownKeeps(s.pc);
    case ConnectDone(ok) => ConnectKeeps(s, ok);
    case ConnectionLost => LinkDownKeeps(s.pc);
    case RequestArrives => RequestKeeps(s);
    case SessionFails => SessionFailsKeeps(s);
    case PeerConnects =>
    case PeerActs(event) => PeerKeeps(s, event);
    case _ => ViewerSideKeeps(s, e);
  }

  lemma {:induction false} RunKeeps(events: seq<Event>)
    requires Possible(events)
    ensures SysInv(Run(events))
  {
    if events == [] {
      Fwd.RunKeeps([]);
    } else {
      RunKeeps(events[..|events| - 1]);
      StepKeeps(Run(events[..|events| - 1]), events[|events| - 1]);
    }
  }

  // ---- What the invariant gives ----

  /** What the forwarding server has the session down for, with the requests still on the way
      applied in order, is exactly what the viewer server believes it is subscribed to. */
  ghost predicate EndsAgree(s: Sys) {
    s.taken <= |s.pc.sent| && Fold(Membership(s.fwd, s.session), s.pc.sent[s.taken..]) == Believed(s.pc)
  }

  lemma FoldSplit(rs: seq<Request>, n: nat)
    requires n <= |rs|
    ensures Fold(Fold({}, rs[..n]), rs[n..]) == Fold({}, rs)
  {
    assert rs == rs[..n] + rs[n..];
    FoldAppend({}, rs[..n], rs[n..]);
  }

  lemma AgreementHolds(s: Sys)
    requires SysInv(s) && s.pc.link.Up? && s.health.Healthy?
    ensures EndsAgree(s)
  {
    FoldSplit(s.pc.sent, s.taken);
  }

  /** End-to-end agreement: over every run, while the connection stands and the forwarding
      server has not given up on it, the two ends agree; and on a connection that came up exact
      what the viewer server believes covers every watched device and nothing that no live
      viewer has recorded. */
  lemma Agreement(events: seq<Event>)
    requires Possible(events) && Run(events).pc.link.Up?
    ensures Run(events).exact ==> Sandwiched(Run(events).pc)
    ensures Run(events).health.Healthy? ==> EndsAgree(Run(events))
  {
    RunKeeps(events);
    if Run(events).health.Healthy? {
      AgreementHolds(Run(events));
    }
  }

  /** A session in a channel of the forwarding server gets that device's frames. */
  ghost predicate Joined(s: Sys, d: Device) {
    d in s.fwd.channels && s.session in s.fwd.channels[d]
  }

  /** Nobody is starved: every device somebody watches is served to this session. And nothing
      leaks: every device served to it is recorded by a live viewer. */
  ghost predicate NeitherStarvedNorLeaking(s: Sys) {
    && (forall d :: d in s.pc.channels && s.pc.channels[d] != {} ==> Joined(s, d))
    && (forall d :: Joined(s, d) ==> Recorded(s.pc.viewers, d))
  }

  /** Every device this session gets is one the requests taken in ask for; once they are all in,
      one that a live viewer has recorded, on a connection that came up exact; and a session
      found dead gets nothing. */
  ghost predicate NotLeaking(s: Sys) {
    && s.taken <= |s.pc.sent|
    && (forall d :: Joined(s, d) ==> d in Fold({}, s.pc.sent[..s.taken]) && !s.health.Gone?)
    && (s.exact && s.taken == |s.pc.sent| ==> forall d :: Joined(s, d) ==> Recorded(s.pc.viewers, d))
  }

  lemma NotLeakingHolds(s: Sys)
    requires SysInv(s) && s.pc.link.Up?
    ensures NotLeaking(s)
  {
    forall d | Joined(s, d) ensures d in Membership(s.fwd, s.session) {
    }
    if s.taken == |s.pc.sent| {
      assert s.pc.sent[..s.taken] == s.pc.sent;
    }
  }

  /** Nothing leaks in any state of a standing connection, whatever the forwarding server has
      found out about it. */
  lemma NothingLeaks(events: seq<Event>)
    requires Possible(events) && Run(events).pc.link.Up?
    ensures NotLeaking(Run(events))
  {
    RunKeeps(events);
    NotLeakingHolds(Run(events));
  }

  lemma JoinedIfBelieved(s: Sys, d: Device)
    requires SysInv(s) && s.pc.link.Up? && s.health.Healthy? && s.taken == |s.pc.sent|
    ensures Joined(s, d) <==> d in Believed(s.pc)
  {
    assert s.pc.sent[..s.taken] == s.pc.sent;
    assert d in Membership(s.fwd, s.session) <==> Joined(s, d);
  }

  /** With every request taken in, the session gets what the viewer server believes, so all is
      well exactly when that is. */
  lemma DrainedServes(s: Sys)
    requires SysInv(s) && s.pc.link.Up? && s.health.Healthy? && s.taken == |s.pc.sent|
    ensures NeitherStarvedNorLeaking(s) <==> Sandwiched(s.pc)
  {
    forall d ensures Joined(s, d) <==> d in Believed(s.pc) {
      JoinedIfBelieved(s, d);
    }
    assert forall d :: d in Watched(s.pc.channels) <==> d in s.pc.channels && s.pc.channels[d] != {};
  }

  /** So it is over every run once every request has arrived, after any number of reconnects, if
      the last one came up exact. */
  lemma Drained(events: seq<Event>)
    requires Possible(events) && Run(events).pc.link.Up? && Run(events).health.Healthy?
    requires Run(events).taken == |Run(events).pc.sent|
    ensures Run(events).exact ==> NeitherStarvedNorLeaking(Run(events))
  {
    RunKeeps(events);
    DrainedServes(Run(events));
  }

  /** Requests arriving one after another until none is on the way. */
  ghost function AllArrive(s: Sys): Sys
    decreases |s.pc.sent| - s.taken
  {
    if Enabled(s, RequestArrives) then AllArrive(Step(s, RequestArrives)) else s
  }

  /** A standing connection can always drain: letting the requests on the way arrive, and
      nothing else, changes nothing at the viewers' side and ends, if it came up exact, with
      every watched device served to this session. */
  lemma {:induction false} CanDrain(s: Sys)
    requires SysInv(s) && s.pc.link.Up? && s.health.Healthy?
    ensures var s' := AllArrive(s);
            && SysInv(s') && s'.pc == s.pc && s'.session == s.session && s'.health.Healthy?
            && s'.taken == |s'.pc.sent| && s'.exact == s.exact
            && (s.exact ==> NeitherStarvedNorLeaking(s'))
    decreases |s.pc.sent| - s.taken
  {
    if s.taken < |s.pc.sent| {
      RequestKeeps(s);
      CanDrain(Step(s, RequestArrives));
    } else {
      DrainedServes(s);
    }
  }

  lemma NextArrives(s: Sys) returns (next: Sys)
    requires s.pc.link.Up? && s.health.Healthy? && s.taken < |s.pc.sent|
    ensures Enabled(s, RequestArrives) && next == Step(s, RequestArrives)
    ensures next.pc == s.pc && next.health.Healthy? && next.taken == s.taken + 1 && AllArrive(next) == AllArrive(s)
  {
    next := Step(s, RequestArrives);
  }

  lemma NoneToArrive(s: Sys)
    requires s.taken == |s.pc.sent|
    ensures AllArrive(s) == s
  {
  }

  // ---- What requests do at the forwarding server ----

  /** Its requests go by their low byte, for the device that their string names. */
  lemma ReceivedAs(fwd: Fwd.FwdState, sid: Sid, r: Request)
    ensures r.pktType % 0x100 == 2 ==> Received(fwd, sid, r) == Fwd.Step(fwd, Fwd.SubscribeRequest(sid, r.pktType, Parse(r.data)))
    ensures r.pktType % 0x100 == 3 ==> Received(fwd, sid, r) == Fwd.Step(fwd, Fwd.UnsubscribeRequest(sid, Parse(r.data)))
    ensures r.pktType % 0x100 != 2 && r.pktType % 0x100 != 3 ==> Received(fwd, sid, r) == fwd
  {
  }

  /** The viewer server signs everything it sends. */
  ghost predicate Signed(sent: seq<Request>) {
    forall r :: r in sent ==> r.pktType in {0x3_0001, 0x3_0002, 0x3_0003}
  }

  lemma ViewerPacketSigns(st: PcState, sid: Sid, pktType: nat, data: string)
    requires TablesAgree(st) && sid in st.viewers && Signed(st.sent)
    ensures Signed(ViewerPacket(st, sid, pktType, data).sent)
  {
    if st.link.Up? && pktType % 0x100 == 2 {
      Effects.SubscribeSays(st, sid, pktType, data);
    } else if st.link.Up? && pktType % 0x100 == 3 {
      Effects.UnsubscribePlaces(st, sid, pktType, data, 0, 0);
    } else {
      Effects.ElseIgnored(st, sid, pktType, data);
    }
  }

  lemma ReconnectSigns(st: PcState, ok: bool)
    ensures Signed(ClientConnect(st, ok).sent)
  {
    if ok {
      var devices := Effects.ReconnectSays(st);
    }
  }

  lemma StepSigns(s: Sys, e: Event)
    requires SysInv(s) && Enabled(s, e) && Signed(s.pc.sent)
    ensures Signed(Step(s, e).pc.sent)
  {
    match e
    case ViewerSends(sid, pktType, data) => ViewerPacketSigns(s.pc, sid, pktType, data);
    case ViewerFails(sid) => Effects.FailurePlaces(s.pc, sid, 0, 0);
    case ConnectDone(ok) => ReconnectSigns(s.pc, ok);
    case HeartbeatTimer => Effects.HeartbeatSays(s.pc);
    case _ =>
  }

  lemma {:induction false} RunSigns(events: seq<Event>)
    requires Possible(events)
    ensures Signed(Run(events).pc.sent)
  {
    if events != [] {
      var n := |events| - 1;
      RunKeeps(events[..n]);
      RunSigns(events[..n]);
      StepSigns(Run(events[..n]), events[n]);
    }
  }

  /** If this request is to subscribe to a device without a channel, the channel is made with the
      session in it, and the car is opened, once. */
  ghost predicate OpensCar(fwd: Fwd.FwdState, after: Fwd.FwdState, sid: Sid, r: Request, d: Device) {
    r.pktType % 0x100 == 2 && d !in fwd.channels ==>
      after.log == fwd.log + [Fwd.Created(d, false), Fwd.Open(d)] && IsIn(after.channels, d, sid)
  }

  lemma SignedOpensCar(fwd: Fwd.FwdState, sid: Sid, r: Request, d: Device)
    requires r.pktType in {0x3_0001, 0x3_0002, 0x3_0003} && d == Parse(r.data)
    ensures OpensCar(fwd, Received(fwd, sid, r), sid, r, d)
  {
    ReceivedAs(fwd, sid, r);
    FwdEffects.SubscribeSays(fwd, sid, r.pktType, d);
    FwdEffects.SubscribePlaces(fwd, sid, r.pktType, d, d, sid);
  }

  lemma ArrivalOpensCar(s: Sys, r: Request)
    requires Enabled(s, RequestArrives) && Signed(s.pc.sent) && r == s.pc.sent[s.taken]
    ensures OpensCar(s.fwd, Step(s, RequestArrives).fwd, s.session, r, Parse(r.data))
  {
    assert r in s.pc.sent;
    SignedOpensCar(s.fwd, s.session, r, Parse(r.data));
  }

  /** So it is over every run, whichever request of the viewer server arrives. */
  lemma RequestOpensCar(events: seq<Event>)
    requires Possible(events) && Enabled(Run(events), RequestArrives)
    ensures var s := Run(events); var r := s.pc.sent[s.taken];
            OpensCar(s.fwd, Step(s, RequestArrives).fwd, s.session, r, Parse(r.data))
  {
    var s := Run(events);
    RunSigns(events);
    ArrivalOpensCar(s, s.pc.sent[s.taken]);
  }

  /** In any state of a healthy connection, a viewer that subscribes to a device by any string is
      in its channel, and once the requests on the way have arrived the device is served, unless
      others were watching it already and had been left unserved. On a connection that came up
      exact nobody is. */
  lemma SubscriberIsServed(s: Sys, sid: Sid, device: string)
    requires SysInv(s) && s.pc.link.Up? && s.health.Healthy? && sid in s.pc.viewers && device != ""
    ensures var s', d := AllArrive(Step(s, ViewerSends(sid, 0x2, device))), Parse(device);
            && s'.pc.link.Up? && s'.health.Healthy? && s'.taken == |s'.pc.sent| && IsIn(s'.pc.channels, d, sid)
            && (Joined(s', d) <==> (HasOthers(s.pc.channels, d, sid) ==> d in Believed(s.pc)))
            && (s.exact ==> Joined(s', d))
  {
    var asked, d := Step(s, ViewerSends(sid, 0x2, device)), Parse(device);
    ViewerSendsKeeps(s, sid, 0x2, device);
    Effects.SubscribePlaces(s.pc, sid, 0x2, device, d, sid);
    Effects.SubscribeBelieves(s.pc, sid, 0x2, device);
    CanDrain(asked);
    JoinedIfBelieved(AllArrive(asked), d);
    if s.exact && HasOthers(s.pc.channels, d, sid) {
      WatchedIsBelieved(s, d, sid);
    }
  }

  lemma WatchedIsBelieved(s: Sys, d: Device, sid: Sid)
    requires SysInv(s) && s.pc.link.Up? && s.exact && HasOthers(s.pc.channels, d, sid)
    ensures d in Believed(s.pc)
  {
    assert d in Watched(s.pc.channels);
  }

  // ---- A run that starves a viewer ----

  lemma OneMore(events: seq<Event>, e: Event)
    requires Possible(events) && Enabled(Run(events), e)
    ensures Possible(events + [e]) && Run(events + [e]) == Step(Run(events), e)
  {
    assert (events + [e])[..|events|] == events;
  }

  /** A viewer connects and subscribes, the connection is lost and made anew. */
  ghost function Reconnecting(device: string): seq<Event> {
    [] + [ViewerConnects(0)] + [ConnectDone(true)] + [ViewerSends(0, IPC_PKT_TYPE_SUBSCRIBE_DEVICE_ID, device)]
    + [ConnectionLost] + [ConnectTimer(true)] + [ConnectDone(true)]
  }

  lemma ReconnectingRun(device: string)
    requires device != ""
    ensures Possible(Reconnecting(device))
    ensures var s := Run(Reconnecting(device));
            && s.pc == ClientConnect(Redialling(0, device), true) && s.taken == 0 && s.health.Healthy?
  {
    OneMore([], ViewerConnects(0));
    var e1 := [] + [ViewerConnects(0)];
    OneMore(e1, ConnectDone(true));
    var e2 := e1 + [ConnectDone(true)];
    OneMore(e2, ViewerSends(0, IPC_PKT_TYPE_SUBSCRIBE_DEVICE_ID, device));
    var e3 := e2 + [ViewerSends(0, IPC_PKT_TYPE_SUBSCRIBE_DEVICE_ID, device)];
    ViewerPacketExtends(Run(e2).pc, 0, IPC_PKT_TYPE_SUBSCRIBE_DEVICE_ID, device);
    OneMore(e3, ConnectionLost);
    var e4 := e3 + [ConnectionLost];
    OneMore(e4, ConnectTimer(true));
    OneMore(e4 + [ConnectTimer(true)], ConnectDone(true));
  }

  /** And every request it makes arrives: the viewer is served if and only if its id can be
      printed. Fifteen digits are too many, and so is "-1" (`PcModel.TooManyDigits`). */
  lemma ReconnectStarves(device: string)
    requires device != ""
    ensures Possible(Reconnecting(device)) && SysInv(Run(Reconnecting(device)))
    ensures var s := AllArrive(Run(Reconnecting(device)));
            && s.pc.link.Up? && s.health.Healthy? && s.taken == |s.pc.sent|
            && (NeitherStarvedNorLeaking(s) <==> Printable(Parse(device)))
  {
    ReconnectingRun(device);
    RunKeeps(Reconnecting(device));
    var s := Run(Reconnecting(device));
    CanDrain(s);
    DrainedServes(AllArrive(s));
    ReconnectLoses(0, device);
    assert TablesAgree(s.pc);
  }
}
