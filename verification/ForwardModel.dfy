/** What each event does to the forwarding server: which sessions get a device's frames, and
    when the car is told to start and stop sending
    (jt1078/forward_server/ForwardServer.cpp, Publisher.cpp, Channel.cpp). */
module ForwardModel {
  import opened Alternation
  import opened Ids
  import opened IpcPktType
  import opened Ordered
  import opened Tables

  /** The log notes channel creations, and the open and close commands sent for the car. */
  datatype Cmd = Created(device: Device, fromWeb: bool) | Open(device: Device) | Close(device: Device)

  datatype FwdState = FwdState(channels: Table, log: seq<Cmd>)

  datatype Event =
    | SubscribeRequest(sid: Sid, pktType: nat, device: Device)
    | UnsubscribeRequest(sid: Sid, device: Device)
    | SessionError(sid: Sid)
    | Frame(device: Device, broken: set<Sid>)

  ghost const START := FwdState(map[], [])

  predicate IsFromWebServer(pktType: nat) { FromOf(pktType) == IPC_PKT_FROM_WEB_SERVER }

  /** A first subscriber creates the channel, and opens the car unless the web server asked:
      for that one the car is opened elsewhere. */
  function Opening(d: Device, pktType: nat): seq<Cmd> {
    [Created(d, IsFromWebServer(pktType))] + if IsFromWebServer(pktType) then [] else [Open(d)]
  }

  function Subscribe(st: FwdState, sid: Sid, pktType: nat, d: Device): FwdState {
    if d in st.channels then st.(channels := st.channels[d := st.channels[d] + {sid}])
    else FwdState(st.channels[d := {sid}], st.log + Opening(d, pktType))
  }

  function Closing(devices: seq<Device>): seq<Cmd> {
    if devices == [] then [] else [Close(devices[0])] + Closing(devices[1..])
  }

  /** Every channel nobody is left in is closed and removed, in ascending order. */
  ghost function Release(st: FwdState): FwdState {
    var gone := Empties(st.channels);
    FwdState(st.channels - gone, st.log + Closing(Ascending(gone)))
  }

  ghost function Unsubscribe(st: FwdState, sid: Sid, d: Device): FwdState {
    Release(st.(channels := Without(st.channels, d, sid)))
  }

  ghost function Error(st: FwdState, sid: Sid): FwdState {
    Release(st.(channels := WithoutAnywhere(st.channels, sid)))
  }

  /** Unwritable members are dropped; a channel emptied so stays until the next release. */
  function Publish(st: FwdState, d: Device, broken: set<Sid>): FwdState {
    st.(channels := Pruned(st.channels, d, broken))
  }

  ghost function Step(st: FwdState, e: Event): FwdState {
    match e
    case SubscribeRequest(sid, pktType, d) => Subscribe(st, sid, pktType, d)
    case UnsubscribeRequest(sid, d) => Unsubscribe(st, sid, d)
    case SessionError(sid) => Error(st, sid)
    case Frame(d, broken) => Publish(st, d, broken)
  }

  ghost function Run(events: seq<Event>): FwdState {
    if events == [] then START else Step(Run(events[..|events| - 1]), events[|events| - 1])
  }

  // ---- Commands alternate ----

  /** The creations (true) and closes (false) of one device, in order. */
  ghost function Trace(log: seq<Cmd>, d: Device): seq<bool> {
    if log == [] then []
    else
      var before, last := Trace(log[..|log| - 1], d), log[|log| - 1];
      match last
      case Created(e, _) => if e == d then before + [true] else before
      case Open(_) => before
      case Close(e) => if e == d then before + [false] else before
  }

  /** An open command stands directly behind a creation the web server did not ask for, and
      behind every such creation. */
  ghost predicate OpensMatch(log: seq<Cmd>) {
    && (forall i :: 0 <= i < |log| && log[i].Open? ==> i > 0 && log[i - 1] == Created(log[i].device, false))
    && (forall i :: 0 <= i < |log| && log[i].Created? && !log[i].fromWeb ==>
          i + 1 < |log| && log[i + 1] == Open(log[i].device))
  }

  ghost predicate InOrder(st: FwdState, d: Device) {
    Alternates(Trace(st.log, d)) && (d in st.channels <==> |Trace(st.log, d)| % 2 == 1)
  }

  ghost predicate Inv(st: FwdState) {
    (forall d :: InOrder(st, d)) && OpensMatch(st.log)
  }

  lemma TraceSnoc(log: seq<Cmd>, c: Cmd, d: Device)
    ensures Trace(log + [c], d) ==
              Trace(log, d) + if c.Open? || c.device != d then [] else [c.Created?]
  {
    assert (log + [c])[..|log|] == log;
  }

  lemma TraceOpening(log: seq<Cmd>, e: Device, pktType: nat, d: Device)
    ensures Trace(log + Opening(e, pktType), d) == Trace(log, d) + if d == e then [true] else []
  {
    var c := Created(e, IsFromWebServer(pktType));
    TraceSnoc(log, c, d);
    if IsFromWebServer(pktType) {
      assert Opening(e, pktType) == [c];
    } else {
      TraceSnoc(log + [c], Open(e), d);
      assert log + Opening(e, pktType) == log + [c] + [Open(e)];
    }
  }

  lemma ClosingFirst(log: seq<Cmd>, d: Device, later: seq<Device>)
    ensures log + Closing([d] + later) == log + [Close(d)] + Closing(later)
  {
    assert ([d] + later)[1..] == later;
  }

  lemma {:induction false} TraceClosing(log: seq<Cmd>, gone: set<Device>, d: Device)
    ensures Trace(log + Closing(Ascending(gone)), d) == Trace(log, d) + if d in gone then [false] else []
    decreases |gone|
  {
    if gone == {} {
      assert log + Closing(Ascending(gone)) == log;
    } else {
      LeastExists(gone);
      var m :| IsLeast(m, gone);
      AscendingFirst(m, gone);
      TraceSnoc(log, Close(m), d);
      TraceClosing(log + [Close(m)], gone - {m}, d);
      ClosingFirst(log, m, Ascending(gone - {m}));
    }
  }

  lemma {:induction false} ClosingCloses(devices: seq<Device>)
    ensures forall i :: 0 <= i < |Closing(devices)| ==> Closing(devices)[i].Close?
  {
    if devices != [] {
      ClosingCloses(devices[1..]);
    }
  }

  lemma OpensMatchAppend(log: seq<Cmd>, more: seq<Cmd>)
    requires OpensMatch(log) && OpensMatch(more)
    ensures OpensMatch(log + more)
  {
    var all := log + more;
    forall i | 0 <= i < |all| && all[i].Open? ensures i > 0 && all[i - 1] == Created(all[i].device, false) {
      if i >= |log| {
        assert more[i - |log|].Open?;
      }
    }
    forall i | 0 <= i < |all| && all[i].Created? && !all[i].fromWeb
      ensures i + 1 < |all| && all[i + 1] == Open(all[i].device) {
      if i >= |log| {
        assert more[i - |log|].Created?;
      } else {
        assert log[i].Created?;
      }
    }
  }

  lemma SubscribeKeeps(st: FwdState, sid: Sid, pktType: nat, d: Device)
    requires Inv(st)
    ensures Inv(Subscribe(st, sid, pktType, d))
  {
    var after := Subscribe(st, sid, pktType, d);
    if d !in st.channels {
      OpensMatchAppend(st.log, Opening(d, pktType));
    }
    forall e ensures InOrder(after, e) {
      assert InOrder(st, e);
      if d !in st.channels {
        TraceOpening(st.log, d, pktType, e);
      }
    }
  }

  ghost predicate NoneEmpty(channels: Table) {
    forall d :: d in channels ==> channels[d] != {}
  }

  lemma ReleaseInOrder(st: FwdState, d: Device)
    requires InOrder(st, d)
    ensures InOrder(Release(st), d)
  {
    TraceClosing(st.log, Empties(st.channels), d);
  }

  lemma ReleaseMatches(st: FwdState)
    requires OpensMatch(st.log)
    ensures OpensMatch(Release(st).log)
  {
    var closing := Closing(Ascending(Empties(st.channels)));
    ClosingCloses(Ascending(Empties(st.channels)));
    OpensMatchAppend(st.log, closing);
  }

  lemma ReleaseKeeps(st: FwdState)
    requires Inv(st)
    ensures Inv(Release(st)) && NoneEmpty(Release(st).channels)
  {
    ReleaseMatches(st);
    forall e ensures InOrder(Release(st), e) {
      assert InOrder(st, e);
      ReleaseInOrder(st, e);
    }
  }

  /** Changing who is in a channel, without adding or removing channels. */
  lemma MembersKeep(st: FwdState, channels: Table)
    requires Inv(st) && channels.Keys == st.channels.Keys
    ensures Inv(st.(channels := channels))
  {
    forall e ensures InOrder(st.(channels := channels), e) {
      assert InOrder(st, e);
      assert e in channels <==> e in channels.Keys;
    }
  }

  lemma StepKeeps(st: FwdState, e: Event)
    requires Inv(st)
    ensures Inv(Step(st, e))
    ensures e.UnsubscribeRequest? || e.SessionError? ==> NoneEmpty(Step(st, e).channels)
    ensures e.SubscribeRequest? && NoneEmpty(st.channels) ==> NoneEmpty(Step(st, e).channels)
  {
    match e
    case SubscribeRequest(sid, pktType, d) => SubscribeKeeps(st, sid, pktType, d);
    case UnsubscribeRequest(sid, d) =>
      MembersKeep(st, Without(st.channels, d, sid));
      ReleaseKeeps(st.(channels := Without(st.channels, d, sid)));
    case SessionError(sid) =>
      MembersKeep(st, WithoutAnywhere(st.channels, sid));
      ReleaseKeeps(st.(channels := WithoutAnywhere(st.channels, sid)));
    case Frame(d, broken) => MembersKeep(st, Publish(st, d, broken).channels);
  }

  lemma {:induction false} RunKeeps(events: seq<Event>)
    ensures Inv(Run(events))
  {
    if events == [] {
      forall d ensures InOrder(START, d) {
      }
    } else {
      RunKeeps(events[..|events| - 1]);
      StepKeeps(Run(events[..|events| - 1]), events[|events| - 1]);
    }
  }

  /** A device's creations and closes strictly alternate, a creation first; its channel exists
      exactly while there is one creation more; and the car is opened exactly at the creations
      the web server did not ask for. */
  ghost predicate Orderly(st: FwdState, d: Device) {
    var t := Trace(st.log, d);
    && Alternates(t)
    && Count(t, true) - Count(t, false) == (if d in st.channels then 1 else 0)
    && OpensMatch(st.log)
  }

  lemma OrderlyAlways(st: FwdState, d: Device)
    requires Inv(st)
    ensures Orderly(st, d)
  {
    assert InOrder(st, d);
    AlternatesCounts(Trace(st.log, d));
  }

  /** So it is over every run of requests, failures and frames, for every device. */
  lemma CommandsAlternate(events: seq<Event>, d: Device)
    ensures Orderly(Run(events), d)
  {
    RunKeeps(events);
    OrderlyAlways(Run(events), d);
  }

  /** And a step that takes sessions out on request or on error leaves no channel empty. */
  lemma NoneLeftEmpty(events: seq<Event>, e: Event)
    requires e.UnsubscribeRequest? || e.SessionError?
    ensures NoneEmpty(Run(events + [e]).channels)
  {
    assert (events + [e])[..|events|] == events;
    RunKeeps(events);
    StepKeeps(Run(events), e);
  }
}
