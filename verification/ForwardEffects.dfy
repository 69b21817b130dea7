/** What every event at the forwarding server does, session by session and command by command,
    with packet types as they stand on the wire (jt1078/forward_server/ForwardServer.cpp,
    Publisher.cpp, Channel.cpp). */
module ForwardEffects {
  import opened ForwardModel
  import opened Ids
  import opened Tables
  import Ordered

  // ---- Single events ----

  /** A subscriber joins the channel, which is made if need be; nobody else moves. */
  lemma SubscribePlaces(st: FwdState, sid: Sid, pktType: nat, d: Device, e: Device, other: Sid)
    ensures var after := Step(st, SubscribeRequest(sid, pktType, d));
            && (IsIn(after.channels, e, other) <==> IsIn(st.channels, e, other) || (e == d && other == sid))
            && (e in after.channels <==> e in st.channels || e == d)
  {
  }

  /** Making a channel is noted, and opens the car unless the request comes from the web server;
      nothing else is said. */
  lemma SubscribeSays(st: FwdState, sid: Sid, pktType: nat, d: Device)
    ensures var log := Step(st, SubscribeRequest(sid, pktType, d)).log;
            if d in st.channels then log == st.log
            else if pktType / 0x1_0000 % 0x10 == 2 then log == st.log + [Created(d, true)]
            else log == st.log + [Created(d, false), Open(d)]
  {
    assert [Created(d, true)] + [] == [Created(d, true)];
    assert [Created(d, false)] + [Open(d)] == [Created(d, false), Open(d)];
  }

  ghost predicate Anybody(table: Table, d: Device) { exists sid :: IsIn(table, d, sid) }

  /** Releasing removes exactly the channels nobody is in, and closes their cars, the least first. */
  lemma ReleaseSays(st: FwdState) returns (gone: seq<Device>)
    ensures var after := Release(st);
            && after.log == st.log + seq(|gone|, i requires 0 <= i < |gone| => Close(gone[i]))
            && (forall d :: d in after.channels <==> d in st.channels && Anybody(st.channels, d))
            && (forall d, sid :: IsIn(after.channels, d, sid) <==> IsIn(st.channels, d, sid))
    ensures forall i, j :: 0 <= i < j < |gone| ==> gone[i] < gone[j]
    ensures forall d :: d in gone <==> d in st.channels && !Anybody(st.channels, d)
  {
    gone := Ordered.Ascending(Empties(st.channels));
    Ordered.AscendingSorted(Empties(st.channels));
    ClosingEach(gone);
    forall d | d in st.channels ensures st.channels[d] == {} <==> !Anybody(st.channels, d) {
      if st.channels[d] != {} {
        var sid :| sid in st.channels[d];
        assert IsIn(st.channels, d, sid);
      }
    }
  }

  lemma {:induction false} ClosingEach(devices: seq<Device>)
    ensures Closing(devices) == seq(|devices|, i requires 0 <= i < |devices| => Close(devices[i]))
  {
    if devices != [] {
      ClosingEach(devices[1..]);
    }
  }

  /** A session that unsubscribes is out of that channel, one that fails out of all; nobody else
      moves; and then whatever stands empty is released. */
  ghost predicate TakesOut(st: FwdState, out: FwdState, sid: Sid, from: set<Device>) {
    && out.log == st.log && out.channels.Keys == st.channels.Keys
    && forall e, other :: IsIn(out.channels, e, other) <==> IsIn(st.channels, e, other) && !(other == sid && e in from)
  }

  lemma UnsubscribeTakesOut(st: FwdState, sid: Sid, d: Device) returns (out: FwdState)
    ensures TakesOut(st, out, sid, {d}) && Step(st, UnsubscribeRequest(sid, d)) == Release(out)
  {
    out := st.(channels := Without(st.channels, d, sid));
  }

  lemma ErrorTakesOut(st: FwdState, sid: Sid) returns (out: FwdState)
    ensures TakesOut(st, out, sid, st.channels.Keys) && Step(st, SessionError(sid)) == Release(out)
  {
    out := st.(channels := WithoutAnywhere(st.channels, sid));
  }

  /** A frame takes out of its own channel exactly the sessions that are found unwritable. */
  lemma FramePlaces(st: FwdState, d: Device, broken: set<Sid>, e: Device, other: Sid)
    ensures var after := Step(st, Frame(d, broken));
            && after.log == st.log && after.channels.Keys == st.channels.Keys
            && (IsIn(after.channels, e, other) <==> IsIn(st.channels, e, other) && !(e == d && other in broken))
  {
  }

  // ---- Whole runs: who is a member, and when cars are opened ----

  /** Whether the session's last word about the device was to subscribe, and no frame has found it
      unwritable since. */
  ghost predicate Wants(events: seq<Event>, d: Device, sid: Sid) {
    events != [] &&
    var n := |events| - 1;
    match events[n]
    case SubscribeRequest(s, _, e) => (s == sid && e == d) || Wants(events[..n], d, sid)
    case UnsubscribeRequest(s, e) => !(s == sid && e == d) && Wants(events[..n], d, sid)
    case SessionError(s) => s != sid && Wants(events[..n], d, sid)
    case Frame(e, broken) => !(e == d && sid in broken) && Wants(events[..n], d, sid)
  }

  lemma StepPlaces(st: FwdState, e: Event, d: Device, sid: Sid)
    ensures IsIn(Step(st, e).channels, d, sid) <==>
              match e
              case SubscribeRequest(s, _, f) => (s == sid && f == d) || IsIn(st.channels, d, sid)
              case UnsubscribeRequest(s, f) => !(s == sid && f == d) && IsIn(st.channels, d, sid)
              case SessionError(s) => s != sid && IsIn(st.channels, d, sid)
              case Frame(f, broken) => !(f == d && sid in broken) && IsIn(st.channels, d, sid)
  {
    match e
    case SubscribeRequest(s, pktType, f) => SubscribePlaces(st, s, pktType, f, d, sid);
    case UnsubscribeRequest(s, f) =>
      var out := UnsubscribeTakesOut(st, s, f);
      var _ := ReleaseSays(out);
    case SessionError(s) =>
      var out := ErrorTakesOut(st, s);
      var _ := ReleaseSays(out);
    case Frame(f, broken) => FramePlaces(st, f, broken, d, sid);
  }

  /** Over every run the members of a channel are exactly the sessions that want it. */
  lemma {:induction false} MembersWant(events: seq<Event>, d: Device, sid: Sid)
    ensures IsIn(Run(events).channels, d, sid) <==> Wants(events, d, sid)
  {
    if events != [] {
      var n := |events| - 1;
      MembersWant(events[..n], d, sid);
      StepPlaces(Run(events[..n]), events[n], d, sid);
    }
  }

  /** A subscribe request for a device without a channel, not from the web server. */
  ghost predicate Opens(st: FwdState, e: Event, d: Device) {
    e.SubscribeRequest? && e.device == d && e.pktType / 0x1_0000 % 0x10 != 2 && d !in st.channels
  }

  ghost function OpeningRequests(events: seq<Event>, d: Device): nat {
    if events == [] then 0
    else
      var n := |events| - 1;
      OpeningRequests(events[..n], d) + if Opens(Run(events[..n]), events[n], d) then 1 else 0
  }

  ghost function Opened(log: seq<Cmd>, d: Device): nat {
    if log == [] then 0
    else
      var n := |log| - 1;
      Opened(log[..n], d) + if log[n] == Open(d) then 1 else 0
  }

  lemma {:induction false} OpenedAppend(log: seq<Cmd>, more: seq<Cmd>, d: Device)
    ensures Opened(log + more, d) == Opened(log, d) + Opened(more, d)
  {
    if more == [] {
      assert log + more == log;
    } else {
      var n := |more| - 1;
      OpenedAppend(log, more[..n], d);
      assert (log + more)[..|log| + n] == log + more[..n];
    }
  }

  lemma {:induction false} OpenedNone(log: seq<Cmd>, d: Device)
    requires Open(d) !in log
    ensures Opened(log, d) == 0
  {
    if log != [] {
      OpenedNone(log[..|log| - 1], d);
    }
  }

  lemma StepOpens(st: FwdState, e: Event, d: Device)
    ensures Opened(Step(st, e).log, d) == Opened(st.log, d) + if Opens(st, e, d) then 1 else 0
  {
    match e
    case SubscribeRequest(s, pktType, f) =>
      SubscribeSays(st, s, pktType, f);
      if f !in st.channels {
        OpenedAppend(st.log, [Created(f, true)], d);
        OpenedAppend(st.log, [Created(f, false), Open(f)], d);
        OpenedNone([Created(f, true)], d);
        OpenedNone([Created(f, false)], d);
        assert [Created(f, false), Open(f)][..1] == [Created(f, false)];
      }
    case UnsubscribeRequest(s, f) =>
      var out := UnsubscribeTakesOut(st, s, f);
      ReleaseOpensNone(out, d);
    case SessionError(s) =>
      var out := ErrorTakesOut(st, s);
      ReleaseOpensNone(out, d);
    case Frame(f, broken) => FramePlaces(st, f, broken, d, 0);
  }

  lemma ReleaseOpensNone(st: FwdState, d: Device)
    ensures Opened(Release(st).log, d) == Opened(st.log, d)
  {
    var gone := ReleaseSays(st);
    var closes := seq(|gone|, i requires 0 <= i < |gone| => Close(gone[i]));
    OpenedAppend(st.log, closes, d);
    OpenedNone(closes, d);
  }

  /** Over every run a car has been opened as often as a request that was not the web server's
      found its device without a channel. */
  lemma {:induction false} OpensOnRequest(events: seq<Event>, d: Device)
    ensures Opened(Run(events).log, d) == OpeningRequests(events, d)
  {
    if events != [] {
      var n := |events| - 1;
      OpensOnRequest(events[..n], d);
      StepOpens(Run(events[..n]), events[n], d);
    }
  }
}
