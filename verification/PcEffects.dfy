/** What every event at the viewer server does, told session by session, channel by channel and
    request by request, with packet types as they stand on the wire (pc_server/PcServer.cpp,
    pc_server/PcPublisher.cpp, core/ipc_packet/IpcPktType.h). */
module PcEffects {
  import opened Ids
  import opened IpcPktType
  import opened PcModel
  import opened Tables
  import D = DeviceId
  import Ordered

  // ---- Leaving and entering one channel ----

  lemma NobodyLeft(channels: Table, d: Device, sid: Sid)
    ensures SizeSubscriber(Without(channels, d, sid), d) == 0 <==> !HasOthers(channels, d, sid)
  {
    if d in channels {
      var rest := channels[d] - {sid};
      assert forall other :: other in rest <==> other != sid && IsIn(channels, d, other);
      assert rest == {} <==> !HasOthers(channels, d, sid);
    }
  }

  lemma AloneInside(channels: Table, d: Device, sid: Sid)
    ensures SizeSubscriber(WithSubscriber(channels, d, sid), d) == 1 <==> !HasOthers(channels, d, sid)
  {
    var into := WithSubscriber(channels, d, sid);
    var rest := into[d] - {sid};
    assert into[d] == rest + {sid};
    assert forall other :: other in rest <==> other != sid && IsIn(channels, d, other);
    assert rest == {} <==> !HasOthers(channels, d, sid);
  }

  lemma LeftEffect(st: PcState, sid: Sid, device: string, e: Device, other: Sid)
    ensures var left := Left(st, sid, device);
            && left.link == st.link && left.viewers == st.viewers
            && left.sent == st.sent + (if st.link.Up? && !HasOthers(st.channels, D.Parse(device), sid) then [Request(0x3_0003, device)] else [])
            && (IsIn(left.channels, e, other) <==> IsIn(st.channels, e, other) && !(other == sid && e == D.Parse(device)))
  {
    NobodyLeft(st.channels, D.Parse(device), sid);
  }

  lemma EnteredEffect(st: PcState, sid: Sid, device: string, e: Device, other: Sid)
    ensures var into := Entered(st, sid, device);
            && into.link == st.link && into.viewers == st.viewers
            && into.sent == st.sent + (if HasOthers(st.channels, D.Parse(device), sid) then [] else [Request(0x3_0002, device)])
            && (IsIn(into.channels, e, other) <==> IsIn(st.channels, e, other) || (other == sid && e == D.Parse(device)))
  {
    AloneInside(st.channels, D.Parse(device), sid);
  }

  // ---- Requests of viewers ----

  /** A session is in the channel of what it has on record, and nowhere else. */
  lemma InItsOwn(st: PcState, sid: Sid, e: Device)
    requires TablesAgree(st) && sid in st.viewers && IsIn(st.channels, e, sid)
    ensures st.viewers[sid] != "" && D.Parse(st.viewers[sid]) == e
  {
    assert RecordedUnder(st.viewers, sid, e);
  }

  /** What a session that leaves says upstream: it gives its device up if nobody else watches. */
  ghost function GivesUp(st: PcState, sid: Sid): seq<Request>
    requires sid in st.viewers
  {
    var was := st.viewers[sid];
    if was != "" && !HasOthers(st.channels, D.Parse(was), sid) then [Request(0x3_0003, was)] else []
  }

  /** What a session that enters says upstream: it asks if nobody else watches. */
  ghost function AsksFor(st: PcState, sid: Sid, data: string): seq<Request> {
    if data != "" && !HasOthers(st.channels, D.Parse(data), sid) then [Request(0x3_0002, data)] else []
  }

  lemma SwitchEffect(st: PcState, sid: Sid, data: string, e: Device, other: Sid)
    requires TablesAgree(st) && st.link.Up? && sid in st.viewers
    ensures var left := TryUnsubscribeOld(st, sid, data);
            && left.link == st.link && left.viewers == st.viewers
            && left.sent == st.sent + (if st.viewers[sid] == data then [] else GivesUp(st, sid))
            && (IsIn(left.channels, e, other) <==> IsIn(st.channels, e, other) && (other == sid ==> st.viewers[sid] == data))
  {
    var was := st.viewers[sid];
    if IsIn(st.channels, e, sid) {
      InItsOwn(st, sid, e);
    }
    if was != "" && was != data {
      LeftEffect(st, sid, was, e, other);
    }
  }

  /** After a subscribe request the viewer is in the channel of the device it named and in no
      other, whoever was there before, and nobody else has moved. */
  lemma SubscribePlaces(st: PcState, sid: Sid, pktType: nat, data: string, e: Device, other: Sid)
    requires TablesAgree(st) && st.link.Up? && sid in st.viewers && pktType % 0x100 == 2
    ensures var after := ViewerPacket(st, sid, pktType, data);
            && after.link.Up? && after.viewers == st.viewers[sid := data]
            && (IsIn(after.channels, e, other) <==>
                  if other == sid then data != "" && e == D.Parse(data) else IsIn(st.channels, e, other))
  {
    SwitchEffect(st, sid, data, e, other);
    if IsIn(st.channels, e, sid) {
      InItsOwn(st, sid, e);
    }
    var st1 := TryUnsubscribeOld(st, sid, data);
    var st2 := st1.(viewers := st1.viewers[sid := data]);
    EnteredEffect(st2, sid, data, e, other);
  }

  /** And what it said upstream, in this order: it gave up the device it had, unless it named the
      same string again or others watch that device; and it asked for the new one, unless others
      watch that. */
  lemma SubscribeSays(st: PcState, sid: Sid, pktType: nat, data: string)
    requires TablesAgree(st) && st.link.Up? && sid in st.viewers && pktType % 0x100 == 2
    ensures ViewerPacket(st, sid, pktType, data).sent
         == st.sent + (if st.viewers[sid] == data then [] else GivesUp(st, sid)) + AsksFor(st, sid, data)
  {
    SwitchEffect(st, sid, data, 0, 0);
    var st1 := TryUnsubscribeOld(st, sid, data);
    var st2 := st1.(viewers := st1.viewers[sid := data]);
    EnteredEffect(st2, sid, data, 0, 0);
    SameOthers(st, sid, data);
    assert st1.sent + [] == st1.sent;
  }

  lemma SameOthers(st: PcState, sid: Sid, data: string)
    requires TablesAgree(st) && st.link.Up? && sid in st.viewers
    ensures forall d :: HasOthers(TryUnsubscribeOld(st, sid, data).channels, d, sid) <==> HasOthers(st.channels, d, sid)
  {
    forall d, other | other != sid ensures IsIn(TryUnsubscribeOld(st, sid, data).channels, d, other) <==> IsIn(st.channels, d, other) {
      SwitchEffect(st, sid, data, d, other);
    }
  }

  lemma FoldOne(s: set<Device>, sent: seq<Request>, more: seq<Request>)
    requires |more| <= 1
    ensures Fold(s, sent + more) == if more == [] then Fold(s, sent) else Applied(Fold(s, sent), more[0])
  {
    if more == [] {
      assert sent + more == sent;
    } else {
      FoldSnoc(s, sent, more[0]);
      assert more == [more[0]];
    }
  }

  /** Giving up some other device, if any, and then asking for this one, if at all. */
  lemma SaysBelieves(sent: seq<Request>, gives: seq<Request>, asks: seq<Request>, d: Device)
    requires |gives| <= 1 && |asks| <= 1
    requires gives != [] ==> TypeOf(gives[0].pktType) == 3 && (asks == [] ==> D.Parse(gives[0].data) != d)
    requires asks != [] ==> TypeOf(asks[0].pktType) == 2 && D.Parse(asks[0].data) == d
    ensures d in Fold({}, sent + gives + asks) <==> asks != [] || d in Fold({}, sent)
  {
    FoldOne({}, sent, gives);
    FoldOne({}, sent + gives, asks);
  }

  /** Afterwards the viewer server believes it gets that device, unless others were watching it
      already and it did not believe so before. */
  lemma SubscribeBelieves(st: PcState, sid: Sid, pktType: nat, data: string)
    requires TablesAgree(st) && st.link.Up? && sid in st.viewers && pktType % 0x100 == 2 && data != ""
    ensures D.Parse(data) in Believed(ViewerPacket(st, sid, pktType, data)) <==>
              (HasOthers(st.channels, D.Parse(data), sid) ==> D.Parse(data) in Believed(st))
  {
    SubscribeSays(st, sid, pktType, data);
    var gives := if st.viewers[sid] == data then [] else GivesUp(st, sid);
    SaysBelieves(st.sent, gives, AsksFor(st, sid, data), D.Parse(data));
  }

  /** After an unsubscribe request the viewer has nothing on record and is in no channel; nobody
      else has moved; and the device was given up unless others watch it. */
  lemma UnsubscribePlaces(st: PcState, sid: Sid, pktType: nat, data: string, e: Device, other: Sid)
    requires TablesAgree(st) && st.link.Up? && sid in st.viewers && pktType % 0x100 == 3
    ensures var after := ViewerPacket(st, sid, pktType, data);
            && after.link.Up? && after.viewers == st.viewers[sid := ""] && after.sent == st.sent + GivesUp(st, sid)
            && (IsIn(after.channels, e, other) <==> other != sid && IsIn(st.channels, e, other))
  {
    if IsIn(st.channels, e, sid) {
      InItsOwn(st, sid, e);
    }
    if st.viewers[sid] != "" {
      LeftEffect(st, sid, st.viewers[sid], e, other);
    }
  }

  /** A failing viewer leaves the same way, and the table too; what it says is said only while
      there is a connection. */
  lemma FailurePlaces(st: PcState, sid: Sid, e: Device, other: Sid)
    requires TablesAgree(st) && sid in st.viewers
    ensures var after := ViewerError(st, sid);
            && after.link == st.link && after.viewers == st.viewers - {sid}
            && after.sent == st.sent + (if st.link.Up? then GivesUp(st, sid) else [])
            && (IsIn(after.channels, e, other) <==> other != sid && IsIn(st.channels, e, other))
  {
    if IsIn(st.channels, e, sid) {
      InItsOwn(st, sid, e);
    }
    if st.viewers[sid] != "" {
      LeftEffect(st, sid, st.viewers[sid], e, other);
    }
    Forget(st.viewers, sid);
  }

  /** A viewer that connects and fails at once leaves no trace, upstream or here. */
  lemma ComesAndGoes(st: PcState, sid: Sid)
    requires sid !in st.viewers
    ensures ViewerError(NewViewer(st, sid), sid) == st
  {
    assert st.viewers[sid := ""] - {sid} == st.viewers;
    Forget(st.viewers[sid := ""], sid);
  }

  /** Anything else a viewer sends does nothing, and so does everything while the upstream server
      is not connected. */
  lemma ElseIgnored(st: PcState, sid: Sid, pktType: nat, data: string)
    requires sid in st.viewers
    requires !st.link.Up? || (pktType % 0x100 != 2 && pktType % 0x100 != 3)
    ensures ViewerPacket(st, sid, pktType, data) == st
  {
  }

  /** Between losing a connection and the next success nobody is heard, nobody moves and nothing
      counts as said. */
  lemma SilentWhileDown(st: PcState, sid: Sid, pktType: nat, data: string)
    requires sid in st.viewers
    ensures forall lost :: lost in {ClientError(st), Dial(st, true), Dial(st, false), ClientConnect(st, false)} ==>
              && lost.viewers == st.viewers && lost.channels == st.channels && lost.sent == []
              && ViewerPacket(lost, sid, pktType, data) == lost
  {
  }

  // ---- Other events ----

  /** A frame takes out of its own channel exactly the sessions that are found unwritable. */
  lemma PublishPlaces(st: PcState, d: Device, broken: set<Sid>, e: Device, other: Sid)
    ensures var after := Publish(st, d, broken);
            && after.link == st.link && after.viewers == st.viewers && after.sent == st.sent
            && (IsIn(after.channels, e, other) <==> IsIn(st.channels, e, other) && !(e == d && other in broken))
  {
  }

  /** A new connection starts with one request for each device that somebody watches, the least
      first, each by its printed id. */
  lemma ReconnectSays(st: PcState) returns (devices: seq<Device>)
    ensures var after := ClientConnect(st, true);
            && after.link.Up? && after.viewers == st.viewers && after.channels == st.channels
            && |after.sent| == |devices|
            && forall i :: 0 <= i < |devices| ==> after.sent[i] == Request(0x3_0002, D.Print(devices[i]))
    ensures forall i, j :: 0 <= i < j < |devices| ==> devices[i] < devices[j]
    ensures forall d :: d in devices <==> exists sid :: IsIn(st.channels, d, sid)
  {
    devices := Ordered.Ascending(Watched(st.channels));
    Ordered.AscendingSorted(Watched(st.channels));
    AskForAll(devices);
    forall d ensures d in devices <==> exists sid :: IsIn(st.channels, d, sid) {
      if d in devices {
        var sid :| sid in st.channels[d];
        assert IsIn(st.channels, d, sid);
      }
    }
  }

  lemma {:induction false} AskForAll(devices: seq<Device>)
    ensures |AskFor(devices)| == |devices|
    ensures forall i :: 0 <= i < |devices| ==> AskFor(devices)[i] == Request(0x3_0002, D.Print(devices[i]))
  {
    if devices != [] {
      AskForAll(devices[1..]);
      assert forall i :: 0 < i < |devices| ==> AskFor(devices)[i] == AskFor(devices[1..])[i - 1];
    }
  }

  /** A heartbeat goes out while there is a connection, and nothing else changes. */
  lemma HeartbeatSays(st: PcState)
    ensures Heartbeat(st) == st.(sent := st.sent + if st.link.Up? then [Request(0x3_0001, "")] else [])
  {
    assert st.sent + [] == st.sent;
  }
}
