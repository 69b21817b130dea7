/** The viewer server: sessions, the publisher's channels and the upstream client
    (pc_server/PcServer.cpp). Each handler does to the running state what PcModel says. */
module PcServers {
  import opened Bytes
  import opened Channels
  import opened Ids
  import opened IpcPktType
  import opened Tables
  import opened TcpSessions
  import D = DeviceId
  import Ipc = IpcPacket
  import Ordered
  import PcModel
  import PcPublishers

  /** Asking for the least device first. */
  lemma AskForFirst(before: seq<Request>, d: Device, todo: set<Device>)
    requires Ordered.Ascending(todo) == [d] + Ordered.Ascending(todo - {d})
    ensures before + PcModel.AskFor(Ordered.Ascending(todo))
         == before + [PcModel.Ask(IPC_PKT_TYPE_SUBSCRIBE_DEVICE_ID, D.Print(d))] + PcModel.AskFor(Ordered.Ascending(todo - {d}))
  {
    assert Ordered.Ascending(todo)[1..] == Ordered.Ascending(todo - {d});
  }

  class PcServer {
    var link: PcModel.Link
    var sessions: map<Sid, TcpSession>
    const publisher: PcPublishers.PcPublisher
    var sent: seq<Request>

    /** Sessions stand under their own numbers, and channels hold live sessions. */
    ghost predicate Shaped()
      reads this, publisher
    {
      && Keyed(sessions)
      && (link != PcModel.Up ==> sent == [])
      && Agree(publisher.channels, sessions)
    }

    ghost function View(): PcModel.PcState
      reads this, publisher, sessions.Values
    {
      PcModel.PcState(link, Viewers(), Members(publisher.channels), sent)
    }

    ghost function Viewers(): map<Sid, string>
      reads this, sessions.Values
    {
      map sid | sid in sessions :: sessions[sid].deviceId
    }

    /** Between events the members of a channel have its device on record. */
    ghost predicate Valid()
      reads this, publisher, sessions.Values
    {
      Shaped() && PcModel.TablesAgree(View())
    }

    /** Started, with the first dial under way. */
    constructor ()
      ensures Valid() && View() == PcModel.START
    {
      link, sessions, sent := PcModel.Connecting, map[], [];
      publisher := new PcPublishers.PcPublisher();
    }

    method AddPc(sid: Sid, kernel: Kernel)
      requires Shaped() && sid !in sessions
      modifies this`sessions
      ensures Shaped() && View() == PcModel.NewViewer(old(View()), sid)
      ensures sid in sessions && fresh(sessions[sid]) && sessions[sid].View() == Sock(kernel, 0, true, [], [])
      ensures forall other :: other in old(sessions) ==> other in sessions && sessions[other] == old(sessions)[other]
    {
      var pc := new TcpSession(sid, kernel);
      ghost var was := Viewers();
      sessions := sessions + map[sid := pc];
      assert Viewers() == was[sid := ""];
    }

    /** A session that cannot be initialised is dropped at once. */
    method OnNewConnection(sid: Sid, kernel: Kernel, initialised: bool)
      requires Valid() && sid !in sessions
      modifies this`sessions
      ensures Valid() && View() == if initialised then PcModel.NewViewer(old(View()), sid) else old(View())
      ensures initialised ==> sid in sessions && fresh(sessions[sid]) && sessions[sid].View() == Sock(kernel, 0, true, [], [])
      ensures forall other :: other in old(sessions) ==> other in sessions && sessions[other] == old(sessions)[other]
    {
      if initialised {
        PcModel.NewViewerTables(View(), sid);
        AddPc(sid, kernel);
      }
    }

    method SendPacket(kind: nat, data: string)
      requires Shaped() && link.Up?
      modifies this`sent
      ensures Shaped() && View() == PcModel.Send(old(View()), kind, data)
    {
      sent := sent + [PcModel.Ask(kind, data)];
    }

    method Expel(d: Device, pc: TcpSession)
      requires Shaped()
      modifies publisher
      ensures Shaped() && View() == old(View()).(channels := Without(old(View()).channels, d, pc.sessionId))
    {
      if d in publisher.channels {
        AgreeWithout(publisher.channels, sessions, d, {pc.sessionId});
      }
      publisher.DelSubscriber(d, pc);
    }

    method Admit(d: Device, pc: TcpSession)
      requires Shaped() && Holds(sessions, pc)
      modifies publisher
      ensures Shaped() && View() == old(View()).(channels := PcModel.WithSubscriber(old(View()).channels, d, pc.sessionId))
    {
      AgreeWith(publisher.channels, sessions, d, pc);
      publisher.AddSubscriber(d, pc);
    }

    method TryUnsubscriberOldDeviceId(pc: TcpSession, newDevice: string)
      requires Shaped() && Holds(sessions, pc)
      modifies this`sent, publisher
      ensures Shaped() && View() == PcModel.TryUnsubscribeOld(old(View()), pc.sessionId, newDevice)
    {
      var was := pc.deviceId;
      if was != "" && was != newDevice {
        var d := D.Parse(was);
        Expel(d, pc);
        var n := publisher.SizeSubscriber(d);
        if link.Up? && n == 0 {
          SendPacket(IPC_PKT_TYPE_UNSUBSCRIBE_DEVICE_ID, was);
        }
      }
    }

    method SubscribeDeviceId(pc: TcpSession, device: string)
      requires Shaped() && Holds(sessions, pc) && link.Up?
      modifies this`sent, publisher, pc`deviceId
      ensures Shaped() && View() == PcModel.Subscribe(old(View()), pc.sessionId, device)
    {
      TryUnsubscriberOldDeviceId(pc, device);
      SetDeviceId(pc, device);
      if device != "" {
        JoinChannel(pc, device);
      }
    }

    /** The first subscriber of a device asks for it upstream. */
    method JoinChannel(pc: TcpSession, device: string)
      requires Shaped() && Holds(sessions, pc) && link.Up?
      modifies this`sent, publisher
      ensures Shaped() && View() == PcModel.Entered(old(View()), pc.sessionId, device)
    {
      var d := D.Parse(device);
      Admit(d, pc);
      var n := publisher.SizeSubscriber(d);
      if n == 1 {
        SendPacket(IPC_PKT_TYPE_SUBSCRIBE_DEVICE_ID, device);
      }
    }

    method SetDeviceId(pc: TcpSession, device: string)
      requires Shaped() && Holds(sessions, pc)
      modifies pc`deviceId
      ensures Shaped() && View() == old(View()).(viewers := old(View()).viewers[pc.sessionId := device])
    {
      ghost var was := Viewers();
      pc.deviceId := device;
      assert Viewers() == was[pc.sessionId := device];
    }

    method UnSubscribeDeviceId(pc: TcpSession)
      requires Shaped() && Holds(sessions, pc)
      modifies this`sent, publisher, pc`deviceId
      ensures Shaped() && View() == PcModel.Unsubscribe(old(View()), pc.sessionId)
    {
      var was := pc.deviceId;
      if was != "" {
        var d := D.Parse(was);
        Expel(d, pc);
        var n := publisher.SizeSubscriber(d);
        if n == 0 && link.Up? {
          SendPacket(IPC_PKT_TYPE_UNSUBSCRIBE_DEVICE_ID, was);
        }
      }
      SetDeviceId(pc, "");
    }

    method OnPacketCompleted(pc: TcpSession, pktType: nat, data: string)
      requires Valid() && Holds(sessions, pc)
      modifies this`sent, publisher, pc`deviceId
      ensures Valid() && View() == PcModel.ViewerPacket(old(View()), pc.sessionId, pktType, data)
    {
      PcModel.ViewerPacketTables(View(), pc.sessionId, pktType, data);
      if !link.Up? {
        return;
      }
      if TypeOf(pktType) == IPC_PKT_TYPE_SUBSCRIBE_DEVICE_ID {
        SubscribeDeviceId(pc, data);
      } else if TypeOf(pktType) == IPC_PKT_TYPE_UNSUBSCRIBE_DEVICE_ID {
        UnSubscribeDeviceId(pc);
      }
    }

    /** A session that is in no channel leaves the table of sessions. */
    method DelPc(pc: TcpSession)
      requires Shaped() && Holds(sessions, pc)
      requires forall d :: d in publisher.channels ==> pc.sessionId !in publisher.channels[d]
      modifies this`sessions
      ensures Shaped() && View() == old(View()).(viewers := old(View()).viewers - {pc.sessionId})
    {
      ghost var was := Viewers();
      sessions := sessions - {pc.sessionId};
      assert Viewers() == was - {pc.sessionId};
    }

    /** The session leaves its channel, then the table of sessions. */
    method OnPacketError(pc: TcpSession)
      requires Valid() && Holds(sessions, pc)
      modifies this`sent, this`sessions, publisher, pc`deviceId
      ensures Valid() && View() == PcModel.ViewerError(old(View()), pc.sessionId)
    {
      PcModel.ViewerErrorTables(View(), pc.sessionId);
      UnSubscribeDeviceId(pc);
      assert forall d :: d in publisher.channels ==> publisher.channels[d].Keys == View().channels[d];
      DelPc(pc);
    }

    /** A new attempt replaces whatever client there was. It fails when no address is
        configured, and when the dial is refused at once. */
    method AsyncConnectServer(configured: bool, accepted: bool) returns (ok: bool)
      requires Valid()
      modifies this`link, this`sent
      ensures Valid() && View() == PcModel.Dial(old(View()), ok)
      ensures ok == (configured && accepted)
    {
      link, sent := PcModel.Down, [];
      if !configured {
        return false;
      }
      if !accepted {
        return false;
      }
      link := PcModel.Connecting;
      return true;
    }

    method OnClientConnect(ok: bool)
      requires Valid() && link.Connecting?
      modifies this`link, this`sent
      ensures Valid() && View() == PcModel.ClientConnect(old(View()), ok)
    {
      if !ok {
        link := PcModel.Down;
        return;
      }
      link := PcModel.Up;
      var result := publisher.GetAllDeviceId(true);
      Resubscribe(result);
      assert sent == PcModel.AskFor(Ordered.Ascending(result));
    }

    method Resubscribe(devices: set<Device>)
      requires Shaped() && link.Up?
      modifies this`sent
      ensures View() == old(View()).(sent := old(sent) + PcModel.AskFor(Ordered.Ascending(devices)))
    {
      var todo := devices;
      while todo != {}
        invariant sent + PcModel.AskFor(Ordered.Ascending(todo)) == old(sent) + PcModel.AskFor(Ordered.Ascending(devices))
        decreases |todo|
      {
        var d := Ordered.Next(todo);
        AskForFirst(sent, d, todo);
        SendPacket(IPC_PKT_TYPE_SUBSCRIBE_DEVICE_ID, D.Print(d));
        todo := todo - {d};
      }
    }

    method OnClientError()
      requires Valid()
      modifies this`link, this`sent
      ensures Valid() && View() == PcModel.ClientError(old(View()))
    {
      link, sent := PcModel.Down, [];
    }

    method OnHeartbeatTimer()
      requires Valid()
      modifies this`sent
      ensures Valid() && View() == PcModel.Heartbeat(old(View()))
    {
      if link.Up? {
        SendPacket(IPC_PKT_TYPE_HEARTBEAT, "");
      }
    }

    ghost function Live(): set<TcpSession>
      reads this
    {
      sessions.Values
    }

    ghost predicate Gets(d: Device, sid: Sid)
      reads publisher
    {
      d in publisher.channels && sid in publisher.channels[d]
    }

    method Spread(d: Device, image: seq<byte>) returns (ghost broken: set<Sid>)
      requires Shaped()
      modifies publisher, Live()`calls, Live()`canWrite, Live()`wire, Live()`pending
      ensures Shaped() && View() == PcModel.Publish(old(View()), d, broken)
      ensures forall sid :: sid in sessions ==>
                if old(Gets(d, sid)) then PcPublishers.Served(sessions[sid], old(sessions[sid].View()), image, sid in broken)
                else sessions[sid].View() == old(sessions[sid].View()) && sid !in broken
    {
      ghost var channels := publisher.channels;
      ghost var members := Objects(channels, d);
      if d in channels {
        ObjectsOf(channels, sessions, d);
      }
      broken := publisher.Publish(d, image, members);
      if d in channels {
        AgreeWithout(channels, sessions, d, broken);
        MembersDrop(channels, d, broken);
      }
      assert Viewers() == old(Viewers());
    }

    /** Publish to one device's channel: its members, and nobody else, are offered the bytes,
        and exactly those of them that are not writable afterwards are dropped. */
    method Publish(d: Device, image: seq<byte>) returns (ghost broken: set<Sid>)
      requires Valid()
      modifies publisher, Live()`calls, Live()`canWrite, Live()`wire, Live()`pending
      ensures Valid() && View() == PcModel.Publish(old(View()), d, broken)
      ensures forall sid :: sid in sessions ==>
                if old(Gets(d, sid)) then PcPublishers.Served(sessions[sid], old(sessions[sid].View()), image, sid in broken)
                else sessions[sid].View() == old(sessions[sid].View()) && sid !in broken
    {
      ghost var st := View();
      broken := Spread(d, image);
      PcModel.PublishTables(st, d, broken);
    }

    /** A frame from upstream goes on as it came. The device id is read from the packet
        buffer, which holds `after` behind the payload. */
    method OnClientMessage(packet: Ipc.Packet, after: seq<byte>) returns (ghost broken: set<Sid>)
      requires Valid() && Ipc.WellFormed(packet) && |packet.data| + |after| >= 8
      modifies publisher, Live()`calls, Live()`canWrite, Live()`wire, Live()`pending
      ensures Valid()
      ensures var d, isFrame := Little8(packet.data + after, 0), packet.pktType % 0x100 == 4;
              && View() == (if isFrame then PcModel.Publish(old(View()), d, broken) else old(View()))
              && (forall sid :: sid in sessions ==>
                    if isFrame && old(Gets(d, sid))
                    then PcPublishers.Served(sessions[sid], old(sessions[sid].View()), Ipc.Image(packet), sid in broken)
                    else sessions[sid].View() == old(sessions[sid].View()) && sid !in broken)
    {
      broken := {};
      HostIsLittle8(packet.data + after, 0);
      if TypeOf(packet.pktType) == IPC_PKT_TYPE_JT1078_PACKET {
        broken := Publish(Host(packet.data + after, 0, 8), Ipc.Image(packet));
      }
    }
  }
}
