/** The forwarding server itself: its subscribers, its channels and the commands it sends
    (jt1078/forward_server/ForwardServer.cpp, Publisher.cpp, Channel.cpp). Each handler does to
    the running state what ForwardModel says. */
module ForwardServers {
  import opened Bytes
  import opened Channels
  import opened Ids
  import opened IpcPktType
  import opened Ordered
  import opened Subscribers
  import opened Tables
  import opened TcpSessions
  import D = DeviceId
  import ForwardModel
  import Ipc = IpcPacket

  ghost function SubOf(pc: TcpSession): Sub
    reads pc
  {
    Sub(pc.View(), pc.lastSeqId)
  }

  /** A subscriber that stood as `before` has been delivered the payload; `lost` says it is not
      writable any more. */
  ghost predicate Delivered(pc: TcpSession, before: Sub, payload: seq<byte>, lost: bool)
    reads pc
  {
    SubOf(pc) == Deliver(before, payload) && lost == !pc.canWrite
  }

  /** Where a member stands in the sending loop. */
  ghost predicate Due(pc: TcpSession, before: Sub, payload: seq<byte>, done: bool, lost: bool)
    reads pc
  {
    if done then Delivered(pc, before, payload, lost) else SubOf(pc) == before
  }

  ghost predicate AllDue(was: Channel, before: map<Sid, Sub>, payload: seq<byte>, todo: set<Sid>, broken: set<Sid>)
    reads was.Values
  {
    forall sid :: sid in was ==> sid in before && Due(was[sid], before[sid], payload, sid !in todo, sid in broken)
  }

  ghost predicate IsBefore(was: Channel, before: map<Sid, Sub>)
    reads was.Values
  {
    before.Keys == was.Keys && forall sid :: sid in was ==> before[sid] == SubOf(was[sid])
  }

  /** Releasing one more channel, or passing one by, on the way up through the table. */
  lemma ReleaseNext(channels: Table, log: seq<ForwardModel.Cmd>, todo: set<Device>, d: Device)
    requires IsLeast(d, todo) && d in channels
    ensures var gone := Empties(channels);
            log + ForwardModel.Closing(Ascending(gone * todo))
              == (if channels[d] == {} then log + [ForwardModel.Close(d)] else log) + ForwardModel.Closing(Ascending(gone * (todo - {d})))
  {
    var gone := Empties(channels);
    var left := gone * todo;
    assert gone * (todo - {d}) == left - {d};
    if channels[d] == {} {
      assert IsLeast(d, left);
      AscendingFirst(d, left);
      assert Ascending(left)[1..] == Ascending(left - {d});
    } else {
      assert left - {d} == left;
    }
  }

  lemma KeepNext(was: map<Device, Channel>, gone: set<Device>, todo: set<Device>, d: Device)
    requires d in todo
    ensures was - (gone - (todo - {d})) == if d in gone then was - (gone - todo) - {d} else was - (gone - todo)
  {
    if d in gone {
      assert gone - (todo - {d}) == gone - todo + {d};
    } else {
      assert gone - (todo - {d}) == gone - todo;
    }
  }

  lemma ReleaseEnd(was: map<Device, Channel>, subscribers: map<Sid, TcpSession>, log: seq<ForwardModel.Cmd>)
    requires Agree(was, subscribers)
    ensures var gone := Empties(Members(was));
            && Members(was - gone) == Members(was) - gone
            && Agree(was - gone, subscribers)
            && gone * {} == {} && log + ForwardModel.Closing(Ascending({})) == log
  {
  }

  class ForwardServer {
    var subscribers: map<Sid, TcpSession>
    var channels: map<Device, Channel>
    var log: seq<ForwardModel.Cmd>

    ghost predicate Valid()
      reads this
    {
      Keyed(subscribers) && Agree(channels, subscribers)
    }

    ghost function View(): ForwardModel.FwdState
      reads this
    {
      ForwardModel.FwdState(Members(channels), log)
    }

    constructor ()
      ensures Valid() && View() == ForwardModel.START && subscribers == map[]
    {
      subscribers, channels, log := map[], map[], [];
    }

    /** A subscriber that cannot be initialised is dropped at once; any other is in no channel
        until it asks. */
    method OnNewConnection(sid: Sid, kernel: Kernel, initialised: bool)
      requires Valid() && sid !in subscribers
      modifies this`subscribers
      ensures Valid() && View() == old(View())
      ensures subscribers.Keys == old(subscribers).Keys + if initialised then {sid} else {}
      ensures initialised ==> fresh(subscribers[sid]) && SubOf(subscribers[sid]) == Sub(Sock(kernel, 0, true, [], []), 0xffff_ffff)
      ensures forall other :: other in old(subscribers) ==> other in subscribers && subscribers[other] == old(subscribers)[other]
    {
      if !initialised {
        return;
      }
      var subscriber := new TcpSession(sid, kernel);
      subscribers := subscribers + map[sid := subscriber];
    }

    method ProcessPacketSubscriber(pc: TcpSession, pktType: nat, data: string)
      requires Valid() && Holds(subscribers, pc)
      modifies this`channels, this`log
      ensures Valid() && View() == ForwardModel.Subscribe(old(View()), pc.sessionId, pktType, D.Parse(data))
    {
      SubscribeTo(pc, pktType, D.Parse(data));
    }

    method SubscribeTo(pc: TcpSession, pktType: nat, d: Device)
      requires Valid() && Holds(subscribers, pc)
      modifies this`channels, this`log
      ensures Valid() && View() == ForwardModel.Subscribe(old(View()), pc.sessionId, pktType, d)
    {
      ghost var was := channels;
      AgreeWith(channels, subscribers, d, pc);
      if d !in channels {
        log := log + [ForwardModel.Created(d, ForwardModel.IsFromWebServer(pktType))];
        channels := channels[d := map[]];
        if !ForwardModel.IsFromWebServer(pktType) {
          log := log + [ForwardModel.Open(d)];
        }
        assert log == old(log) + ForwardModel.Opening(d, pktType);
      }
      ghost var c := With(channels[d], pc);
      channels := channels[d := With(channels[d], pc)];
      assert channels == was[d := c];
      MembersUpdate(was, d, c);
      assert c.Keys == if d in was then Members(was)[d] + {pc.sessionId} else {pc.sessionId};
    }

    method DelSubscriber(d: Device, pc: TcpSession)
      requires Valid()
      modifies this`channels
      ensures Valid() && View() == old(View()).(channels := Without(old(View()).channels, d, pc.sessionId))
    {
      if d !in channels {
        return;
      }
      MembersDrop(channels, d, {pc.sessionId});
      AgreeWithout(channels, subscribers, d, {pc.sessionId});
      channels := channels[d := channels[d] - {pc.sessionId}];
    }

    method DelSubscriberEverywhere(sid: Sid)
      requires Valid()
      modifies this`channels
      ensures Valid() && View() == old(View()).(channels := WithoutAnywhere(old(View()).channels, sid))
    {
      ghost var was := channels;
      var todo := channels.Keys;
      while todo != {}
        invariant todo <= channels.Keys == was.Keys
        invariant forall d :: d in was ==> channels[d] == if d in todo then was[d] else was[d] - {sid}
      {
        var d :| d in todo;
        channels := channels[d := channels[d] - {sid}];
        todo := todo - {d};
      }
    }

    /** Close and remove every channel nobody is left in. */
    method ReleaseChannelIfEmptySubscriber()
      requires Valid()
      modifies this`channels, this`log
      ensures Valid() && View() == ForwardModel.Release(old(View()))
    {
      ghost var was := channels;
      ghost var gone := Empties(Members(was));
      var todo := channels.Keys;
      assert gone * todo == gone && gone - todo == {};
      while todo != {}
        invariant todo <= was.Keys && channels == was - (gone - todo)
        invariant log + ForwardModel.Closing(Ascending(gone * todo)) == old(log) + ForwardModel.Closing(Ascending(gone))
      {
        var d := Next(todo);
        ReleaseNext(Members(was), log, todo, d);
        KeepNext(was, gone, todo, d);
        assert channels[d] == was[d];
        if channels[d].Keys == {} {
          log := log + [ForwardModel.Close(d)];
          channels := channels - {d};
        }
        todo := todo - {d};
      }
      assert todo == {} && gone - todo == gone;
      ReleaseEnd(was, subscribers, log);
    }

    method ProcessPacketUnSubscriber(pc: TcpSession, data: string)
      requires Valid()
      modifies this`channels, this`log
      ensures Valid() && View() == ForwardModel.Unsubscribe(old(View()), pc.sessionId, D.Parse(data))
    {
      DelSubscriber(D.Parse(data), pc);
      ReleaseChannelIfEmptySubscriber();
    }

    method OnPacketCompleted(pc: TcpSession, pktType: nat, data: string)
      requires Valid() && Holds(subscribers, pc)
      modifies this`channels, this`log
      ensures Valid()
      ensures View() ==
                if pktType % 0x100 == 2 then
                  ForwardModel.Step(old(View()), ForwardModel.SubscribeRequest(pc.sessionId, pktType, D.Parse(data)))
                else if pktType % 0x100 == 3 then
                  ForwardModel.Step(old(View()), ForwardModel.UnsubscribeRequest(pc.sessionId, D.Parse(data)))
                else old(View())
    {
      if TypeOf(pktType) == IPC_PKT_TYPE_SUBSCRIBE_DEVICE_ID {
        ProcessPacketSubscriber(pc, pktType, data);
      } else if TypeOf(pktType) == IPC_PKT_TYPE_UNSUBSCRIBE_DEVICE_ID {
        ProcessPacketUnSubscriber(pc, data);
      }
    }

    method OnPacketError(pc: TcpSession)
      requires Valid() && Holds(subscribers, pc)
      modifies this
      ensures Valid() && pc.sessionId !in subscribers
      ensures View() == ForwardModel.Step(old(View()), ForwardModel.SessionError(pc.sessionId))
    {
      DelSubscriberEverywhere(pc.sessionId);
      assert forall d :: d in channels ==> Members(channels)[d] == channels[d].Keys;
      subscribers := subscribers - {pc.sessionId};
      ReleaseChannelIfEmptySubscriber();
    }

    // ---- Frames ----

    /** One turn of the channel's sending loop: number the frame, send it, and drop the member
        if that broke its connection. */
    method SendOne(d: Device, sid: Sid, pc: TcpSession, payload: seq<byte>) returns (lost: bool)
      requires d in channels && sid in channels[d] && channels[d][sid] == pc
      modifies this`channels, pc`calls, pc`canWrite, pc`wire, pc`pending, pc`lastSeqId
      ensures Delivered(pc, old(SubOf(pc)), payload, lost)
      ensures channels == if lost then old(channels)[d := old(channels)[d] - {sid}] else old(channels)
    {
      if pc.canWrite {
        var id := pc.GetIpcPktSeqId();
        var _ := pc.SendMsg(Ipc.Image(Ipc.Packet(id, FORWARDED_TYPE, payload)));
      }
      lost := !pc.canWrite;
      if lost {
        channels := channels[d := channels[d] - {sid}];
      }
    }

    /** That turn, told of all members. */
    method SendNext(d: Device, sid: Sid, pc: TcpSession, payload: seq<byte>, ghost was: Channel,
                    ghost before: map<Sid, Sub>, ghost todo: set<Sid>, ghost broken: set<Sid>)
      returns (lost: bool)
      requires Keyed(was) && sid in was && sid in todo && sid !in broken && AllDue(was, before, payload, todo, broken)
      requires d in channels && sid in channels[d] && channels[d][sid] == was[sid] == pc
      modifies this`channels, pc`calls, pc`canWrite, pc`wire, pc`pending, pc`lastSeqId
      ensures AllDue(was, before, payload, todo - {sid}, if lost then broken + {sid} else broken)
      ensures channels == if lost then old(channels)[d := old(channels)[d] - {sid}] else old(channels)
    {
      OthersDiffer(was, sid);
      lost := SendOne(d, sid, pc, payload);
      forall other | other in was
        ensures Due(was[other], before[other], payload, other !in todo - {sid}, other in if lost then broken + {sid} else broken)
      {
        assert old(Due(was[other], before[other], payload, other !in todo, other in broken));
        assert other != sid ==> SubOf(was[other]) == old(SubOf(was[other]));
      }
    }

    /** A payload goes, framed and numbered, to every writable member of the channel; exactly
        the members that are not writable afterwards are dropped. `members` are the objects in
        the channel. */
    method SendPayload(d: Device, payload: seq<byte>, ghost members: set<TcpSession>) returns (ghost broken: set<Sid>)
      requires d in channels
      requires Keyed(channels[d]) && forall sid :: sid in channels[d] ==> channels[d][sid] in members
      requires forall pc :: pc in members ==> Holds(channels[d], pc)
      modifies this`channels, members`calls, members`canWrite, members`wire, members`pending, members`lastSeqId
      ensures var was := old(channels)[d];
              && (forall sid :: sid in broken ==> sid in was)
              && (forall sid :: sid in was ==> Delivered(was[sid], old(SubOf(was[sid])), payload, sid in broken))
              && channels == old(channels)[d := was - broken]
    {
      broken := {};
      ghost var was := channels[d];
      ghost var before := map sid | sid in was :: SubOf(was[sid]);
      assert old(IsBefore(was, before));
      var todo := channels[d].Keys;
      assert was - broken == was;
      while todo != {}
        invariant todo <= was.Keys && forall sid :: sid in broken ==> sid in was && sid !in todo
        invariant channels == old(channels)[d := was - broken]
        invariant AllDue(was, before, payload, todo, broken)
      {
        var sid :| sid in todo;
        DropMore(old(channels), d, was, broken, sid);
        var lost := SendNext(d, sid, channels[d][sid], payload, was, before, todo, broken);
        if lost {
          broken := broken + {sid};
        }
        todo := todo - {sid};
      }
    }

    /** A message goes to the channel of its device: the device id, the packed header and the
        body behind one another. */
    method SendMsg(d: Device, m: Message, ghost members: set<TcpSession>) returns (ghost broken: set<Sid>)
      requires d in channels && Legal(m)
      requires Keyed(channels[d]) && forall sid :: sid in channels[d] ==> channels[d][sid] in members
      requires forall pc :: pc in members ==> Holds(channels[d], pc)
      modifies this`channels, members`calls, members`canWrite, members`wire, members`pending, members`lastSeqId
      ensures var was := old(channels)[d];
              && (forall sid :: sid in broken ==> sid in was)
              && (forall sid :: sid in was ==> Delivered(was[sid], old(SubOf(was[sid])), Payload(m), sid in broken))
              && channels == old(channels)[d := was - broken]
    {
      broken := SendPayload(d, Payload(m), members);
    }

    ghost function Live(): set<TcpSession>
      reads this
    {
      subscribers.Values
    }

    method Publish(m: Message) returns (ghost broken: set<Sid>)
      requires Valid() && Legal(m)
      modifies this`channels, Live()`calls, Live()`canWrite, Live()`wire, Live()`pending, Live()`lastSeqId
      ensures Valid() && View() == ForwardModel.Step(old(View()), ForwardModel.Frame(m.device, broken))
      ensures forall sid :: sid in subscribers ==>
                if m.device in old(channels) && sid in old(channels)[m.device]
                then Delivered(subscribers[sid], old(SubOf(subscribers[sid])), Payload(m), sid in broken)
                else SubOf(subscribers[sid]) == old(SubOf(subscribers[sid])) && sid !in broken
    {
      var d := m.device;
      broken := {};
      if d !in channels {
        return;
      }
      ObjectsOf(channels, subscribers, d);
      MembersUpdate(channels, d, channels[d]);
      ghost var was := channels;
      broken := SendMsg(d, m, Objects(channels, d));
      AgreeWithout(was, subscribers, d, broken);
      MembersDrop(was, d, broken);
    }
  }
}
