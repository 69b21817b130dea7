/** The viewer server's table of channels: which sessions get a device's frames
    (pc_server/PcPublisher.cpp). */
module PcPublishers {
  import opened Bytes
  import opened Channels
  import opened Ids
  import opened Ordered
  import opened Tables
  import opened TcpSessions
  import PcModel

  /** A session that stood as `before` has been offered the packet; `lost` says it is not
      writable any more. */
  ghost predicate Served(pc: TcpSession, before: Sock, packet: seq<byte>, lost: bool)
    reads pc
  {
    pc.View() == Offer(before, packet) && lost == !pc.canWrite
  }

  /** Where a member stands in the publishing loop. */
  ghost predicate Due(pc: TcpSession, before: Sock, packet: seq<byte>, done: bool, lost: bool)
    reads pc
  {
    if done then Served(pc, before, packet, lost) else pc.View() == before
  }

  ghost predicate AllDue(was: Channel, before: map<Sid, Sock>, packet: seq<byte>, todo: set<Sid>, broken: set<Sid>)
    reads was.Values
  {
    forall sid :: sid in was ==> sid in before && Due(was[sid], before[sid], packet, sid !in todo, sid in broken)
  }

  ghost predicate IsBefore(was: Channel, before: map<Sid, Sock>)
    reads was.Values
  {
    before.Keys == was.Keys && forall sid :: sid in was ==> before[sid] == was[sid].View()
  }

  class PcPublisher {
    var channels: map<Device, Channel>

    constructor ()
      ensures channels == map[]
    {
      channels := map[];
    }

    /** One turn of the publishing loop. */
    method PublishOne(d: Device, sid: Sid, pc: TcpSession, packet: seq<byte>) returns (lost: bool)
      requires d in channels && sid in channels[d] && channels[d][sid] == pc
      modifies this, pc`calls, pc`canWrite, pc`wire, pc`pending
      ensures Served(pc, old(pc.View()), packet, lost)
      ensures channels == if lost then old(channels)[d := old(channels)[d] - {sid}] else old(channels)
    {
      if pc.canWrite {
        var _ := pc.SendPacket(packet);
      }
      lost := !pc.canWrite;
      if lost {
        channels := channels[d := channels[d] - {sid}];
      }
    }

    /** That turn, told of all members. */
    method PublishNext(d: Device, sid: Sid, pc: TcpSession, packet: seq<byte>, ghost was: Channel,
                       ghost before: map<Sid, Sock>, ghost todo: set<Sid>, ghost broken: set<Sid>)
      returns (lost: bool)
      requires Keyed(was) && sid in was && sid in todo && sid !in broken && AllDue(was, before, packet, todo, broken)
      requires d in channels && sid in channels[d] && channels[d][sid] == was[sid] == pc
      modifies this, pc`calls, pc`canWrite, pc`wire, pc`pending
      ensures AllDue(was, before, packet, todo - {sid}, if lost then broken + {sid} else broken)
      ensures channels == if lost then old(channels)[d := old(channels)[d] - {sid}] else old(channels)
    {
      OthersDiffer(was, sid);
      lost := PublishOne(d, sid, pc, packet);
      forall other | other in was
        ensures Due(was[other], before[other], packet, other !in todo - {sid}, other in if lost then broken + {sid} else broken)
      {
        assert old(Due(was[other], before[other], packet, other !in todo, other in broken));
        assert other != sid ==> was[other].View() == old(was[other].View());
      }
    }

    /** Each writable member is handed the packet; the members that are not writable
        afterwards are dropped. `members` are the objects in the channel. */
    method Publish(d: Device, packet: seq<byte>, ghost members: set<TcpSession>) returns (ghost broken: set<Sid>)
      requires d in channels ==> Keyed(channels[d]) && forall sid :: sid in channels[d] ==> channels[d][sid] in members
      requires forall pc :: pc in members ==> d in channels && Holds(channels[d], pc)
      modifies this, members`calls, members`canWrite, members`wire, members`pending
      ensures d !in old(channels) ==> channels == old(channels) && broken == {}
      ensures d in old(channels) ==>
                var was := old(channels)[d];
                && (forall sid :: sid in broken ==> sid in was)
                && (forall sid :: sid in was ==> Served(was[sid], old(was[sid].View()), packet, sid in broken))
                && channels == old(channels)[d := was - broken]
    {
      broken := {};
      if d !in channels {
        return;
      }
      ghost var was := channels[d];
      ghost var before := map sid | sid in was :: was[sid].View();
      assert old(IsBefore(was, before));
      var todo := channels[d].Keys;
      assert was - broken == was;
      while todo != {}
        invariant todo <= was.Keys && forall sid :: sid in broken ==> sid in was && sid !in todo
        invariant channels == old(channels)[d := was - broken]
        invariant AllDue(was, before, packet, todo, broken)
      {
        var sid :| sid in todo;
        DropMore(old(channels), d, was, broken, sid);
        var lost := PublishNext(d, sid, channels[d][sid], packet, was, before, todo, broken);
        if lost {
          broken := broken + {sid};
        }
        todo := todo - {sid};
      }
    }

    /** Inserting a member that is already there changes nothing. */
    method AddSubscriber(d: Device, pc: TcpSession)
      requires d in channels && pc.sessionId in channels[d] ==> channels[d][pc.sessionId] == pc
      modifies this
      ensures channels == old(channels)[d := With(if d in old(channels) then old(channels)[d] else map[], pc)]
      ensures Members(channels) == PcModel.WithSubscriber(old(Members(channels)), d, pc.sessionId)
    {
      ghost var was := channels;
      if d !in channels {
        channels := channels[d := map[]];
      }
      ghost var c := With(channels[d], pc);
      assert c.Keys == channels[d].Keys + {pc.sessionId};
      assert pc.sessionId in channels[d] ==> c == channels[d];
      MembersUpdate(was, d, c);
      assert c.Keys == (if d in was then Members(was)[d] else {}) + {pc.sessionId};
      assert channels[d := c] == was[d := c];
      if pc.sessionId !in channels[d] {
        channels := channels[d := With(channels[d], pc)];
      }
    }

    method DelSubscriber(d: Device, pc: TcpSession)
      modifies this
      ensures channels == if d in old(channels) then old(channels)[d := old(channels)[d] - {pc.sessionId}] else old(channels)
      ensures Members(channels) == Without(old(Members(channels)), d, pc.sessionId)
    {
      if d !in channels {
        return;
      }
      channels := channels[d := channels[d] - {pc.sessionId}];
    }

    method SizeSubscriber(d: Device) returns (n: nat)
      ensures n == PcModel.SizeSubscriber(Members(channels), d)
    {
      if d !in channels {
        return 0;
      }
      return |channels[d].Keys|;
    }

    /** All devices with a channel, or only those somebody is watching. */
    method GetAllDeviceId(filterEmpty: bool) returns (result: set<Device>)
      ensures result == if filterEmpty then PcModel.Watched(Members(channels)) else channels.Keys
    {
      result := {};
      var todo := channels.Keys;
      while todo != {}
        invariant todo <= channels.Keys
        invariant result == set d | d in channels && d !in todo && (filterEmpty ==> channels[d].Keys != {})
      {
        var d := Next(todo);
        if filterEmpty {
          if channels[d].Keys != {} {
            result := result + {d};
          }
        } else {
          result := result + {d};
        }
        todo := todo - {d};
      }
    }
  }
}
