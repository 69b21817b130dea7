/** Tables of channels: for each device the sessions that get its frames, each under its own
    number. Both publishers keep one (pc_server/PcPublisher.h, jt1078/forward_server/Publisher.h). */
module Channels {
  import opened Ids
  import opened Tables
  import opened TcpSessions

  type Channel = map<Sid, TcpSession>

  /** Every session stands under its own number, so no two entries are the same object. */
  ghost predicate Keyed(c: Channel) {
    forall sid :: sid in c ==> c[sid].sessionId == sid
  }

  lemma OthersDiffer(c: Channel, sid: Sid)
    requires Keyed(c) && sid in c
    ensures forall other :: other in c && other != sid ==> c[other] != c[sid]
  {
  }

  predicate Holds(c: Channel, pc: TcpSession) { pc.sessionId in c && c[pc.sessionId] == pc }

  ghost function Members(channels: map<Device, Channel>): Table {
    map d | d in channels :: channels[d].Keys
  }

  /** A channel with one more member. */
  function With(c: Channel, pc: TcpSession): Channel { c + map[pc.sessionId := pc] }

  lemma MembersUpdate(channels: map<Device, Channel>, d: Device, c: Channel)
    ensures Members(channels[d := c]) == Members(channels)[d := c.Keys]
  {
  }

  lemma MembersDrop(channels: map<Device, Channel>, d: Device, gone: set<Sid>)
    requires d in channels
    ensures Members(channels[d := channels[d] - gone]) == Members(channels)[d := Members(channels)[d] - gone]
  {
    MembersUpdate(channels, d, channels[d] - gone);
    assert (channels[d] - gone).Keys == channels[d].Keys - gone;
  }

  lemma DropMore(channels: map<Device, Channel>, d: Device, c: Channel, broken: set<Sid>, sid: Sid)
    ensures var now := channels[d := c - broken];
            now[d := now[d] - {sid}] == channels[d := c - (broken + {sid})]
  {
    assert c - broken - {sid} == c - (broken + {sid});
  }

  /** Channels hold live sessions, each under its own number. */
  ghost predicate Agree(channels: map<Device, Channel>, sessions: map<Sid, TcpSession>) {
    forall d, sid :: d in channels && sid in channels[d] ==> sid in sessions && channels[d][sid] == sessions[sid]
  }

  lemma AgreeWithout(channels: map<Device, Channel>, sessions: map<Sid, TcpSession>, d: Device, gone: set<Sid>)
    requires Agree(channels, sessions) && d in channels
    ensures Agree(channels[d := channels[d] - gone], sessions)
  {
  }

  lemma AgreeWith(channels: map<Device, Channel>, sessions: map<Sid, TcpSession>, d: Device, pc: TcpSession)
    requires Agree(channels, sessions) && Holds(sessions, pc)
    ensures Agree(channels[d := With(if d in channels then channels[d] else map[], pc)], sessions)
  {
  }

  ghost function Objects(channels: map<Device, Channel>, d: Device): set<TcpSession> {
    if d in channels then set sid | sid in channels[d] :: channels[d][sid] else {}
  }

  lemma ObjectsOf(channels: map<Device, Channel>, sessions: map<Sid, TcpSession>, d: Device)
    requires Keyed(sessions) && Agree(channels, sessions) && d in channels
    ensures Keyed(channels[d]) && Objects(channels, d) <= sessions.Values
    ensures forall sid :: sid in channels[d] ==> channels[d][sid] in Objects(channels, d)
    ensures forall pc :: pc in Objects(channels, d) ==> Holds(channels[d], pc)
  {
    forall sid | sid in channels[d] ensures channels[d][sid] in sessions.Values && channels[d][sid].sessionId == sid {
      assert channels[d][sid] == sessions[sid] && sid in sessions.Keys;
    }
  }
}
