/** Operations on a table from devices to the sessions that get their frames, as every server
    that keeps one performs them (pc_server/PcPublisher.cpp,
    jt1078/forward_server/Publisher.cpp, new_web_server/CarTopicManager.h). */
module Tables {
  import opened Ids

  type Table = map<Device, set<Sid>>

  ghost predicate IsIn(table: Table, d: Device, sid: Sid) { d in table && sid in table[d] }

  /** Somebody else is in the channel. */
  ghost predicate HasOthers(table: Table, d: Device, sid: Sid) {
    exists other :: other != sid && IsIn(table, d, other)
  }

  /** One session out of one channel. */
  function Without(table: Table, d: Device, sid: Sid): Table {
    if d in table then table[d := table[d] - {sid}] else table
  }

  /** One session out of every channel. */
  function WithoutAnywhere(table: Table, sid: Sid): Table {
    map d | d in table :: table[d] - {sid}
  }

  /** Several sessions out of one channel, which stays even if that empties it. */
  function Pruned(table: Table, d: Device, gone: set<Sid>): Table {
    if d in table then table[d := table[d] - gone] else table
  }

  /** The channels nobody is in. */
  function Empties(table: Table): set<Device> {
    set d | d in table && table[d] == {}
  }
}
