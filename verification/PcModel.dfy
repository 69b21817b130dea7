/** What each event does to the viewer server: who watches what, what it has asked the
    upstream server for on the present connection, and the invariant that keeps the two in
    step (pc_server/PcServer.cpp, pc_server/PcPublisher.cpp). */
module PcModel {
  import opened DeviceId
  import opened Ids
  import opened IpcPktType
  import opened Ordered
  import opened Tables

  /** The upstream client: absent, dialling, or connected. */
  datatype Link = Down | Connecting | Up

  /** `viewers` holds the device string each live session has recorded, empty for none;
      `channels` the sessions that get a device's frames; `sent` the requests written since
      the connection came up. */
  datatype PcState = PcState(link: Link, viewers: map<Sid, string>, channels: Table, sent: seq<Request>)

  ghost const START := PcState(Connecting, map[], map[], [])

  // ---- The publisher's table ----

  function WithSubscriber(channels: Table, d: Device, sid: Sid): Table {
    channels[d := (if d in channels then channels[d] else {}) + {sid}]
  }

  function SizeSubscriber(channels: Table, d: Device): nat {
    if d in channels then |channels[d]| else 0
  }

  // ---- Events ----

  function Ask(kind: nat, data: string): Request {
    Request(kind + IPC_PKT_FROM_PC_SERVER, data)
  }

  ghost function Send(st: PcState, kind: nat, data: string): PcState {
    st.(sent := st.sent + [Ask(kind, data)])
  }

  /** The state once a session has left its device's channel, and that was said upstream if it
      emptied the channel. */
  ghost function Left(st: PcState, sid: Sid, device: string): PcState {
    var st1 := st.(channels := Without(st.channels, Parse(device), sid));
    if SizeSubscriber(st1.channels, Parse(device)) == 0 && st1.link.Up?
    then Send(st1, IPC_PKT_TYPE_UNSUBSCRIBE_DEVICE_ID, device) else st1
  }

  /** The state in which a session has entered a channel, and that was said upstream if the
      channel was empty. */
  ghost function Entered(st: PcState, sid: Sid, device: string): PcState {
    var st1 := st.(channels := WithSubscriber(st.channels, Parse(device), sid));
    if SizeSubscriber(st1.channels, Parse(device)) == 1
    then Send(st1, IPC_PKT_TYPE_SUBSCRIBE_DEVICE_ID, device) else st1
  }

  /** A session leaving whatever it has recorded before a different device. */
  ghost function TryUnsubscribeOld(st: PcState, sid: Sid, newDevice: string): PcState
    requires sid in st.viewers
  {
    var was := st.viewers[sid];
    if was == "" || was == newDevice then st else Left(st, sid, was)
  }

  ghost function Subscribe(st: PcState, sid: Sid, device: string): PcState
    requires sid in st.viewers
  {
    var st1 := TryUnsubscribeOld(st, sid, device);
    var st2 := st1.(viewers := st1.viewers[sid := device]);
    if device == "" then st2 else Entered(st2, sid, device)
  }

  /** The state in which a session has unsubscribed but still stands with what it recorded. */
  ghost function Unsubscribing(st: PcState, sid: Sid): PcState
    requires sid in st.viewers
  {
    if st.viewers[sid] == "" then st else Left(st, sid, st.viewers[sid])
  }

  ghost function Unsubscribe(st: PcState, sid: Sid): PcState
    requires sid in st.viewers
  {
    Unsubscribing(st, sid).(viewers := st.viewers[sid := ""])
  }

  ghost function NewViewer(st: PcState, sid: Sid): PcState {
    st.(viewers := st.viewers[sid := ""])
  }

  /** A request from a viewer; ignored while the upstream server is not connected. */
  ghost function ViewerPacket(st: PcState, sid: Sid, pktType: nat, data: string): PcState
    requires sid in st.viewers
  {
    if !st.link.Up? then st
    else if TypeOf(pktType) == IPC_PKT_TYPE_SUBSCRIBE_DEVICE_ID then Subscribe(st, sid, data)
    else if TypeOf(pktType) == IPC_PKT_TYPE_UNSUBSCRIBE_DEVICE_ID then Unsubscribe(st, sid)
    else st
  }

  ghost function ViewerError(st: PcState, sid: Sid): PcState
    requires sid in st.viewers
  {
    var st' := Unsubscribe(st, sid);
    st'.(viewers := st'.viewers - {sid})
  }

  /** Devices with at least one viewer in their channel. */
  ghost function Watched(channels: Table): set<Device> {
    set d | d in channels && channels[d] != {}
  }

  ghost function AskFor(devices: seq<Device>): seq<Request> {
    if devices == [] then []
    else [Ask(IPC_PKT_TYPE_SUBSCRIBE_DEVICE_ID, Print(devices[0]))] + AskFor(devices[1..])
  }

  /** A new attempt drops whatever client there was; it may fail before it is under way. */
  ghost function Dial(st: PcState, ok: bool): PcState {
    st.(link := if ok then Connecting else Down, sent := [])
  }

  /** The outcome of a dial. A new connection starts by asking again for every watched
      device, in ascending order. */
  ghost function ClientConnect(st: PcState, ok: bool): PcState {
    if ok then st.(link := Up, sent := AskFor(Ascending(Watched(st.channels))))
    else st.(link := Down, sent := [])
  }

  ghost function ClientError(st: PcState): PcState { st.(link := Down, sent := []) }

  ghost function Heartbeat(st: PcState): PcState {
    if st.link.Up? then Send(st, IPC_PKT_TYPE_HEARTBEAT, "") else st
  }

  /** A frame goes out to a channel; the viewers that turn out unwritable are dropped from
      it, but stay connected and keep what they recorded. */
  ghost function Publish(st: PcState, d: Device, broken: set<Sid>): PcState {
    st.(channels := Pruned(st.channels, d, broken))
  }

  // ---- Requests are only ever added behind those already sent ----

  ghost predicate Extends(st: PcState, st': PcState) {
    st'.link == st.link && st.sent <= st'.sent
  }

  lemma SendExtends(st: PcState, kind: nat, data: string)
    ensures Extends(st, Send(st, kind, data))
  {
  }

  lemma SubscribeExtends(st: PcState, sid: Sid, device: string)
    requires sid in st.viewers
    ensures Extends(st, Subscribe(st, sid, device))
  {
    var st1 := TryUnsubscribeOld(st, sid, device);
    assert Extends(st, st1);
    var st2 := st1.(viewers := st1.viewers[sid := device]);
    if device != "" {
      assert Extends(st2, Entered(st2, sid, device));
    }
  }

  lemma UnsubscribeExtends(st: PcState, sid: Sid)
    requires sid in st.viewers
    ensures Extends(st, Unsubscribe(st, sid)) && Extends(st, ViewerError(st, sid))
  {
    assert Extends(st, Unsubscribing(st, sid));
  }

  lemma ViewerPacketExtends(st: PcState, sid: Sid, pktType: nat, data: string)
    requires sid in st.viewers
    ensures Extends(st, ViewerPacket(st, sid, pktType, data))
  {
    SubscribeExtends(st, sid, data);
    UnsubscribeExtends(st, sid);
  }

  // ---- What the requests add up to ----

  /** The devices subscribed after one more request. */
  function Applied(s: set<Device>, r: Request): set<Device> {
    if TypeOf(r.pktType) == IPC_PKT_TYPE_SUBSCRIBE_DEVICE_ID then s + {Parse(r.data)}
    else if TypeOf(r.pktType) == IPC_PKT_TYPE_UNSUBSCRIBE_DEVICE_ID then s - {Parse(r.data)}
    else s
  }

  ghost function Fold(s: set<Device>, rs: seq<Request>): set<Device> {
    if rs == [] then s else Applied(Fold(s, rs[..|rs| - 1]), rs[|rs| - 1])
  }

  /** What the viewer server believes it is subscribed to. */
  ghost function Believed(st: PcState): set<Device> { Fold({}, st.sent) }

  /** This live session has recorded this device. */
  ghost predicate RecordedUnder(viewers: map<Sid, string>, sid: Sid, d: Device) {
    sid in viewers && viewers[sid] != "" && Parse(viewers[sid]) == d
  }

  /** Some live session has. */
  ghost predicate Recorded(viewers: map<Sid, string>, d: Device) {
    exists sid :: RecordedUnder(viewers, sid, d)
  }

  ghost predicate AllRecorded(s: set<Device>, viewers: map<Sid, string>) {
    forall d :: d in s ==> Recorded(viewers, d)
  }

  lemma FoldSnoc(s: set<Device>, rs: seq<Request>, r: Request)
    ensures Fold(s, rs + [r]) == Applied(Fold(s, rs), r)
  {
    assert (rs + [r])[..|rs|] == rs;
  }

  lemma {:induction false} FoldAppend(s: set<Device>, a: seq<Request>, b: seq<Request>)
    ensures Fold(s, a + b) == Fold(Fold(s, a), b)
  {
    if b == [] {
      assert a + b == a;
    } else {
      var n := |b| - 1;
      FoldAppend(s, a, b[..n]);
      FoldSnoc(s, a + b[..n], b[n]);
      FoldSnoc(Fold(s, a), b[..n], b[n]);
      LastOf(a, b);
    }
  }

  lemma LastOf<T>(a: seq<T>, b: seq<T>)
    requires b != []
    ensures var n := |b| - 1; a + b == a + b[..n] + [b[n]] && b == b[..n] + [b[n]]
  {
  }

  lemma TypeOfAsk(kind: nat, data: string)
    requires kind < 0x100
    ensures TypeOf(Ask(kind, data).pktType) == kind
  {
  }

  /** What asking for devices by their printed ids subscribes. */
  ghost function Reprinted(devices: seq<Device>): set<Device> {
    set d | d in devices :: Parse(Print(d))
  }

  lemma FoldAskOne(s: set<Device>, d: Device)
    ensures Fold(s, [Ask(IPC_PKT_TYPE_SUBSCRIBE_DEVICE_ID, Print(d))]) == s + {Parse(Print(d))}
  {
    TypeOfAsk(IPC_PKT_TYPE_SUBSCRIBE_DEVICE_ID, Print(d));
    FoldSnoc(s, [], Ask(IPC_PKT_TYPE_SUBSCRIBE_DEVICE_ID, Print(d)));
  }

  lemma {:induction false} FoldAskFor(s: set<Device>, devices: seq<Device>)
    ensures Fold(s, AskFor(devices)) == s + Reprinted(devices)
    decreases |devices|
  {
    if devices == [] {
      assert Reprinted(devices) == {};
    } else {
      var d, later := devices[0], devices[1..];
      FoldAskOne(s, d);
      FoldAppend(s, [Ask(IPC_PKT_TYPE_SUBSCRIBE_DEVICE_ID, Print(d))], AskFor(later));
      FoldAskFor(s + {Parse(Print(d))}, later);
      ReprintedFirst(devices);
      Gathered(s, {Parse(Print(d))}, Reprinted(later));
    }
  }

  lemma Gathered<T>(a: set<T>, b: set<T>, c: set<T>)
    ensures a + b + c == a + (b + c)
  {
  }

  lemma ReprintedFirst(devices: seq<Device>)
    requires devices != []
    ensures Reprinted(devices) == {Parse(Print(devices[0]))} + Reprinted(devices[1..])
  {
    assert forall e :: e in devices <==> e == devices[0] || e in devices[1..];
  }

  // ---- The invariant ----

  /** Channel members are live and recorded under that device. */
  ghost predicate TablesAgree(st: PcState) {
    forall d, sid :: d in st.channels && sid in st.channels[d] ==> RecordedUnder(st.viewers, sid, d)
  }

  /** While connected: every watched device is subscribed, and every subscribed device is
      recorded by a live session. */
  ghost predicate Sandwiched(st: PcState) {
    st.link.Up? ==> Watched(st.channels) <= Believed(st) && AllRecorded(Believed(st), st.viewers)
  }

  ghost predicate Inv(st: PcState) { TablesAgree(st) && Sandwiched(st) }

  /** A device recorded by someone else is still recorded whatever this session records. */
  lemma StillRecorded(viewers: map<Sid, string>, sid: Sid, device: string, e: Device)
    requires Recorded(viewers, e) && !RecordedUnder(viewers, sid, e)
    ensures Recorded(viewers - {sid}, e) && Recorded(viewers[sid := device], e)
  {
    var other :| RecordedUnder(viewers, other, e);
    assert RecordedUnder(viewers - {sid}, other, e);
    assert RecordedUnder(viewers[sid := device], other, e);
  }

  /** The channel has other members, so the device is still recorded without this session. */
  lemma CompanyStays(st: PcState, sid: Sid, d: Device)
    requires TablesAgree(st) && d in st.channels && st.channels[d] - {sid} != {}
    ensures Recorded(st.viewers - {sid}, d)
  {
    var member :| member in st.channels[d] - {sid};
    assert RecordedUnder(st.viewers, member, d);
    assert RecordedUnder(st.viewers - {sid}, member, d);
  }

  lemma OutOfChannel(channels: Table, d: Device, sid: Sid)
    ensures var out := Without(channels, d, sid);
            && Watched(out) <= Watched(channels)
            && (d in Watched(out) <==> SizeSubscriber(out, d) != 0)
            && (d in Watched(out) ==> d in channels && channels[d] - {sid} != {})
  {
  }

  lemma LeftBelieves(st: PcState, sid: Sid, device: string)
    requires st.link.Up?
    ensures Believed(Left(st, sid, device)) ==
              if Parse(device) in Watched(Without(st.channels, Parse(device), sid)) then Believed(st)
              else Believed(st) - {Parse(device)}
  {
    OutOfChannel(st.channels, Parse(device), sid);
    TypeOfAsk(IPC_PKT_TYPE_UNSUBSCRIBE_DEVICE_ID, device);
    FoldSnoc({}, st.sent, Ask(IPC_PKT_TYPE_UNSUBSCRIBE_DEVICE_ID, device));
  }

  ghost predicate NowhereIn(channels: Table, sid: Sid) {
    forall d :: d in channels ==> sid !in channels[d]
  }

  /** The invariant, with this session in no channel and not counted as recording anything. */
  ghost predicate Detached(st: PcState, sid: Sid) {
    && TablesAgree(st) && NowhereIn(st.channels, sid)
    && (st.link.Up? ==> Watched(st.channels) <= Believed(st) && AllRecorded(Believed(st), st.viewers - {sid}))
  }

  lemma LeftAgrees(st: PcState, sid: Sid)
    requires TablesAgree(st) && sid in st.viewers
    ensures TablesAgree(Left(st, sid, st.viewers[sid])) && NowhereIn(Left(st, sid, st.viewers[sid]).channels, sid)
  {
    var d, st' := Parse(st.viewers[sid]), Left(st, sid, st.viewers[sid]);
    forall e | e in st'.channels ensures sid !in st'.channels[e] {
      assert e != d && sid in st.channels[e] ==> RecordedUnder(st.viewers, sid, e);
    }
    forall e, other | e in st'.channels && other in st'.channels[e] ensures RecordedUnder(st'.viewers, other, e) {
      assert other in st.channels[e];
    }
  }

  /** Afterwards the device is subscribed only if someone else is in its channel. */
  lemma Leave(st: PcState, sid: Sid, device: string)
    requires Inv(st) && sid in st.viewers && device == st.viewers[sid] != ""
    ensures Detached(Left(st, sid, device), sid)
  {
    var d, st' := Parse(device), Left(st, sid, device);
    LeftAgrees(st, sid);
    if st.link.Up? {
      OutOfChannel(st.channels, d, sid);
      LeftBelieves(st, sid, device);
      forall e | e in Believed(st') ensures Recorded(st.viewers - {sid}, e) {
        if e == d {
          CompanyStays(st, sid, d);
        } else {
          StillRecorded(st.viewers, sid, "", e);
        }
      }
    }
  }

  /** A session that has recorded nothing is in no channel, and contributes nothing. */
  lemma IdleSession(st: PcState, sid: Sid)
    requires Inv(st) && (sid in st.viewers ==> st.viewers[sid] == "")
    ensures Detached(st, sid)
  {
    forall d | d in st.channels ensures sid !in st.channels[d] {
      assert !RecordedUnder(st.viewers, sid, d);
    }
    if st.link.Up? {
      forall e | e in Believed(st) ensures Recorded(st.viewers - {sid}, e) {
        StillRecorded(st.viewers, sid, "", e);
      }
    }
  }

  /** A session in no channel may come to record anything. */
  lemma RecordTables(st: PcState, sid: Sid, device: string)
    requires TablesAgree(st) && NowhereIn(st.channels, sid)
    ensures TablesAgree(st.(viewers := st.viewers[sid := device])) && TablesAgree(st.(viewers := st.viewers - {sid}))
  {
    var after, without := st.viewers[sid := device], st.viewers - {sid};
    forall d, other | d in st.channels && other in st.channels[d]
      ensures RecordedUnder(after, other, d) && RecordedUnder(without, other, d) {
      assert RecordedUnder(st.viewers, other, d) && other != sid;
    }
  }

  lemma RecordAnew(st: PcState, sid: Sid, device: string)
    requires Detached(st, sid)
    ensures Inv(st.(viewers := st.viewers[sid := device])) && Inv(st.(viewers := st.viewers - {sid}))
  {
    var after, without := st.viewers[sid := device], st.viewers - {sid};
    RecordTables(st, sid, device);
    forall e | Recorded(without, e) ensures Recorded(after, e) {
      var other :| RecordedUnder(without, other, e);
      assert RecordedUnder(after, other, e);
    }
  }

  lemma UnsubscribingKeeps(st: PcState, sid: Sid)
    requires Inv(st) && sid in st.viewers
    ensures Detached(Unsubscribing(st, sid), sid)
  {
    if st.viewers[sid] == "" {
      IdleSession(st, sid);
    } else {
      Leave(st, sid, st.viewers[sid]);
    }
  }

  lemma UnsubscribeKeeps(st: PcState, sid: Sid)
    requires Inv(st) && sid in st.viewers
    ensures Inv(Unsubscribe(st, sid)) && NowhereIn(Unsubscribe(st, sid).channels, sid)
  {
    UnsubscribingKeeps(st, sid);
    RecordAnew(Unsubscribing(st, sid), sid, "");
  }

  lemma Forget(viewers: map<Sid, string>, sid: Sid)
    ensures viewers[sid := ""] - {sid} == viewers - {sid}
  {
  }

  lemma ViewerErrorKeeps(st: PcState, sid: Sid)
    requires Inv(st) && sid in st.viewers
    ensures Inv(ViewerError(st, sid))
    ensures sid !in ViewerError(st, sid).viewers && NowhereIn(ViewerError(st, sid).channels, sid)
  {
    UnsubscribingKeeps(st, sid);
    RecordAnew(Unsubscribing(st, sid), sid, "");
    Forget(st.viewers, sid);
  }

  lemma EnteredBelieves(st: PcState, sid: Sid, device: string)
    requires Watched(st.channels) <= Believed(st)
    ensures Believed(Entered(st, sid, device)) == Believed(st) + {Parse(device)}
  {
    TypeOfAsk(IPC_PKT_TYPE_SUBSCRIBE_DEVICE_ID, device);
    FoldSnoc({}, st.sent, Ask(IPC_PKT_TYPE_SUBSCRIBE_DEVICE_ID, device));
    IntoChannel(st.channels, Parse(device), sid);
  }

  lemma Enter(st: PcState, sid: Sid, device: string)
    requires Inv(st) && st.link.Up? && RecordedUnder(st.viewers, sid, Parse(device))
    ensures Inv(Entered(st, sid, device))
  {
    IntoChannel(st.channels, Parse(device), sid);
    EnteredBelieves(st, sid, device);
  }

  lemma IntoChannel(channels: Table, d: Device, sid: Sid)
    ensures var into := WithSubscriber(channels, d, sid);
            && Watched(into) == Watched(channels) + {d}
            && (d in Watched(channels) || SizeSubscriber(into, d) == 1)
  {
    var into := WithSubscriber(channels, d, sid);
    assert sid in into[d];
    assert d !in Watched(channels) ==> into[d] == {sid};
  }

  /** Recording the new device, between leaving the old channel and entering the new one. */
  lemma SwitchKeeps(st: PcState, sid: Sid, device: string)
    requires Inv(st) && st.link.Up? && sid in st.viewers
    ensures var st1 := TryUnsubscribeOld(st, sid, device);
            Inv(st1.(viewers := st1.viewers[sid := device])) && st1.link.Up?
  {
    var was := st.viewers[sid];
    if was == device {
      assert st.viewers[sid := device] == st.viewers;
    } else {
      UnsubscribingKeeps(st, sid);
      RecordAnew(Unsubscribing(st, sid), sid, device);
      assert TryUnsubscribeOld(st, sid, device) == Unsubscribing(st, sid);
    }
  }

  lemma SubscribeKeeps(st: PcState, sid: Sid, device: string)
    requires Inv(st) && st.link.Up? && sid in st.viewers
    ensures Inv(Subscribe(st, sid, device))
  {
    SwitchKeeps(st, sid, device);
    if device != "" {
      var st1 := TryUnsubscribeOld(st, sid, device);
      var st2 := st1.(viewers := st1.viewers[sid := device]);
      Enter(st2, sid, device);
    }
  }

  lemma ViewerPacketKeeps(st: PcState, sid: Sid, pktType: nat, data: string)
    requires Inv(st) && sid in st.viewers
    ensures Inv(ViewerPacket(st, sid, pktType, data))
  {
    if st.link.Up? {
      if TypeOf(pktType) == IPC_PKT_TYPE_SUBSCRIBE_DEVICE_ID {
        SubscribeKeeps(st, sid, data);
      } else if TypeOf(pktType) == IPC_PKT_TYPE_UNSUBSCRIBE_DEVICE_ID {
        UnsubscribeKeeps(st, sid);
      }
    }
  }

  lemma NewViewerKeeps(st: PcState, sid: Sid)
    requires Inv(st) && sid !in st.viewers
    ensures Inv(NewViewer(st, sid))
  {
    IdleSession(st, sid);
    RecordAnew(st, sid, "");
  }

  lemma PublishKeeps(st: PcState, d: Device, broken: set<Sid>)
    requires Inv(st)
    ensures Inv(Publish(st, d, broken))
  {
    var after := Publish(st, d, broken);
    assert forall e :: e in Watched(after.channels) ==> e in Watched(st.channels);
  }

  /** Without a connection only the tables have to agree. */
  lemma LinkDownKeeps(st: PcState)
    requires TablesAgree(st)
    ensures Inv(Dial(st, true)) && Inv(Dial(st, false)) && Inv(ClientError(st)) && Inv(ClientConnect(st, false))
  {
  }

  lemma HeartbeatKeeps(st: PcState)
    requires Inv(st)
    ensures Inv(Heartbeat(st))
  {
    TypeOfAsk(IPC_PKT_TYPE_HEARTBEAT, "");
    FoldSnoc({}, st.sent, Ask(IPC_PKT_TYPE_HEARTBEAT, ""));
  }

  lemma WatchedIsRecorded(st: PcState)
    requires TablesAgree(st)
    ensures AllRecorded(Watched(st.channels), st.viewers)
  {
    forall d | d in Watched(st.channels) ensures Recorded(st.viewers, d) {
      var sid :| sid in st.channels[d];
      assert RecordedUnder(st.viewers, sid, d);
    }
  }

  ghost predicate AllPrintable(s: set<Device>) {
    forall d :: d in s ==> Printable(d)
  }

  /** What a new connection asks for. */
  lemma ReconnectBelieves(st: PcState)
    ensures Believed(ClientConnect(st, true)) == set d | d in Watched(st.channels) :: Parse(Print(d))
  {
    FoldAskFor({}, Ascending(Watched(st.channels)));
    assert Reprinted(Ascending(Watched(st.channels))) == set d | d in Watched(st.channels) :: Parse(Print(d));
  }

  lemma PrintableIsReprinted(s: set<Device>)
    ensures AllPrintable(s) <==> (set d | d in s :: Parse(Print(d))) == s
  {
    var again := set d | d in s :: Parse(Print(d));
    forall d | d in s ensures Printable(Parse(Print(d))) && (Printable(d) ==> Parse(Print(d)) == d) {
      PrintedIsPrintable(d);
    }
    if AllPrintable(s) {
      forall d | d in s ensures d in again {
        assert Parse(Print(d)) == d;
      }
    }
  }

  /** A device that is asked for by its printed id is one that can be printed. */
  lemma AskedIsPrintable(st: PcState)
    requires Watched(st.channels) <= Believed(ClientConnect(st, true))
    ensures AllPrintable(Watched(st.channels))
  {
    ReconnectBelieves(st);
    forall d | d in Watched(st.channels) ensures Printable(d) {
      var e :| e in Watched(st.channels) && Parse(Print(e)) == d;
      PrintedIsPrintable(e);
    }
  }

  /** Reconnecting rebuilds the subscriptions from the channels alone, whatever was lost with
      the old connection: exactly the watched devices are subscribed again if and only if
      their ids can be printed in fourteen digits. */
  lemma ReconnectExact(st: PcState)
    requires TablesAgree(st)
    ensures Believed(ClientConnect(st, true)) == Watched(st.channels) <==> AllPrintable(Watched(st.channels))
    ensures Inv(ClientConnect(st, true)) <==> AllPrintable(Watched(st.channels))
  {
    if AllPrintable(Watched(st.channels)) {
      ReconnectBelieves(st);
      PrintableIsReprinted(Watched(st.channels));
      WatchedIsRecorded(st);
    } else if Watched(st.channels) <= Believed(ClientConnect(st, true)) {
      AskedIsPrintable(st);
    }
  }

  // ---- A run that loses a subscription ----

  /** The first dial succeeds, one viewer subscribes, the connection is lost and dialled again. */
  ghost function Redialling(sid: Sid, device: string): PcState {
    var up := ClientConnect(NewViewer(START, sid), true);
    Dial(ClientError(Subscribe(up, sid, device)), true)
  }

  lemma OneChannel(d: Device, sid: Sid)
    ensures WithSubscriber(map[], d, sid) == map[d := {sid}]
  {
    assert {} + {sid} == {sid};
  }

  lemma SubscribedState(sid: Sid, device: string)
    requires device != ""
    ensures Subscribe(ClientConnect(NewViewer(START, sid), true), sid, device)
         == PcState(Up, map[sid := device], map[Parse(device) := {sid}], [Ask(IPC_PKT_TYPE_SUBSCRIBE_DEVICE_ID, device)])
  {
    var up := ClientConnect(NewViewer(START, sid), true);
    assert Watched(up.channels) == {} && up == PcState(Up, map[sid := ""], map[], []);
    OneChannel(Parse(device), sid);
    assert map[sid := ""][sid := device] == map[sid := device];
  }

  lemma RedialledState(sid: Sid, device: string)
    requires device != ""
    ensures Redialling(sid, device) == PcState(Connecting, map[sid := device], map[Parse(device) := {sid}], [])
  {
    SubscribedState(sid, device);
  }

  /** Its reconnect goes wrong exactly when the id has too many digits. */
  lemma ReconnectLoses(sid: Sid, device: string)
    requires device != ""
    ensures Inv(ClientConnect(Redialling(sid, device), true)) <==> Printable(Parse(device))
  {
    var st := Redialling(sid, device);
    RedialledState(sid, device);
    assert RecordedUnder(st.viewers, sid, Parse(device));
    assert Watched(st.channels) == {Parse(device)};
    ReconnectExact(st);
  }

  /** Fifteen digits are too many, and so is minus one. */
  lemma TooManyDigits(device: string)
    requires device == PrintDigits(Pow16(DIGITS), DIGITS + 1) || device == "-1"
    ensures device != "" && !Printable(Parse(device))
  {
    WidthOfType();
    if device == "-1" {
      FitsUnlessNegative(device);
      assert device == "-" + "1" && "1"[1..] == "";
      ParseOfMinus("1");
    } else {
      PrintIsHex(Pow16(DIGITS), DIGITS + 1);
      ValueOfPrintDigits(Pow16(DIGITS), DIGITS + 1);
      ParseOfHex(device);
    }
  }

  // ---- The tables alone, whatever was asked for upstream ----

  lemma UnsubscribingTables(st: PcState, sid: Sid)
    requires TablesAgree(st) && sid in st.viewers
    ensures TablesAgree(Unsubscribing(st, sid)) && NowhereIn(Unsubscribing(st, sid).channels, sid)
  {
    if st.viewers[sid] == "" {
      forall d | d in st.channels ensures sid !in st.channels[d] {
        assert !RecordedUnder(st.viewers, sid, d);
      }
    } else {
      LeftAgrees(st, sid);
    }
  }

  lemma ViewerErrorTables(st: PcState, sid: Sid)
    requires TablesAgree(st) && sid in st.viewers
    ensures TablesAgree(Unsubscribe(st, sid)) && TablesAgree(ViewerError(st, sid))
    ensures NowhereIn(Unsubscribe(st, sid).channels, sid)
  {
    UnsubscribingTables(st, sid);
    RecordTables(Unsubscribing(st, sid), sid, "");
    Forget(st.viewers, sid);
  }

  lemma SwitchTables(st: PcState, sid: Sid, device: string)
    requires TablesAgree(st) && sid in st.viewers
    ensures var st1 := TryUnsubscribeOld(st, sid, device); TablesAgree(st1.(viewers := st1.viewers[sid := device]))
  {
    if st.viewers[sid] == device {
      assert st.viewers[sid := device] == st.viewers;
    } else {
      UnsubscribingTables(st, sid);
      RecordTables(Unsubscribing(st, sid), sid, device);
      assert TryUnsubscribeOld(st, sid, device) == Unsubscribing(st, sid);
    }
  }

  lemma EnterTables(st: PcState, sid: Sid, device: string)
    requires TablesAgree(st) && RecordedUnder(st.viewers, sid, Parse(device))
    ensures TablesAgree(Entered(st, sid, device))
  {
  }

  lemma ViewerPacketTables(st: PcState, sid: Sid, pktType: nat, data: string)
    requires TablesAgree(st) && sid in st.viewers
    ensures TablesAgree(ViewerPacket(st, sid, pktType, data)) && ViewerPacket(st, sid, pktType, data).viewers.Keys == st.viewers.Keys
  {
    if TypeOf(pktType) == IPC_PKT_TYPE_SUBSCRIBE_DEVICE_ID {
      SwitchTables(st, sid, data);
      if data != "" {
        var st1 := TryUnsubscribeOld(st, sid, data);
        var st2 := st1.(viewers := st1.viewers[sid := data]);
        assert RecordedUnder(st2.viewers, sid, Parse(data));
        EnterTables(st2, sid, data);
      }
    } else {
      ViewerErrorTables(st, sid);
    }
  }

  lemma PublishTables(st: PcState, d: Device, broken: set<Sid>)
    requires TablesAgree(st)
    ensures TablesAgree(Publish(st, d, broken))
  {
    var after := Publish(st, d, broken);
    forall e, sid | e in after.channels && sid in after.channels[e] ensures RecordedUnder(after.viewers, sid, e) {
      assert sid in st.channels[e];
    }
  }

  lemma NewViewerTables(st: PcState, sid: Sid)
    requires TablesAgree(st) && sid !in st.viewers
    ensures TablesAgree(NewViewer(st, sid))
  {
    forall d | d in st.channels ensures sid !in st.channels[d] {
      assert !RecordedUnder(st.viewers, sid, d);
    }
    RecordTables(st, sid, "");
  }
}
