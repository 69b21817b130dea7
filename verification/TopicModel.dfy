/** What opening and closing a browser connection does to the topics of the websocket server,
    and what it has told the upstream side (new_web_server/CarWebSocketServer.cpp,
    new_web_server/CarTopicManager.h). */
module TopicModel {
  import opened Alternation
  import opened DeviceId
  import opened Ids
  import opened Ordered
  import opened Tables

  type Handle = nat

  /** What the notification callback was called with. */
  datatype Notice = Notice(id: string, subscribe: bool)

  /** `subscribers` holds the id string each connection asked for, `topics` the connections
      watching each device. */
  datatype TopicState = TopicState(subscribers: map<Handle, string>, topics: Table, notices: seq<Notice>)

  datatype Event = Opened(hdl: Handle, uri: string) | Closed(hdl: Handle)

  ghost const START := TopicState(map[], map[], [])

  const LIVE := "/live/"

  /** A live uri with an id of the right length; which characters it has is not looked at. */
  predicate Acceptable(uri: string) {
    LIVE <= uri && |uri| - |LIVE| == DIGITS
  }

  function Add(st: TopicState, hdl: Handle, id: string): TopicState {
    var d := Parse(id);
    var subscribers := st.subscribers[hdl := id];
    if d in st.topics then TopicState(subscribers, st.topics[d := st.topics[d] + {hdl}], st.notices)
    else TopicState(subscribers, st.topics[d := {hdl}], st.notices + [Notice(id, true)])
  }

  function Farewells(devices: seq<Device>): seq<Notice> {
    if devices == [] then [] else [Notice(Print(devices[0]), false)] + Farewells(devices[1..])
  }

  ghost function Remove(st: TopicState, hdl: Handle): TopicState {
    var topics := WithoutAnywhere(st.topics, hdl);
    var gone := Empties(topics);
    TopicState(st.subscribers - {hdl}, topics - gone, st.notices + Farewells(Ascending(gone)))
  }

  ghost function Step(st: TopicState, e: Event): TopicState {
    match e
    case Opened(hdl, uri) => if Acceptable(uri) then Add(st, hdl, uri[|LIVE|..]) else st
    case Closed(hdl) => Remove(st, hdl)
  }

  /** Every opening comes with a handle not open at the time. */
  ghost predicate Possible(events: seq<Event>) {
    events == [] ||
    var n := |events| - 1;
    Possible(events[..n]) && (events[n].Opened? ==> events[n].hdl !in Run(events[..n]).subscribers)
  }

  ghost function Run(events: seq<Event>): TopicState {
    if events == [] then START else Step(Run(events[..|events| - 1]), events[|events| - 1])
  }

  // ---- The invariant ----

  /** The notices about one device. */
  ghost function Trace(notices: seq<Notice>, d: Device): seq<bool> {
    if notices == [] then []
    else
      var before, last := Trace(notices[..|notices| - 1], d), notices[|notices| - 1];
      if Parse(last.id) == d then before + [last.subscribe] else before
  }

  ghost predicate InOrder(st: TopicState, d: Device) {
    Alternates(Trace(st.notices, d)) && (d in st.topics <==> IsOn(Trace(st.notices, d)))
  }

  ghost predicate Watches(st: TopicState, hdl: Handle, d: Device) {
    d in st.topics && hdl in st.topics[d]
  }

  /** Topics and the table of connections say the same, and no topic is empty. */
  ghost predicate Agree(st: TopicState) {
    && (forall hdl, d :: Watches(st, hdl, d) <==> AskedFor(st, hdl, d))
    && (forall d :: d in st.topics ==> st.topics[d] != {})
  }

  ghost predicate AskedFor(st: TopicState, hdl: Handle, d: Device) {
    hdl in st.subscribers && Parse(st.subscribers[hdl]) == d
  }

  lemma TraceSnoc(notices: seq<Notice>, n: Notice, d: Device)
    ensures Trace(notices + [n], d) == Trace(notices, d) + if Parse(n.id) == d then [n.subscribe] else []
  {
    assert (notices + [n])[..|notices|] == notices;
  }

  /** A farewell is told about the device its printed id names. */
  lemma TraceFarewell(notices: seq<Notice>, e: Device, d: Device)
    ensures Trace(notices + [Notice(Print(e), false)], d) == Trace(notices, d) + if Leading(e) == d then [false] else []
  {
    PrintedIsPrintable(e);
    TraceSnoc(notices, Notice(Print(e), false), d);
  }

  lemma FarewellsFirst(notices: seq<Notice>, m: Device, later: seq<Device>)
    ensures notices + Farewells([m] + later) == notices + [Notice(Print(m), false)] + Farewells(later)
  {
    assert ([m] + later)[1..] == later;
  }

  /** The topics whose farewells are told about this device: its own, and any too wide to print
      that begins with the same digits. */
  ghost function ToldAs(gone: set<Device>, d: Device): set<Device> {
    set e | e in gone && Leading(e) == d
  }

  function Offs(n: nat): (t: seq<bool>)
    ensures |t| == n && forall i :: 0 <= i < n ==> !t[i]
  {
    if n == 0 then [] else [false] + Offs(n - 1)
  }

  lemma ToldLess(gone: set<Device>, m: Device, d: Device)
    requires m in gone
    ensures |ToldAs(gone, d)| == |ToldAs(gone - {m}, d)| + if Leading(m) == d then 1 else 0
  {
    if Leading(m) == d {
      assert ToldAs(gone, d) == ToldAs(gone - {m}, d) + {m};
    } else {
      assert ToldAs(gone, d) == ToldAs(gone - {m}, d);
    }
  }

  lemma {:induction false} TraceFarewells(notices: seq<Notice>, gone: set<Device>, d: Device)
    ensures Trace(notices + Farewells(Ascending(gone)), d) == Trace(notices, d) + Offs(|ToldAs(gone, d)|)
    decreases |gone|
  {
    if gone == {} {
      assert notices + Farewells(Ascending(gone)) == notices;
      assert ToldAs(gone, d) == {};
      assert Trace(notices, d) + [] == Trace(notices, d);
    } else {
      LeastExists(gone);
      var m :| IsLeast(m, gone);
      AscendingFirst(m, gone);
      TraceFarewell(notices, m, d);
      TraceFarewells(notices + [Notice(Print(m), false)], gone - {m}, d);
      FarewellsFirst(notices, m, Ascending(gone - {m}));
      ToldLess(gone, m, d);
      OffsFirst(Trace(notices, d), Leading(m) == d, |ToldAs(gone - {m}, d)|);
    }
  }

  lemma OffsFirst(t: seq<bool>, one: bool, n: nat)
    ensures t + (if one then [false] else []) + Offs(n) == t + Offs(n + if one then 1 else 0)
  {
  }

  // ---- The tables ----

  lemma AddAsks(st: TopicState, hdl: Handle, id: string, h: Handle, e: Device)
    requires hdl !in st.subscribers && (Watches(st, h, e) <==> AskedFor(st, h, e))
    requires Watches(st, hdl, e) <==> AskedFor(st, hdl, e)
    ensures Watches(Add(st, hdl, id), h, e) <==> AskedFor(Add(st, hdl, id), h, e)
  {
  }

  lemma AddKeeps(st: TopicState, hdl: Handle, id: string)
    requires Agree(st) && hdl !in st.subscribers
    ensures Agree(Add(st, hdl, id))
  {
    forall h, e ensures Watches(Add(st, hdl, id), h, e) <==> AskedFor(Add(st, hdl, id), h, e) {
      assert Watches(st, h, e) <==> AskedFor(st, h, e);
      assert Watches(st, hdl, e) <==> AskedFor(st, hdl, e);
      AddAsks(st, hdl, id, h, e);
    }
  }

  lemma RemoveKeeps(st: TopicState, hdl: Handle)
    requires Agree(st)
    ensures Agree(Remove(st, hdl))
  {
    var after := Remove(st, hdl);
    forall h, e ensures Watches(after, h, e) <==> AskedFor(after, h, e) {
      assert Watches(st, h, e) <==> AskedFor(st, h, e);
    }
  }

  // ---- The notices ----

  /** The topics that a closing leaves empty. */
  ghost function Emptied(st: TopicState, hdl: Handle): set<Device> { Empties(WithoutAnywhere(st.topics, hdl)) }

  /** The farewell of this topic is told about another device, or to this one about another. */
  ghost predicate Mistold(e: Device, d: Device) { !Printable(e) && (e == d || Leading(e) == d) }

  ghost predicate Confuses(st: TopicState, hdl: Handle, d: Device) {
    exists e :: e in Emptied(st, hdl) && Mistold(e, d)
  }

  /** Since a farewell was mistold the notices are out of order, and stay so: either they no
      longer go on and off in turn, or the last one is wrong, in the way that no later notice
      can repair. */
  ghost predicate OutOfOrder(st: TopicState, d: Device) {
    var t := Trace(st.notices, d);
    Alternates(t) ==> if Printable(d) then d in st.topics && !IsOn(t) else d !in st.topics && IsOn(t)
  }

  ghost predicate Told(st: TopicState, d: Device, clean: bool) {
    if clean then InOrder(st, d) else OutOfOrder(st, d)
  }

  lemma AddTells(st: TopicState, hdl: Handle, id: string, d: Device, clean: bool)
    requires Told(st, d, clean)
    ensures Told(Add(st, hdl, id), d, clean)
  {
    var t := Trace(st.notices, d);
    if Parse(id) !in st.topics {
      TraceSnoc(st.notices, Notice(id, true), d);
      if Parse(id) == d {
        OnInTurn(t);
      } else {
        assert t + [] == t;
      }
    }
  }

  /** A notice to join stays in turn only if the device was off. */
  lemma OnInTurn(t: seq<bool>)
    ensures Alternates(t + [true]) <==> Alternates(t) && !IsOn(t)
    ensures IsOn(t + [true]) == !IsOn(t)
  {
    assert (t + [true])[|t|];
    StillNot(t, [true]);
  }

  /** What is not in turn does not come to be, whatever follows. */
  lemma StillNot(t: seq<bool>, more: seq<bool>)
    ensures Alternates(t + more) ==> Alternates(t)
  {
    assert forall i :: 0 <= i < |t| ==> (t + more)[i] == t[i];
  }

  lemma RemoveTells(st: TopicState, hdl: Handle, d: Device, clean: bool)
    requires Told(st, d, clean)
    ensures Told(Remove(st, hdl), d, clean && !Confuses(st, hdl, d))
  {
    var gone, t := Emptied(st, hdl), Trace(st.notices, d);
    var told := ToldAs(gone, d);
    TraceFarewells(st.notices, gone, d);
    StillNot(t, Offs(|told|));
    HowManyTold(gone, d);
    assert d in Remove(st, hdl).topics <==> d in st.topics && d !in gone;
    if told == {} {
      assert t + Offs(0) == t;
    } else {
      OffsInTurn(t, |told|);
    }
    if clean && !Confuses(st, hdl, d) {
      NoneMistold(st, hdl, d);
    }
  }

  /** Notices to leave stay in turn only if there is one, and the device was on. */
  lemma OffsInTurn(t: seq<bool>, n: nat)
    requires n > 0
    ensures Alternates(t + Offs(n)) <==> Alternates(t) && IsOn(t) && n == 1
    ensures n == 1 ==> IsOn(t + Offs(n)) == !IsOn(t)
  {
    var all := t + Offs(n);
    assert all[|t|] == false;
    assert n > 1 ==> all[|t| + 1] == false;
    StillNot(t, Offs(n));
  }

  /** A device whose own topic goes hears of it if its id can be printed, and of every topic
      that is mistold to it. */
  lemma HowManyTold(gone: set<Device>, d: Device)
    ensures !Printable(d) ==> ToldAs(gone, d) == {}
    ensures Printable(d) && d in gone ==> d in ToldAs(gone, d)
    ensures forall e :: e in gone && Mistold(e, d) && e != d ==> e in ToldAs(gone, d)
    ensures forall e :: e in gone && Mistold(e, d) && e != d && Printable(d) && d in gone ==> |ToldAs(gone, d)| > 1
  {
    forall e | e in gone && Mistold(e, d) && e != d && Printable(d) && d in gone ensures |ToldAs(gone, d)| > 1 {
      assert {d, e} <= ToldAs(gone, d);
      SubsetSize({d, e}, ToldAs(gone, d));
    }
  }

  lemma {:induction false} SubsetSize(a: set<Device>, b: set<Device>)
    requires a <= b
    ensures |a| <= |b|
  {
    assert b == a + (b - a);
  }

  /** Without a mistold farewell a device hears exactly of its own. */
  lemma NoneMistold(st: TopicState, hdl: Handle, d: Device)
    requires !Confuses(st, hdl, d)
    ensures ToldAs(Emptied(st, hdl), d) == if d in Emptied(st, hdl) then {d} else {}
    ensures d in Emptied(st, hdl) ==> Printable(d)
  {
    forall e | e in Emptied(st, hdl) ensures !Mistold(e, d) {
    }
  }

  /** Closing a connection that never subscribed says nothing and changes nothing. */
  lemma StrangerLeaves(st: TopicState, hdl: Handle)
    requires Agree(st) && hdl !in st.subscribers
    ensures Remove(st, hdl) == st
  {
    forall d | d in st.topics ensures hdl !in st.topics[d] {
      assert !Watches(st, hdl, d);
    }
    assert forall d :: d in st.topics ==> st.topics[d] - {hdl} == st.topics[d];
    assert WithoutAnywhere(st.topics, hdl) == st.topics;
    assert Empties(st.topics) == {};
    assert st.notices + [] == st.notices;
  }

  lemma {:induction false} RunKeeps(events: seq<Event>)
    requires Possible(events)
    ensures Agree(Run(events))
  {
    if events != [] {
      var n := |events| - 1;
      RunKeeps(events[..n]);
      match events[n]
      case Opened(hdl, uri) =>
        if Acceptable(uri) {
          AddKeeps(Run(events[..n]), hdl, uri[|LIVE|..]);
        }
      case Closed(hdl) => RemoveKeeps(Run(events[..n]), hdl);
    }
  }

  /** No closing has left a topic empty whose farewell is mistold about or to this device. */
  ghost predicate Clean(events: seq<Event>, d: Device) {
    events == [] ||
    var n := |events| - 1;
    Clean(events[..n], d) && (events[n].Closed? ==> !Confuses(Run(events[..n]), events[n].hdl, d))
  }

  lemma {:induction false} RunTells(events: seq<Event>, d: Device)
    ensures Told(Run(events), d, Clean(events, d))
  {
    if events != [] {
      var n := |events| - 1;
      RunTells(events[..n], d);
      match events[n]
      case Opened(hdl, uri) =>
        if Acceptable(uri) {
          AddTells(Run(events[..n]), hdl, uri[|LIVE|..], d, Clean(events[..n], d));
        }
      case Closed(hdl) => RemoveTells(Run(events[..n]), hdl, d, Clean(events[..n], d));
    }
  }

  lemma Present(st: TopicState, d: Device)
    requires Agree(st)
    ensures d in st.topics <==> exists hdl :: AskedFor(st, hdl, d)
    ensures d in st.topics ==> forall hdl :: hdl in st.topics[d] <==> AskedFor(st, hdl, d)
  {
    forall hdl ensures Watches(st, hdl, d) <==> AskedFor(st, hdl, d) {
    }
    if d in st.topics {
      var hdl :| hdl in st.topics[d];
      assert Watches(st, hdl, d);
    }
  }

  /** A topic exists exactly while some connection asks for its device, and its members are
      exactly those connections. */
  ghost predicate Seated(st: TopicState, d: Device) {
    && (d in st.topics <==> exists hdl :: AskedFor(st, hdl, d))
    && (d in st.topics ==> forall hdl :: hdl in st.topics[d] <==> AskedFor(st, hdl, d))
  }

  /** The notices about a device went on and off strictly in turn, on at present exactly if its
      topic exists. */
  ghost predicate InTune(st: TopicState, d: Device) {
    var t := Trace(st.notices, d);
    Alternates(t) && (d in st.topics <==> t != [] && t[|t| - 1])
  }

  lemma InTuneIsInOrder(st: TopicState, d: Device)
    ensures InTune(st, d) <==> InOrder(st, d)
  {
    if Alternates(Trace(st.notices, d)) {
      LastTurn(Trace(st.notices, d));
    }
  }

  /** Over all openings and closings, with any ids: a topic's members are exactly the connections
      that asked for its device, and it exists while there are any. */
  lemma MembersAreAskers(events: seq<Event>, d: Device)
    requires Possible(events)
    ensures Seated(Run(events), d)
  {
    RunKeeps(events);
    Present(Run(events), d);
  }

  /** Over all openings and closings: the upstream side is told to subscribe to a device and to
      unsubscribe from it strictly in turn, ending with subscribe exactly if its topic exists,
      if and only if no topic was ever emptied that has an id too wide to print and either is
      this device's or prints as this device. */
  lemma NoticesAlternate(events: seq<Event>, d: Device)
    ensures InTune(Run(events), d) <==> Clean(events, d)
  {
    RunTells(events, d);
    InTuneIsInOrder(Run(events), d);
  }

  // ---- What each event does ----

  /** The uri of a live stream: "/live/" and fourteen more characters. */
  ghost predicate IsLive(uri: string) { |uri| == 20 && uri[..6] == "/live/" }

  /** Opening a live uri tells the upstream side to subscribe by the very string that was asked
      for, if the device has no topic yet; no other opening says anything. */
  lemma OpenSays(st: TopicState, hdl: Handle, uri: string)
    ensures Step(st, Opened(hdl, uri)).notices
         == st.notices + if IsLive(uri) && Parse(uri[6..]) !in st.topics then [Notice(uri[6..], true)] else []
  {
    assert st.notices + [] == st.notices;
  }

  /** This connection is the only one in the topic, or nobody is. */
  ghost predicate OnlyOne(st: TopicState, hdl: Handle, d: Device) {
    d in st.topics && forall h :: h in st.topics[d] ==> h == hdl
  }

  /** Closing removes the topics that nobody else is in, and tells the upstream side to
      unsubscribe from each by its printed id, the least first. */
  lemma CloseSays(st: TopicState, hdl: Handle) returns (gone: seq<Device>)
    ensures var after := Step(st, Closed(hdl));
            && after.notices == st.notices + seq(|gone|, i requires 0 <= i < |gone| => Notice(Print(gone[i]), false))
            && (forall d :: d in after.topics <==> d in st.topics && d !in gone)
    ensures forall i, j :: 0 <= i < j < |gone| ==> gone[i] < gone[j]
    ensures forall d :: d in gone <==> OnlyOne(st, hdl, d)
  {
    gone := Ascending(Emptied(st, hdl));
    AscendingSorted(Emptied(st, hdl));
    FarewellEach(gone);
    forall d ensures d in Emptied(st, hdl) <==> OnlyOne(st, hdl, d) {
      if d in st.topics {
        var left := st.topics[d] - {hdl};
        assert left == {} <==> forall h :: h in st.topics[d] ==> h == hdl by {
          assert forall h :: h in left <==> h in st.topics[d] && h != hdl;
        }
      }
    }
  }

  lemma {:induction false} FarewellEach(devices: seq<Device>)
    ensures Farewells(devices) == seq(|devices|, i requires 0 <= i < |devices| => Notice(Print(devices[i]), false))
  {
    if devices != [] {
      FarewellEach(devices[1..]);
    }
  }

  /** Whether the connection's last event was to open the live uri of this device. */
  ghost predicate LastOpened(events: seq<Event>, hdl: Handle, d: Device) {
    events != [] &&
    var n := |events| - 1;
    match events[n]
    case Opened(h, uri) => if h == hdl && IsLive(uri) then Parse(uri[6..]) == d else LastOpened(events[..n], hdl, d)
    case Closed(h) => h != hdl && LastOpened(events[..n], hdl, d)
  }

  lemma StepAsks(st: TopicState, e: Event, hdl: Handle, d: Device)
    ensures AskedFor(Step(st, e), hdl, d) <==>
              if e.Opened? && e.hdl == hdl && IsLive(e.uri) then Parse(e.uri[6..]) == d
              else AskedFor(st, hdl, d) && e != Closed(hdl)
  {
  }

  lemma {:induction false} AskersOpened(events: seq<Event>, hdl: Handle, d: Device)
    ensures AskedFor(Run(events), hdl, d) <==> LastOpened(events, hdl, d)
  {
    if events != [] {
      var n := |events| - 1;
      AskersOpened(events[..n], hdl, d);
      StepAsks(Run(events[..n]), events[n], hdl, d);
    }
  }

  /** Over all openings and closings the members of a topic are exactly the connections whose last
      event was to open a live uri of its device, whoever had a topic before. */
  lemma MembersOpened(events: seq<Event>, hdl: Handle, d: Device)
    requires Possible(events)
    ensures IsIn(Run(events).topics, d, hdl) <==> LastOpened(events, hdl, d)
  {
    RunKeeps(events);
    AskersOpened(events, hdl, d);
    assert Watches(Run(events), hdl, d) <==> AskedFor(Run(events), hdl, d);
  }

  // ---- Which ids do it ----

  /** Every id that was accepted can be printed. */
  ghost predicate AllOrdinary(events: seq<Event>) {
    forall i :: 0 <= i < |events| && events[i].Opened? && Acceptable(events[i].uri) ==> Printable(Parse(events[i].uri[|LIVE|..]))
  }

  lemma {:induction false} OrdinaryTopics(events: seq<Event>)
    requires AllOrdinary(events)
    ensures forall d :: d in Run(events).topics ==> Printable(d)
  {
    if events != [] {
      var n := |events| - 1;
      assert AllOrdinary(events[..n]);
      OrdinaryTopics(events[..n]);
      var last := events[n];
      assert last.Opened? && Acceptable(last.uri) ==> Printable(Parse(last.uri[|LIVE|..]));
    }
  }

  /** With ids that can be printed the notices are always in tune, about every device. */
  lemma {:induction false} OrdinaryIsClean(events: seq<Event>, d: Device)
    requires AllOrdinary(events)
    ensures Clean(events, d)
  {
    if events != [] {
      var n := |events| - 1;
      assert AllOrdinary(events[..n]);
      OrdinaryIsClean(events[..n], d);
      OrdinaryTopics(events[..n]);
    }
  }

  /** One connection that opens with this id and closes. */
  function Visit(hdl: Handle, id: string): seq<Event> { [Opened(hdl, LIVE + id), Closed(hdl)] }

  /** Of the ids that are accepted, exactly the numbers other than zero behind a minus sign put
      the notices out of tune, and one visit is enough. */
  lemma OneVisit(hdl: Handle, id: string)
    requires |id| == DIGITS
    ensures InTune(Run(Visit(hdl, id)), Parse(id)) <==> !(HasMinus(id) && Magnitude(id) > 0)
  {
    var visit, d := Visit(hdl, id), Parse(id);
    var after := Run([Opened(hdl, LIVE + id)]);
    assert visit[..1] == [Opened(hdl, LIVE + id)];
    assert [Opened(hdl, LIVE + id)][..0] == [] && Run([]) == START;
    assert (LIVE + id)[|LIVE|..] == id && LIVE <= LIVE + id;
    assert after == Add(START, hdl, id);
    assert after.topics == map[d := {hdl}];
    assert WithoutAnywhere(after.topics, hdl)[d] == {};
    assert Emptied(after, hdl) == {d};
    assert Confuses(after, hdl, d) <==> Mistold(d, d);
    assert Clean([], d) && Clean(visit[..1], d);
    assert visit[1] == Closed(hdl) && (Clean(visit, d) <==> !Confuses(after, hdl, d));
    NoticesAlternate(visit, d);
    FitsUnlessNegative(id);
  }

  lemma ThirteenDigits()
    ensures PrintDigits(1, 13) == "0000000000001"
  {
  }

  lemma ReadsOne(digits: string)
    requires digits == "0000000000001"
    ensures Value(digits) == 1 && forall i :: 0 <= i < |digits| ==> IsHex(digits[i])
  {
    ThirteenDigits();
    ValueOfPrintDigits(1, 13);
    PrintIsHex(1, 13);
  }

  lemma MinusVisit(hdl: Handle, digits: string)
    requires |digits| == 13 && Value(digits) == 1 && forall i :: 0 <= i < |digits| ==> IsHex(digits[i])
    ensures !InTune(Run(Visit(hdl, "-" + digits)), ULLONG_MAX)
  {
    ParseOfMinus(digits);
    OneVisit(hdl, "-" + digits);
  }

  /** The uri "/live/-0000000000001" does it. */
  lemma MinusOne(hdl: Handle, digits: string)
    requires digits == "0000000000001"
    ensures Acceptable(LIVE + "-" + digits) && !InTune(Run(Visit(hdl, "-" + digits)), ULLONG_MAX)
  {
    ReadsOne(digits);
    MinusVisit(hdl, digits);
  }
}
