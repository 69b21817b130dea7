/** What the SRS callbacks and the page's own request do to the browser sets, the device set and
    the tasks posted to the RTMP thread (web_server/http/HttpSrsOnSessionHandler.cpp,
    web_server/http/HttpSrsOnSessionHandler.h, web_server/http/WebServer.cpp). */
module SrsModel {
  import opened DeviceId
  import opened Ids

  /** A task for the RTMP thread: start or stop the stream of this device. */
  datatype Task = Task(start: bool, id: string)

  /** `clients` holds the browsers watching each stream. */
  datatype SrsState = SrsState(clients: map<string, set<string>>, devices: set<Device>, tasks: seq<Task>)

  datatype Event =
    | SrsCallback(action: string, stream: string, client: string, app: string)
    | WebOnPlay(id: string)

  ghost const START := SrsState(map[], {}, [])

  /** Fourteen decimal digits. */
  predicate Decimal(id: string) {
    |id| == DIGITS && forall i :: 0 <= i < |id| ==> '0' <= id[i] <= '9'
  }

  /** Callbacks that do not fail one of the checks. */
  predicate Acceptable(action: string, stream: string, app: string) {
    stream != "" && (action == "on_stop" || action == "on_play") && app != "" && Decimal(stream) && (app == "live" || app == "replay")
  }

  function NotifyStart(st: SrsState, id: string): SrsState {
    if Parse(id) in st.devices then st
    else st.(devices := st.devices + {Parse(id)}, tasks := st.tasks + [Task(true, id)])
  }

  function NotifyStop(st: SrsState, id: string): SrsState {
    st.(devices := st.devices - {Parse(id)}, tasks := st.tasks + [Task(false, id)])
  }

  function Browsers(clients: map<string, set<string>>, stream: string): set<string> {
    if stream in clients then clients[stream] else {}
  }

  function SessionPlay(st: SrsState, stream: string, client: string): SrsState {
    var st' := if Browsers(st.clients, stream) == {} then NotifyStart(st, stream) else st;
    st'.(clients := st'.clients[stream := Browsers(st'.clients, stream) + {client}])
  }

  function SessionStop(st: SrsState, stream: string, client: string): SrsState {
    var left := Browsers(st.clients, stream) - {client};
    if left == {} then
      var st' := NotifyStop(st, stream);
      st'.(clients := st'.clients - {stream})
    else st.(clients := st.clients[stream := left])
  }

  function Step(st: SrsState, e: Event): SrsState {
    match e
    case SrsCallback(action, stream, client, app) =>
      if !Acceptable(action, stream, app) then st
      else if action == "on_stop" then SessionStop(st, stream, client)
      else SessionPlay(st, stream, client)
    case WebOnPlay(id) => if Decimal(id) then NotifyStart(st, id) else st
  }

  ghost function Run(events: seq<Event>): SrsState {
    if events == [] then START else Step(Run(events[..|events| - 1]), events[|events| - 1])
  }

  // ---- The invariant ----

  ghost predicate StopBetween(tasks: seq<Task>, i: int, j: int, id: string) {
    exists k :: i < k < j <= |tasks| && 0 <= k && tasks[k] == Task(false, id)
  }

  /** Every start of this stream, before position `j`, is followed by a stop before `j`. */
  ghost predicate AllStopped(tasks: seq<Task>, j: int, id: string) {
    forall i :: 0 <= i < j <= |tasks| && tasks[i] == Task(true, id) ==> StopBetween(tasks, i, j, id)
  }

  /** A start comes only when every earlier one has been stopped. */
  ghost predicate StartsSeparated(tasks: seq<Task>) {
    forall j :: 0 <= j < |tasks| && tasks[j].start ==> AllStopped(tasks, j, tasks[j].id)
  }

  ghost predicate AllDecimal(tasks: seq<Task>) {
    forall i :: 0 <= i < |tasks| ==> Decimal(tasks[i].id)
  }

  ghost predicate Kept(st: SrsState, id: string) {
    && (IsWatched(st, id) ==> Parse(id) in st.devices)
    && (Decimal(id) && Parse(id) !in st.devices ==> AllStopped(st.tasks, |st.tasks|, id))
  }

  ghost predicate IsWatched(st: SrsState, id: string) {
    Browsers(st.clients, id) != {}
  }

  ghost predicate Inv(st: SrsState) {
    && (forall id :: id in st.clients ==> Decimal(id) && st.clients[id] != {})
    && (forall id :: Kept(st, id))
    && StartsSeparated(st.tasks) && AllDecimal(st.tasks)
  }

  lemma DecimalInjective(s: string, t: string)
    requires Decimal(s) && Decimal(t) && Parse(s) == Parse(t)
    ensures s == t
  {
    ParseInjective(s, t);
  }

  lemma StoppedGrows(tasks: seq<Task>, task: Task, j: int, id: string)
    requires AllStopped(tasks, j, id) && j <= |tasks|
    ensures AllStopped(tasks + [task], j, id)
    ensures j == |tasks| && task != Task(true, id) ==> AllStopped(tasks + [task], j + 1, id)
  {
    var all := tasks + [task];
    forall i | 0 <= i < j && all[i] == Task(true, id) ensures StopBetween(all, i, j, id) && StopBetween(all, i, j + 1, id) {
      assert tasks[i] == Task(true, id);
      assert StopBetween(tasks, i, j, id);
      var k :| i < k < j && 0 <= k && tasks[k] == Task(false, id);
      assert all[k] == Task(false, id);
    }
  }

  lemma StopNow(tasks: seq<Task>, id: string)
    ensures AllStopped(tasks + [Task(false, id)], |tasks| + 1, id)
  {
    var all := tasks + [Task(false, id)];
    forall i | 0 <= i < |all| && all[i] == Task(true, id) ensures StopBetween(all, i, |all|, id) {
      assert all[|tasks|] == Task(false, id);
    }
  }

  lemma SeparatedGrows(tasks: seq<Task>, task: Task)
    requires StartsSeparated(tasks)
    requires task.start ==> AllStopped(tasks, |tasks|, task.id)
    ensures StartsSeparated(tasks + [task])
  {
    var all := tasks + [task];
    forall j | 0 <= j < |all| && all[j].start ensures AllStopped(all, j, all[j].id) {
      StoppedGrows(tasks, task, j, all[j].id);
    }
  }

  lemma StartKeeps(st: SrsState, id: string)
    requires Inv(st) && Decimal(id)
    ensures Inv(NotifyStart(st, id)) && Parse(id) in NotifyStart(st, id).devices
  {
    var after := NotifyStart(st, id);
    if Parse(id) !in st.devices {
      assert Kept(st, id);
      SeparatedGrows(st.tasks, Task(true, id));
      forall other ensures Kept(after, other) {
        assert Kept(st, other);
        if Decimal(other) && Parse(other) !in after.devices {
          StoppedGrows(st.tasks, Task(true, id), |st.tasks|, other);
        }
      }
    }
  }

  lemma PlayKeeps(st: SrsState, stream: string, client: string)
    requires Inv(st) && Decimal(stream)
    ensures Inv(SessionPlay(st, stream, client)) && Parse(stream) in SessionPlay(st, stream, client).devices
  {
    var st' := if Browsers(st.clients, stream) == {} then NotifyStart(st, stream) else st;
    if Browsers(st.clients, stream) == {} {
      StartKeeps(st, stream);
    } else {
      assert Kept(st, stream) && IsWatched(st, stream);
    }
    forall other ensures Kept(SessionPlay(st, stream, client), other) {
      assert Kept(st', other);
    }
  }

  lemma StopKeeps(st: SrsState, stream: string, client: string)
    requires Inv(st) && Decimal(stream)
    ensures Inv(SessionStop(st, stream, client))
  {
    var after := SessionStop(st, stream, client);
    var left := Browsers(st.clients, stream) - {client};
    if left == {} {
      SeparatedGrows(st.tasks, Task(false, stream));
    } else {
      assert stream in st.clients;
    }
    forall other ensures Kept(after, other) {
      assert Kept(st, other);
      if left == {} {
        if other == stream {
          StopNow(st.tasks, stream);
        } else if Decimal(other) {
          if Parse(other) == Parse(stream) {
            DecimalInjective(other, stream);
          }
          if Parse(other) !in after.devices {
            StoppedGrows(st.tasks, Task(false, stream), |st.tasks|, other);
          }
        }
      }
    }
  }

  lemma {:induction false} RunKeeps(events: seq<Event>)
    ensures Inv(Run(events))
  {
    if events == [] {
      forall id ensures Kept(START, id) {
      }
    } else {
      var n := |events| - 1;
      RunKeeps(events[..n]);
      match events[n]
      case SrsCallback(action, stream, client, app) =>
        if Acceptable(action, stream, app) {
          if action == "on_stop" {
            StopKeeps(Run(events[..n]), stream, client);
          } else {
            PlayKeeps(Run(events[..n]), stream, client);
          }
        }
      case WebOnPlay(id) =>
        if Decimal(id) {
          StartKeeps(Run(events[..n]), id);
        }
    }
  }

  /** Over every run of callbacks, well-formed or not: a stream some browser is registered for
      is in the device set, and no stream is kept registered without a browser. */
  lemma WatchedIsHeld(events: seq<Event>, stream: string)
    requires stream in Run(events).clients
    ensures Run(events).clients[stream] != {} && Parse(stream) in Run(events).devices
  {
    RunKeeps(events);
    assert Kept(Run(events), stream) && IsWatched(Run(events), stream);
  }

  /** One browser's stop never ends a stream another browser is watching: no stop task is
      posted for it and it stays in the device set. */
  lemma OthersKeepWatching(events: seq<Event>, stream: string, client: string, app: string, watched: string, other: string)
    requires Acceptable("on_stop", stream, app)
    requires watched in Run(events).clients && other in Run(events).clients[watched]
    requires watched != stream || other != client
    ensures var st := Run(events);
            var st' := Step(st, SrsCallback("on_stop", stream, client, app));
            && watched in st'.clients && other in st'.clients[watched] && Parse(watched) in st'.devices
            && (st'.tasks == st.tasks || (st'.tasks == st.tasks + [Task(false, stream)] && watched != stream))
  {
    var stop := SrsCallback("on_stop", stream, client, app);
    var st := Run(events);
    var st' := Step(st, stop);
    if watched == stream {
      assert other in st.clients[stream] - {client};
    }
    assert (events + [stop])[..|events|] == events;
    assert Run(events + [stop]) == st';
    WatchedIsHeld(events + [stop], watched);
  }

  /** Two tasks that start a stream of the same device always have one that stops it in
      between. */
  lemma StartsAlternate(events: seq<Event>, i: nat, j: nat)
    requires i < j < |Run(events).tasks|
    requires Run(events).tasks[i].start && Run(events).tasks[j].start
    requires Parse(Run(events).tasks[i].id) == Parse(Run(events).tasks[j].id)
    ensures exists k :: i < k < j && Run(events).tasks[k] == Task(false, Run(events).tasks[i].id)
  {
    RunKeeps(events);
    var tasks := Run(events).tasks;
    var id := tasks[j].id;
    DecimalInjective(tasks[i].id, id);
    assert AllStopped(tasks, j, id) && tasks[i] == Task(true, id);
    assert StopBetween(tasks, i, j, id);
  }

  // ---- What each callback does ----

  /** Fourteen digits, and one of the two applications. */
  ghost predicate Proper(stream: string, app: string) {
    |stream| == 14 && (forall i :: 0 <= i < 14 ==> '0' <= stream[i] <= '9') && (app == "live" || app == "replay")
  }

  ghost predicate WatchedByOthers(st: SrsState, stream: string, client: string) {
    exists other :: other != client && other in Browsers(st.clients, stream)
  }

  lemma OthersLeft(st: SrsState, stream: string, client: string)
    ensures Browsers(st.clients, stream) - {client} == {} <==> !WatchedByOthers(st, stream, client)
  {
    var left := Browsers(st.clients, stream) - {client};
    assert forall other :: other in left <==> other != client && other in Browsers(st.clients, stream);
  }

  /** The stop of the last browser of a stream posts one task to stop it and gives its device up;
      the stop of any other posts nothing. */
  lemma StopSays(st: SrsState, stream: string, client: string, app: string)
    requires Proper(stream, app)
    ensures var after := Step(st, SrsCallback("on_stop", stream, client, app));
            if WatchedByOthers(st, stream, client) then after.tasks == st.tasks && after.devices == st.devices
            else after.tasks == st.tasks + [Task(false, stream)] && after.devices == st.devices - {Parse(stream)}
  {
    OthersLeft(st, stream, client);
  }

  /** The first browser of a stream whose device is not held starts it and takes the device; any
      other posts nothing. */
  lemma PlaySays(st: SrsState, stream: string, client: string, app: string)
    requires Proper(stream, app)
    ensures var after := Step(st, SrsCallback("on_play", stream, client, app));
            if Browsers(st.clients, stream) == {} && Parse(stream) !in st.devices
            then after.tasks == st.tasks + [Task(true, stream)] && after.devices == st.devices + {Parse(stream)}
            else after.tasks == st.tasks && after.devices == st.devices
  {
  }

  /** So does the page's own request, whoever is watching. */
  lemma WebPlaySays(st: SrsState, id: string)
    ensures var after := Step(st, WebOnPlay(id));
            && after.clients == st.clients
            && if Proper(id, "live") && Parse(id) !in st.devices
               then after.tasks == st.tasks + [Task(true, id)] && after.devices == st.devices + {Parse(id)}
               else after.tasks == st.tasks && after.devices == st.devices
  {
  }

  /** Whether the last proper callback about this browser and this stream was on_play. */
  ghost predicate Plays(events: seq<Event>, stream: string, client: string) {
    events != [] &&
    var n := |events| - 1;
    if events[n].SrsCallback? && events[n].stream == stream && events[n].client == client && Proper(stream, events[n].app)
       && events[n].action in {"on_play", "on_stop"}
    then events[n].action == "on_play"
    else Plays(events[..n], stream, client)
  }

  lemma StepBrowsers(st: SrsState, e: Event, stream: string, client: string)
    ensures client in Browsers(Step(st, e).clients, stream) <==>
              if e.SrsCallback? && e.stream == stream && e.client == client && Proper(stream, e.app) && e.action in {"on_play", "on_stop"}
              then e.action == "on_play" else client in Browsers(st.clients, stream)
  {
    if e.SrsCallback? && e.action == "on_stop" {
      OthersLeft(st, e.stream, e.client);
    }
  }

  /** Over every run the browsers of a stream are exactly those that play it. */
  lemma {:induction false} BrowsersPlay(events: seq<Event>, stream: string, client: string)
    ensures client in Browsers(Run(events).clients, stream) <==> Plays(events, stream, client)
  {
    if events != [] {
      var n := |events| - 1;
      BrowsersPlay(events[..n], stream, client);
      StepBrowsers(Run(events[..n]), events[n], stream, client);
    }
  }
}
