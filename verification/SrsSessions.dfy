/** The SRS callback handler with its browser sets, and the web server it tells to start and
    stop streams (web_server/http/HttpSrsOnSessionHandler.cpp,
    web_server/http/HttpSrsOnSessionHandler.h, web_server/http/WebServer.cpp). */
module SrsSessions {
  import opened DeviceId
  import opened Ids
  import opened IpcPktType
  import opened SrsModel

  class WebServer {
    var devices: set<Device>
    var tasks: seq<Task>
    var connected: bool
    var sent: seq<Request>

    constructor ()
      ensures devices == {} && tasks == [] && sent == []
    {
      devices, tasks, connected, sent := {}, [], false, [];
    }

    /** A device already started is passed over; upstream hears of a new one only while it is
        connected. */
    method NotifyStart(id: string)
      modifies this`devices, this`tasks, this`sent
      ensures var st := SrsState(map[], old(devices), old(tasks));
              SrsState(map[], devices, tasks) == SrsModel.NotifyStart(st, id)
      ensures sent == old(sent) + if connected && Parse(id) !in old(devices)
                                  then [Request(0x2_0002, id)] else []
    {
      var d := Parse(id);
      if d in devices {
        return;
      }
      devices := devices + {d};
      if connected {
        sent := sent + [Request(IPC_PKT_TYPE_SUBSCRIBE_DEVICE_ID + IPC_PKT_FROM_WEB_SERVER, id)];
      }
      tasks := tasks + [Task(true, id)];
    }

    method NotifyStop(id: string)
      modifies this`devices, this`tasks, this`sent
      ensures var st := SrsState(map[], old(devices), old(tasks));
              SrsState(map[], devices, tasks) == SrsModel.NotifyStop(st, id)
      ensures sent == old(sent) + if connected
                                  then [Request(0x2_0003, id)] else []
    {
      devices := devices - {Parse(id)};
      if connected {
        sent := sent + [Request(IPC_PKT_TYPE_UNSUBSCRIBE_DEVICE_ID + IPC_PKT_FROM_WEB_SERVER, id)];
      }
      tasks := tasks + [Task(false, id)];
    }
  }

  /** The browsers watching each stream; asking for a size makes an entry. */
  class HttpSessionStat {
    var clients: map<string, set<string>>

    constructor ()
      ensures clients == map[]
    {
      clients := map[];
    }

    method EmptyClientId(stream: string) returns (empty: bool)
      modifies this
      ensures clients == old(clients)[stream := Browsers(old(clients), stream)]
      ensures empty == (Browsers(old(clients), stream) == {})
    {
      if stream !in clients {
        clients := clients[stream := {}];
      }
      empty := clients[stream] == {};
    }

    method AddClientId(stream: string, client: string)
      modifies this
      ensures clients == old(clients)[stream := Browsers(old(clients), stream) + {client}]
    {
      clients := clients[stream := Browsers(clients, stream) + {client}];
    }

    method DelClientId(stream: string, client: string)
      modifies this
      ensures clients == old(clients)[stream := Browsers(old(clients), stream) - {client}]
    {
      clients := clients[stream := Browsers(clients, stream) - {client}];
    }

    method ReleaseStream(stream: string)
      modifies this
      ensures clients == old(clients) - {stream}
    {
      clients := clients - {stream};
    }
  }

  /** The entry made by asking for a size does not show once a browser is added. */
  lemma AskedThenAdded(was: map<string, set<string>>, stream: string, client: string)
    ensures var asked := was[stream := Browsers(was, stream)];
            asked[stream := Browsers(asked, stream) + {client}] == was[stream := Browsers(was, stream) + {client}]
  {
  }

  class HttpSrsOnSessionHandler {
    const server: WebServer
    const sessionStat: HttpSessionStat

    ghost function View(): SrsState
      reads server, sessionStat
    {
      SrsState(sessionStat.clients, server.devices, server.tasks)
    }

    constructor (server: WebServer)
      requires server.devices == {} && server.tasks == []
      ensures this.server == server && fresh(sessionStat) && View() == START
    {
      this.server := server;
      sessionStat := new HttpSessionStat();
    }

    method SessionStop(stream: string, client: string)
      modifies server`devices, server`tasks, server`sent, sessionStat
      ensures View() == SrsModel.SessionStop(old(View()), stream, client)
    {
      ghost var was := sessionStat.clients;
      sessionStat.DelClientId(stream, client);
      var empty := sessionStat.EmptyClientId(stream);
      if empty {
        server.NotifyStop(stream);
        sessionStat.ReleaseStream(stream);
        assert was[stream := Browsers(was, stream) - {client}] - {stream} == was - {stream};
      }
    }

    method SessionPlay(stream: string, client: string)
      modifies server`devices, server`tasks, server`sent, sessionStat
      ensures View() == SrsModel.SessionPlay(old(View()), stream, client)
    {
      ghost var was := sessionStat.clients;
      var empty := sessionStat.EmptyClientId(stream);
      if empty {
        server.NotifyStart(stream);
      }
      AskedThenAdded(was, stream, client);
      sessionStat.AddClientId(stream, client);
    }

    /** A callback that fails a check is answered with an error and does nothing. */
    method HandlerJsonData(action: string, stream: string, client: string, app: string) returns (ok: bool)
      modifies server`devices, server`tasks, server`sent, sessionStat
      ensures View() == Step(old(View()), SrsCallback(action, stream, client, app))
      ensures ok == Acceptable(action, stream, app)
    {
      if stream == "" || (action != "on_stop" && action != "on_play") || app == "" {
        return false;
      }
      var decimal := CheckDeviceIdStrFmt(stream);
      if !decimal {
        return false;
      }
      if app != "live" && app != "replay" {
        return false;
      }
      if action == "on_stop" {
        SessionStop(stream, client);
      } else {
        SessionPlay(stream, client);
      }
      return true;
    }
  }

  /** The page's own request, before any callback. */
  class HttpWebOnPlayHandler {
    const server: WebServer

    constructor (server: WebServer)
      ensures this.server == server
    {
      this.server := server;
    }

    method HandlerJsonData(id: string) returns (ok: bool)
      modifies server`devices, server`tasks, server`sent
      ensures ok == Decimal(id)
      ensures forall clients ::
                SrsState(clients, server.devices, server.tasks)
                == Step(SrsState(clients, old(server.devices), old(server.tasks)), WebOnPlay(id))
    {
      ok := CheckDeviceIdStrFmt(id);
      if ok {
        server.NotifyStart(id);
      }
    }
  }
}
