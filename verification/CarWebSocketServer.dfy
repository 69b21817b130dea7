/** The websocket server's table of connections and its topics, updated in place
    (new_web_server/CarWebSocketServer.cpp, new_web_server/CarTopicManager.h). */
module CarWebSocketServers {
  import opened Ids
  import opened Ordered
  import opened Tables
  import opened TopicModel
  import D = DeviceId

  /** The topics, each a set of connections. */
  class CarTopicManager {
    var topics: Table

    constructor ()
      ensures topics == map[]
    {
      topics := map[];
    }

    predicate ExistsTopic(d: Device)
      reads this
    {
      d in topics
    }

    method AddSubscriber(d: Device, hdl: Handle)
      modifies this
      ensures topics == old(topics)[d := (if d in old(topics) then old(topics)[d] else {}) + {hdl}]
    {
      if d !in topics {
        topics := topics[d := {}];
      }
      topics := topics[d := topics[d] + {hdl}];
    }

    method RemoveSubscriber(hdl: Handle)
      modifies this
      ensures topics == WithoutAnywhere(old(topics), hdl)
    {
      var todo := topics.Keys;
      while todo != {}
        invariant todo <= topics.Keys == old(topics).Keys
        invariant forall d :: d in topics ==> topics[d] == if d in todo then old(topics)[d] else old(topics)[d] - {hdl}
      {
        var d :| d in todo;
        topics := topics[d := topics[d] - {hdl}];
        todo := todo - {d};
      }
    }

    /** In the order of the topic map. */
    method GetEmptyTopicList() returns (list: seq<Device>)
      ensures list == Ascending(Empties(topics))
    {
      list := [];
      var todo := topics.Keys;
      assert Empties(topics) * todo == Empties(topics);
      while todo != {}
        invariant todo <= topics.Keys
        invariant list + Ascending(Empties(topics) * todo) == Ascending(Empties(topics))
      {
        var d := Next(todo);
        EmptyNext(topics, list, todo, d);
        if topics[d] == {} {
          list := list + [d];
        }
        todo := todo - {d};
      }
      assert Empties(topics) * todo == {};
    }

    method RemoveTopics(list: seq<Device>)
      modifies this
      ensures topics == old(topics) - set d | d in list
    {
      for i := 0 to |list|
        invariant topics == old(topics) - set d | d in list[..i]
      {
        assert list[..i + 1] == list[..i] + [list[i]];
        topics := topics - {list[i]};
      }
      assert list[..|list|] == list;
    }
  }

  lemma EmptyNext(topics: Table, list: seq<Device>, todo: set<Device>, d: Device)
    requires IsLeast(d, todo) && d in topics
    ensures list + Ascending(Empties(topics) * todo)
         == (if topics[d] == {} then list + [d] else list) + Ascending(Empties(topics) * (todo - {d}))
  {
    var left := Empties(topics) * todo;
    assert Empties(topics) * (todo - {d}) == left - {d};
    if topics[d] == {} {
      assert IsLeast(d, left);
      AscendingFirst(d, left);
    } else {
      assert left - {d} == left;
    }
  }

  class CarWebSocketServer {
    var subscribers: map<Handle, string>
    const manager: CarTopicManager
    var notices: seq<Notice>

    ghost function View(): TopicState
      reads this, manager
    {
      TopicState(subscribers, manager.topics, notices)
    }

    constructor ()
      ensures View() == START
    {
      subscribers, notices := map[], [];
      manager := new CarTopicManager();
    }

    method NotifySubscribe(id: string, subscribe: bool)
      modifies this`notices
      ensures notices == old(notices) + [Notice(id, subscribe)]
    {
      notices := notices + [Notice(id, subscribe)];
    }

    method OnOpen(hdl: Handle, uri: string)
      modifies this, manager
      ensures View() == Step(old(View()), Opened(hdl, uri))
    {
      if |LIVE| <= |uri| && uri[..|LIVE|] == LIVE {
        var id := uri[|LIVE|..];
        if |id| != 14 {
          return;
        }
        AddHdlAndSubscribeCarDeviceId(hdl, id);
      }
    }

    method AddHdlAndSubscribeCarDeviceId(hdl: Handle, id: string)
      modifies this, manager
      ensures View() == Add(old(View()), hdl, id)
    {
      subscribers := subscribers[hdl := id];
      var d := D.Parse(id);
      assert {} + {hdl} == {hdl};
      if !manager.ExistsTopic(d) {
        NotifySubscribe(id, true);
      }
      manager.AddSubscriber(d, hdl);
    }

    /** One notice for each topic that is gone. */
    method NotifyGone(list: seq<Device>)
      modifies this`notices
      ensures notices == old(notices) + Farewells(list)
    {
      ghost var before := notices;
      for i := 0 to |list|
        invariant notices + Farewells(list[i..]) == before + Farewells(list)
      {
        assert list[i..] == [list[i]] + list[i + 1..];
        FarewellsFirst(notices, list[i], list[i + 1..]);
        NotifySubscribe(D.Print(list[i]), false);
      }
      assert list[|list|..] == [];
    }

    method RemoveHdlAndUnSubscribeCarDeviceId(hdl: Handle)
      modifies this, manager
      ensures View() == Remove(old(View()), hdl)
    {
      subscribers := subscribers - {hdl};
      manager.RemoveSubscriber(hdl);
      var list := manager.GetEmptyTopicList();
      assert (set d | d in list) == Empties(manager.topics);
      manager.RemoveTopics(list);
      NotifyGone(list);
    }
  }
}
