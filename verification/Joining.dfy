/** How a viewer comes to be in a channel that is served: in any state of the service it
    subscribes, and the requests on the way arrive (pc_server/PcServer.cpp,
    jt1078/forward_server/ForwardServer.cpp). */
module Joining {
  import opened Ids
  import opened Service
  import opened TcpSessions
  import D = DeviceId
  import PcModel
  import Protocol
  import Relay
  import Tables

  lemma OneMore(kernels: Relay.Kernels, run: seq<Event>, e: Event)
    requires Possible(kernels, run) && Enabled(Run(kernels, run), e)
    ensures Possible(kernels, run + [e]) && Run(kernels, run + [e]) == Step(kernels, Run(kernels, run), e)
  {
    assert (run + [e])[..|run|] == run;
  }

  /** A viewer connects, and so does the viewer server. */
  ghost function Ready(kernel: Kernel): seq<Event> { [] + [AtViewers(Relay.Connects(0))] + [LinkUp(kernel)] }

  lemma ReadyRun(kernels: Relay.Kernels, kernel: Kernel)
    ensures Possible(kernels, Ready(kernel))
    ensures var w := Run(kernels, Ready(kernel));
            && w.sys.pc == w.chain.viewers.pc == PcModel.ClientConnect(PcModel.NewViewer(PcModel.START, 0), true)
            && w.sys.taken == 0 && w.sys.health.Healthy? && w.sys.exact
  {
    OneMore(kernels, [], AtViewers(Relay.Connects(0)));
    OneMore(kernels, [] + [AtViewers(Relay.Connects(0))], LinkUp(kernel));
    assert PcModel.Watched(PcModel.START.channels) == {};
  }

  /** A run, and then so many requests arrive. */
  ghost function ThenArrive(run: seq<Event>, n: nat): seq<Event>
    decreases n
  {
    if n == 0 then run else ThenArrive(run + [AtServer(Protocol.RequestArrives)], n - 1)
  }

  /** Where a run leaves the protocol, if it can happen. */
  datatype End = Nowhere | At(sys: Protocol.Sys)

  ghost function EndOf(kernels: Relay.Kernels, run: seq<Event>): End {
    if Possible(kernels, run) then At(Run(kernels, run).sys) else Nowhere
  }

  lemma OneArrives(kernels: Relay.Kernels, run: seq<Event>, s: Protocol.Sys)
    requires EndOf(kernels, run) == At(s) && Protocol.Enabled(s, Protocol.RequestArrives)
    ensures EndOf(kernels, run + [AtServer(Protocol.RequestArrives)]) == At(Protocol.Step(s, Protocol.RequestArrives))
  {
    OneMore(kernels, run, AtServer(Protocol.RequestArrives));
  }

  /** Where runs leave the protocol, if requests may arrive. */
  ghost predicate Arriving(endOf: seq<Event> -> End) {
    forall run, s :: endOf(run) == At(s) && Protocol.Enabled(s, Protocol.RequestArrives) ==>
      endOf(run + [AtServer(Protocol.RequestArrives)]) == At(Protocol.Step(s, Protocol.RequestArrives))
  }

  /** All that are on the way do, one after another. */
  lemma {:induction false} AllArrive(endOf: seq<Event> -> End, run: seq<Event>, s: Protocol.Sys, n: nat)
    requires Arriving(endOf) && endOf(run) == At(s)
    requires s.pc.link.Up? && s.health.Healthy? && n == |s.pc.sent| - s.taken
    ensures endOf(ThenArrive(run, n)) == At(Protocol.AllArrive(s))
    decreases n
  {
    if n == 0 {
      Protocol.NoneToArrive(s);
    } else {
      var s' := Protocol.NextArrives(s);
      AllArrive(endOf, run + [AtServer(Protocol.RequestArrives)], s', n - 1);
    }
  }

  lemma AllArriveIn(kernels: Relay.Kernels, run: seq<Event>, s: Protocol.Sys, n: nat)
    requires EndOf(kernels, run) == At(s) && s.pc.link.Up? && s.health.Healthy? && n == |s.pc.sent| - s.taken
    ensures EndOf(kernels, ThenArrive(run, n)) == At(Protocol.AllArrive(s))
  {
    var endOf := r => EndOf(kernels, r);
    forall r, s | endOf(r) == At(s) && Protocol.Enabled(s, Protocol.RequestArrives)
      ensures endOf(r + [AtServer(Protocol.RequestArrives)]) == At(Protocol.Step(s, Protocol.RequestArrives))
    {
      OneArrives(kernels, r, s);
    }
    AllArrive(endOf, run, s, n);
  }

  /** A viewer subscribes, and then so many requests arrive. */
  ghost function Subscribing(run: seq<Event>, sid: Sid, device: string, n: nat): seq<Event> {
    ThenArrive(run + [AtViewers(Relay.Sends(sid, 0x2, device))], n)
  }

  ghost predicate MaySubscribe(w: Whole, sid: Sid) {
    w.sys.pc.link.Up? && w.sys.health.Healthy? && sid in w.sys.pc.viewers
  }

  lemma SubscribeRun(kernels: Relay.Kernels, run: seq<Event>, sid: Sid, device: string)
    requires Possible(kernels, run) && sid in Run(kernels, run).sys.pc.viewers
    ensures var run' := run + [AtViewers(Relay.Sends(sid, 0x2, device))];
            && Possible(kernels, run') && Protocol.SysInv(Run(kernels, run').sys)
            && Run(kernels, run').sys == Protocol.Step(Run(kernels, run).sys, Protocol.ViewerSends(sid, 0x2, device))
  {
    RunCouples(kernels, run);
    OneMore(kernels, run, AtViewers(Relay.Sends(sid, 0x2, device)));
    RunCouples(kernels, run + [AtViewers(Relay.Sends(sid, 0x2, device))]);
  }

  lemma SubscribingRun(kernels: Relay.Kernels, run: seq<Event>, sid: Sid, device: string) returns (n: nat)
    requires Possible(kernels, run) && MaySubscribe(Run(kernels, run), sid)
    ensures Possible(kernels, Subscribing(run, sid, device, n))
    ensures Run(kernels, Subscribing(run, sid, device, n)).sys
         == Protocol.AllArrive(Protocol.Step(Run(kernels, run).sys, Protocol.ViewerSends(sid, 0x2, device)))
  {
    SubscribeRun(kernels, run, sid, device);
    var run' := run + [AtViewers(Relay.Sends(sid, 0x2, device))];
    var s := Run(kernels, run').sys;
    PcModel.ViewerPacketExtends(Run(kernels, run).sys.pc, sid, 0x2, device);
    n := |s.pc.sent| - s.taken;
    AllArriveIn(kernels, run', s, n);
  }

  /** In any state of the service, any viewer that subscribes, by any string, is in the channel
      of the device it names; and once the requests on the way have arrived it is served there,
      unless others were watching already and had been left unserved. On a connection that came
      up with printable ids nobody is. */
  lemma StayBegins(kernels: Relay.Kernels, run: seq<Event>, sid: Sid, device: string) returns (n: nat)
    requires Possible(kernels, run) && MaySubscribe(Run(kernels, run), sid) && device != ""
    ensures Possible(kernels, Subscribing(run, sid, device, n))
    ensures var before, after, d := Run(kernels, run).sys, Run(kernels, Subscribing(run, sid, device, n)), D.Parse(device);
            && Stands(after, sid, d)
            && (Steady(after, sid, d) <==> (Tables.HasOthers(before.pc.channels, d, sid) ==> d in PcModel.Believed(before.pc)))
            && (before.exact ==> Steady(after, sid, d))
  {
    RunCouples(kernels, run);
    n := SubscribingRun(kernels, run, sid, device);
    Protocol.SubscriberIsServed(Run(kernels, run).sys, sid, device);
  }

  /** So it is with the first viewer of all, however the connections will answer. */
  lemma FirstStay(kernels: Relay.Kernels, kernel: Kernel, device: string) returns (n: nat)
    requires device != ""
    ensures Possible(kernels, Subscribing(Ready(kernel), 0, device, n))
    ensures Steady(Run(kernels, Subscribing(Ready(kernel), 0, device, n)), 0, D.Parse(device))
  {
    ReadyRun(kernels, kernel);
    n := StayBegins(kernels, Ready(kernel), 0, device);
  }
}
