/** The bounded blocking queue, with its mutex and two condition variables, as the interleaving
    of what any number of threads do in it (web_server/thread/SafeQueue.hpp). A notification is
    sent after the lock is released, and a sleeper may also wake for no reason. */
module SafeQueue {
  type Tid = nat

  datatype Call<T> = Push(task: T) | Pop

  /** Where a thread is: outside; about to lock; holding the lock and about to look at the
      condition; waiting; waiting no more, but without the lock; holding the lock with the
      condition found true; done, with the notification still to send. `woken` says that the
      thread has come out of a wait since it last found the condition. */
  datatype Phase<T> =
    | Outside
    | Entering(call: Call<T>)
    | Testing(call: Call<T>, woken: bool)
    | Asleep(call: Call<T>)
    | Awake(call: Call<T>)
    | Inside(call: Call<T>, woken: bool)
    | Notifying(call: Call<T>)

  datatype Lock = Free | Held(holder: Tid)

  /** `pushed` and `popped` record every task that went in and came out. */
  datatype Queue<T> = Queue(maxSize: nat, items: seq<T>, lock: Lock, threads: map<Tid, Phase<T>>, pushed: seq<T>, popped: seq<T>)

  datatype Action<T> =
    | Enter(t: Tid, call: Call<T>)
    | Acquire(t: Tid)
    | Test(t: Tid)
    | Apply(t: Tid)
    | Notify(t: Tid, sleeper: Tid)
    | NotifyNobody(t: Tid)
    | Spurious(t: Tid)

  function Empty<T>(maxSize: nat): Queue<T> {
    Queue(maxSize, [], Free, map[], [], [])
  }

  /** How many calls of this kind could go through now. */
  function Room<T>(s: Queue<T>, pop: bool): int {
    if pop then |s.items| else s.maxSize - |s.items|
  }

  ghost predicate Sleeps<T>(s: Queue<T>, t: Tid, pop: bool) {
    t in s.threads && s.threads[t].Asleep? && s.threads[t].call.Pop? == pop
  }

  ghost predicate SomeoneSleeps<T>(s: Queue<T>, pop: bool) {
    exists t :: Sleeps(s, t, pop)
  }

  function PhaseOf<T>(s: Queue<T>, t: Tid): Phase<T> {
    if t in s.threads then s.threads[t] else Outside
  }

  ghost predicate Enabled<T>(s: Queue<T>, a: Action<T>) {
    var at := PhaseOf(s, a.t);
    match a
    case Enter(_, _) => at.Outside?
    case Acquire(_) => (at.Entering? || at.Awake?) && s.lock.Free?
    case Test(_) => at.Testing?
    case Apply(_) => at.Inside? && Room(s, at.call.Pop?) > 0
    case Notify(_, sleeper) => at.Notifying? && Sleeps(s, sleeper, !at.call.Pop?)
    case NotifyNobody(_) => at.Notifying? && !SomeoneSleeps(s, !at.call.Pop?)
    case Spurious(_) => at.Asleep?
  }

  function Moved<T>(s: Queue<T>, t: Tid, to: Phase<T>): Queue<T> {
    s.(threads := s.threads[t := to])
  }

  ghost function Step<T>(s: Queue<T>, a: Action<T>): Queue<T>
    requires Enabled(s, a)
  {
    var at := PhaseOf(s, a.t);
    match a
    case Enter(t, call) => Moved(s, t, Entering(call))
    case Acquire(t) => Moved(s, t, Testing(at.call, at.Awake?)).(lock := Held(t))
    case Test(t) =>
      if Room(s, at.call.Pop?) > 0 then Moved(s, t, Inside(at.call, at.woken))
      else Moved(s, t, Asleep(at.call)).(lock := Free)
    case Apply(t) =>
      var s' := Moved(s, t, Notifying(at.call)).(lock := Free);
      (match at.call
       case Push(task) => s'.(items := s.items + [task], pushed := s.pushed + [task])
       case Pop => s'.(items := s.items[1..], popped := s.popped + [s.items[0]]))
    case Notify(t, sleeper) => Moved(Moved(s, t, Outside), sleeper, Awake(s.threads[sleeper].call))
    case NotifyNobody(t) => Moved(s, t, Outside)
    case Spurious(t) => Moved(s, t, Awake(at.call))
  }

  // ---- Counting threads ----

  /** A thread that stands for one free place: it owes the sleepers of this kind a
      notification, or has had one and not used it up. */
  ghost predicate Credits<T>(p: Phase<T>, pop: bool) {
    match p
    case Notifying(call) => call.Pop? != pop
    case Awake(call) => call.Pop? == pop
    case Testing(call, woken) => call.Pop? == pop && woken
    case Inside(call, woken) => call.Pop? == pop && woken
    case _ => false
  }

  ghost function Creditors<T>(threads: map<Tid, Phase<T>>, pop: bool): set<Tid> {
    set t | t in threads && Credits(threads[t], pop)
  }

  lemma CreditMoves<T>(s: Queue<T>, t: Tid, to: Phase<T>, pop: bool)
    ensures |Creditors(Moved(s, t, to).threads, pop)| ==
              |Creditors(s.threads, pop)| - (if Credits(PhaseOf(s, t), pop) then 1 else 0) + (if Credits(to, pop) then 1 else 0)
  {
    var before, after := Creditors(s.threads, pop), Creditors(Moved(s, t, to).threads, pop);
    assert (t in before) == Credits(PhaseOf(s, t), pop);
    assert (t in after) == Credits(to, pop);
    forall u | u != t ensures u in before <==> u in after {
    }
    SameRest(before, after, t);
  }

  lemma SameRest(a: set<Tid>, b: set<Tid>, t: Tid)
    requires forall u :: u != t ==> (u in a <==> u in b)
    ensures |b| == |a| - (if t in a then 1 else 0) + (if t in b then 1 else 0)
  {
    assert a - {t} == b - {t};
    assert t in a ==> a == a - {t} + {t};
    assert t in b ==> b == b - {t} + {t};
    assert t !in a ==> a == a - {t};
    assert t !in b ==> b == b - {t};
  }

  // ---- The invariant ----

  ghost predicate LockAgrees<T>(s: Queue<T>) {
    forall t :: (PhaseOf(s, t).Testing? || PhaseOf(s, t).Inside?) <==> s.lock == Held(t)
  }

  ghost predicate InsideHasRoom<T>(s: Queue<T>) {
    forall t :: PhaseOf(s, t).Inside? ==> Room(s, PhaseOf(s, t).call.Pop?) > 0
  }

  /** If anyone of this kind sleeps, every free place is accounted for. */
  ghost predicate NoneLost<T>(s: Queue<T>, pop: bool) {
    SomeoneSleeps(s, pop) ==> Room(s, pop) <= |Creditors(s.threads, pop)|
  }

  ghost predicate Inv<T>(s: Queue<T>) {
    && LockAgrees(s) && InsideHasRoom(s)
    && |s.items| <= s.maxSize
    && s.pushed == s.popped + s.items
    && NoneLost(s, true) && NoneLost(s, false)
  }

  lemma LockKeeps<T>(s: Queue<T>, a: Action<T>)
    requires Inv(s) && Enabled(s, a)
    ensures LockAgrees(Step(s, a)) && InsideHasRoom(Step(s, a))
  {
    var s' := Step(s, a);
    forall t ensures (PhaseOf(s', t).Testing? || PhaseOf(s', t).Inside?) <==> s'.lock == Held(t)
      ensures PhaseOf(s', t).Inside? ==> Room(s', PhaseOf(s', t).call.Pop?) > 0
    {
      assert (PhaseOf(s, t).Testing? || PhaseOf(s, t).Inside?) <==> s.lock == Held(t);
    }
  }

  lemma NoneLostKeeps<T>(s: Queue<T>, a: Action<T>, pop: bool)
    requires Inv(s) && Enabled(s, a)
    ensures NoneLost(Step(s, a), pop)
  {
    var s' := Step(s, a);
    var at := PhaseOf(s, a.t);
    match a {
      case Notify(t, sleeper) =>
        CreditMoves(s, t, Outside, pop);
        CreditMoves(Moved(s, t, Outside), sleeper, Awake(s.threads[sleeper].call), pop);
      case _ => CreditMoves(s, a.t, PhaseOf(s', a.t), pop);
    }
    if t :| Sleeps(s', t, pop) {
      if t != a.t || !a.Test? {
        assert Sleeps(s, t, pop);
      }
    }
  }

  lemma StepKeeps<T>(s: Queue<T>, a: Action<T>)
    requires Inv(s) && Enabled(s, a)
    ensures Inv(Step(s, a)) && Step(s, a).maxSize == s.maxSize
  {
    LockKeeps(s, a);
    NoneLostKeeps(s, a, true);
    NoneLostKeeps(s, a, false);
    if a.Apply? && PhaseOf(s, a.t).call.Pop? {
      assert s.items == [s.items[0]] + s.items[1..];
    }
  }

  // ---- Runs ----

  ghost predicate Possible<T(!new)>(maxSize: nat, actions: seq<Action<T>>)
    decreases |actions|, 0
  {
    actions == [] || var n := |actions| - 1; Possible(maxSize, actions[..n]) && Enabled(Run(maxSize, actions[..n]), actions[n])
  }

  ghost function Run<T(!new)>(maxSize: nat, actions: seq<Action<T>>): Queue<T>
    requires Possible(maxSize, actions)
    decreases |actions|, 1
  {
    if actions == [] then Empty(maxSize) else Step(Run(maxSize, actions[..|actions| - 1]), actions[|actions| - 1])
  }

  lemma {:induction false} RunKeeps<T(!new)>(maxSize: nat, actions: seq<Action<T>>)
    requires Possible(maxSize, actions)
    ensures Inv(Run(maxSize, actions)) && Run(maxSize, actions).maxSize == maxSize
  {
    if actions != [] {
      var n := |actions| - 1;
      RunKeeps(maxSize, actions[..n]);
      StepKeeps(Run(maxSize, actions[..n]), actions[n]);
    }
  }

  /** Over every run the queue never outgrows its bound, and tasks come out in exactly the
      order they went in, each once. */
  lemma BoundedFifo<T(!new)>(maxSize: nat, actions: seq<Action<T>>)
    requires Possible(maxSize, actions)
    ensures var s := Run(maxSize, actions);
            |s.items| <= maxSize && s.popped <= s.pushed && s.items == s.pushed[|s.popped|..]
  {
    RunKeeps(maxSize, actions);
  }

  // ---- Every call goes through once ----

  /** The call a thread has begun and that has not gone through yet. */
  ghost function Pending<T>(s: Queue<T>, t: Tid): seq<Call<T>> {
    var p := PhaseOf(s, t);
    if p.Outside? || p.Notifying? then [] else [p.call]
  }

  /** What a step of this thread did to the queue, by what went in and came out. */
  ghost function DoneIn<T>(s: Queue<T>, s': Queue<T>): seq<Call<T>>
    requires s.pushed <= s'.pushed && s.popped <= s'.popped
  {
    var went := s'.pushed[|s.pushed|..];
    seq(|went|, i requires 0 <= i < |went| => Push(went[i])) + seq(|s'.popped| - |s.popped|, i => Pop)
  }

  lemma RecordsGrow<T>(s: Queue<T>, a: Action<T>)
    requires Enabled(s, a)
    ensures s.pushed <= Step(s, a).pushed && s.popped <= Step(s, a).popped
  {
  }

  /** The calls a thread begins. */
  ghost function Begun<T>(actions: seq<Action<T>>, t: Tid): seq<Call<T>> {
    if actions == [] then []
    else
      var n := |actions| - 1;
      Begun(actions[..n], t) + if actions[n].Enter? && actions[n].t == t then [actions[n].call] else []
  }

  /** Those that have gone through, in the thread's own steps. */
  ghost function GoneThrough<T(!new)>(maxSize: nat, actions: seq<Action<T>>, t: Tid): seq<Call<T>>
    requires Possible(maxSize, actions)
  {
    if actions == [] then []
    else
      var n := |actions| - 1;
      RecordsGrow(Run(maxSize, actions[..n]), actions[n]);
      GoneThrough(maxSize, actions[..n], t)
      + if actions[n].t == t then DoneIn(Run(maxSize, actions[..n]), Run(maxSize, actions)) else []
  }

  lemma StepOfCall<T>(s: Queue<T>, a: Action<T>)
    requires Enabled(s, a)
    ensures s.pushed <= Step(s, a).pushed && s.popped <= Step(s, a).popped
    ensures DoneIn(s, Step(s, a)) + Pending(Step(s, a), a.t) == Pending(s, a.t) + if a.Enter? then [a.call] else []
  {
    var s' := Step(s, a);
    var went := s'.pushed[|s.pushed|..];
    if a.Apply? {
      match PhaseOf(s, a.t).call
      case Push(task) => assert went == [task] && DoneIn(s, s') == [Push(task)];
      case Pop => assert went == [] && DoneIn(s, s') == [Pop];
    } else {
      assert DoneIn(s, s') == [];
    }
  }

  lemma OthersPending<T>(s: Queue<T>, a: Action<T>, t: Tid)
    requires Enabled(s, a) && t != a.t
    ensures Pending(Step(s, a), t) == Pending(s, t)
  {
  }

  lemma InTurn<T>(through: seq<T>, done: seq<T>, after: seq<T>, before: seq<T>, more: seq<T>)
    requires done + after == before + more
    ensures through + done + after == through + before + more
  {
    assert through + done + after == through + (done + after);
  }

  /** Over every run each thread's calls go through once each and in their order, with the very
      tasks they were made with; only the last may still be on its way. */
  lemma {:induction false} EveryCallOnce<T(!new)>(maxSize: nat, actions: seq<Action<T>>, t: Tid)
    requires Possible(maxSize, actions)
    ensures GoneThrough(maxSize, actions, t) + Pending(Run(maxSize, actions), t) == Begun(actions, t)
  {
    if actions != [] {
      var n := |actions| - 1;
      var s, a := Run(maxSize, actions[..n]), actions[n];
      EveryCallOnce(maxSize, actions[..n], t);
      if a.t == t {
        StepOfCall(s, a);
        InTurn(GoneThrough(maxSize, actions[..n], t), DoneIn(s, Step(s, a)), Pending(Step(s, a), t), Pending(s, t),
               if a.Enter? then [a.call] else []);
      } else {
        OthersPending(s, a, t);
      }
    }
  }

  /** A thread that can go on by itself: not by a new call, nor by waking for no reason. */
  ghost predicate CanGoOn<T>(s: Queue<T>, t: Tid) {
    var p := PhaseOf(s, t);
    p.Testing? || p.Inside? || p.Notifying? || ((p.Entering? || p.Awake?) && s.lock.Free?)
  }

  lemma GoingOnIsEnabled<T>(s: Queue<T>, t: Tid) returns (a: Action<T>)
    requires Inv(s) && CanGoOn(s, t)
    ensures Enabled(s, a) && a.t == t && !a.Spurious? && !a.Enter?
  {
    var p := PhaseOf(s, t);
    match p {
      case Testing(_, _) => a := Test(t);
      case Inside(_, _) => a := Apply(t);
      case Notifying(call) =>
        var other := !call.Pop?;
        if SomeoneSleeps(s, other) {
          var sleeper :| Sleeps(s, sleeper, other);
          a := Notify(t, sleeper);
        } else {
          a := NotifyNobody(t);
        }
      case _ => a := Acquire(t);
    }
  }

  /** No wakeup is ever lost: in every reachable state, if a sleeper's condition holds, some
      thread can go on, without any help from outside. */
  lemma NoLostWakeup<T(!new)>(maxSize: nat, actions: seq<Action<T>>, sleeper: Tid, pop: bool)
    requires Possible(maxSize, actions)
    requires Sleeps(Run(maxSize, actions), sleeper, pop) && Room(Run(maxSize, actions), pop) > 0
    ensures exists t :: CanGoOn(Run(maxSize, actions), t)
  {
    RunKeeps(maxSize, actions);
    SleeperIsOwed(Run(maxSize, actions), sleeper, pop);
  }

  lemma SleeperIsOwed<T>(s: Queue<T>, sleeper: Tid, pop: bool)
    requires Inv(s) && Sleeps(s, sleeper, pop) && Room(s, pop) > 0
    ensures exists t :: CanGoOn(s, t)
  {
    assert |Creditors(s.threads, pop)| > 0;
    var t :| t in Creditors(s.threads, pop);
    if s.threads[t].Awake? && s.lock.Held? {
      assert CanGoOn(s, s.lock.holder);
    } else {
      assert CanGoOn(s, t);
    }
  }

  /** So when nobody can go on, whoever is still in the queue has reason to wait: poppers only
      if it is empty, pushers only if it is full, and never both if it can hold anything. */
  lemma AtRest<T>(s: Queue<T>)
    requires Inv(s) && forall t :: !CanGoOn(s, t)
    ensures forall t :: PhaseOf(s, t).Outside? || PhaseOf(s, t).Asleep?
    ensures forall t :: Sleeps(s, t, true) ==> s.items == []
    ensures forall t :: Sleeps(s, t, false) ==> |s.items| == s.maxSize
  {
    forall t ensures PhaseOf(s, t).Outside? || PhaseOf(s, t).Asleep? {
      assert !CanGoOn(s, t);
      if s.lock.Held? {
        assert !CanGoOn(s, s.lock.holder);
      }
    }
    forall t, pop | Sleeps(s, t, pop) ensures Room(s, pop) <= 0 {
      if Room(s, pop) > 0 {
        SleeperIsOwed(s, t, pop);
      }
    }
  }

  // ---- Going on always ends ----

  /** How far a thread has to go. A waiting thread has its whole call before it, but needs a
      notification, which uses up another thread's last step. */
  function Weight<T>(p: Phase<T>): nat {
    match p
    case Outside => 0
    case Entering(_) => 6
    case Testing(_, _) => 5
    case Asleep(_) => 4
    case Awake(_) => 6
    case Inside(_, _) => 4
    case Notifying(_) => 3
  }

  ghost function AtLeast<T>(threads: map<Tid, Phase<T>>, w: nat): set<Tid> {
    set t | t in threads && Weight(threads[t]) >= w
  }

  /** The weights of all threads together. */
  ghost function Work<T>(threads: map<Tid, Phase<T>>): nat {
    |AtLeast(threads, 1)| + |AtLeast(threads, 2)| + |AtLeast(threads, 3)|
    + |AtLeast(threads, 4)| + |AtLeast(threads, 5)| + |AtLeast(threads, 6)|
  }

  lemma AtLeastMoves<T>(s: Queue<T>, t: Tid, to: Phase<T>, w: nat)
    requires w > 0
    ensures |AtLeast(Moved(s, t, to).threads, w)| ==
              |AtLeast(s.threads, w)| - (if Weight(PhaseOf(s, t)) >= w then 1 else 0) + (if Weight(to) >= w then 1 else 0)
  {
    var before, after := AtLeast(s.threads, w), AtLeast(Moved(s, t, to).threads, w);
    assert (t in before) == (Weight(PhaseOf(s, t)) >= w);
    assert (t in after) == (Weight(to) >= w);
    forall u | u != t ensures u in before <==> u in after {
    }
    SameRest(before, after, t);
  }

  lemma WorkMoves<T>(s: Queue<T>, t: Tid, to: Phase<T>)
    ensures Work(Moved(s, t, to).threads) == Work(s.threads) - Weight(PhaseOf(s, t)) + Weight(to)
  {
    AtLeastMoves(s, t, to, 1);
    AtLeastMoves(s, t, to, 2);
    AtLeastMoves(s, t, to, 3);
    AtLeastMoves(s, t, to, 4);
    AtLeastMoves(s, t, to, 5);
    AtLeastMoves(s, t, to, 6);
  }

  /** Neither a new call nor a wakeup for no reason. */
  ghost predicate GoesOn<T>(a: Action<T>) { !a.Enter? && !a.Spurious? }

  lemma GoingOnUsesUp<T>(s: Queue<T>, a: Action<T>)
    requires Enabled(s, a) && GoesOn(a)
    ensures Work(Step(s, a).threads) < Work(s.threads)
  {
    if a.Notify? {
      WorkMoves(s, a.t, Outside);
      WorkMoves(Moved(s, a.t, Outside), a.sleeper, Awake(s.threads[a.sleeper].call));
    } else {
      WorkMoves(s, a.t, PhaseOf(Step(s, a), a.t));
    }
  }

  ghost predicate AllGoOn<T(!new)>(s: Queue<T>, actions: seq<Action<T>>)
    decreases |actions|
  {
    actions == [] || (GoesOn(actions[0]) && Enabled(s, actions[0]) && AllGoOn(Step(s, actions[0]), actions[1..]))
  }

  /** However the threads inside are scheduled, they can go on only so often. */
  lemma {:induction false} GoingOnEnds<T(!new)>(s: Queue<T>, actions: seq<Action<T>>)
    requires AllGoOn(s, actions)
    ensures |actions| <= Work(s.threads)
    decreases |actions|
  {
    if actions != [] {
      GoingOnUsesUp(s, actions[0]);
      GoingOnEnds(Step(s, actions[0]), actions[1..]);
    }
  }

  /** Left to themselves the threads inside come to rest, and then whoever still waits has
      reason to. */
  lemma {:induction false} ComesToRest<T>(s: Queue<T>) returns (rest: Queue<T>)
    requires Inv(s)
    ensures Inv(rest) && rest.maxSize == s.maxSize && s.pushed <= rest.pushed && s.popped <= rest.popped
    ensures forall t :: PhaseOf(rest, t).Outside? || PhaseOf(rest, t).Asleep?
    ensures forall t :: Sleeps(rest, t, true) ==> rest.items == []
    ensures forall t :: Sleeps(rest, t, false) ==> |rest.items| == rest.maxSize
    decreases Work(s.threads)
  {
    if t :| CanGoOn(s, t) {
      var a := GoingOnIsEnabled(s, t);
      GoingOnUsesUp(s, a);
      StepKeeps(s, a);
      rest := ComesToRest(Step(s, a));
    } else {
      rest := s;
      AtRest(s);
    }
  }
}
