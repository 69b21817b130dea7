/** The worker thread over the blocking queue: it pops and handles tasks until it pops the one
    that says to stop (web_server/thread/WorkThread.hpp). */
module WorkThreads {
  import opened SafeQueue

  /** A null task is handled like any other; only a real one can say to stop. */
  datatype Task<T> = Null | Job(job: T) | Quit

  /** The tasks before the first that says to stop. */
  function BeforeQuit<T>(tasks: seq<Task<T>>): seq<Task<T>> {
    if tasks == [] || tasks[0].Quit? then [] else [tasks[0]] + BeforeQuit(tasks[1..])
  }

  predicate NoQuit<T>(tasks: seq<Task<T>>) {
    forall i :: 0 <= i < |tasks| ==> !tasks[i].Quit?
  }

  lemma {:induction false} BeforeQuitOf<T>(a: seq<Task<T>>, b: seq<Task<T>>)
    requires NoQuit(a)
    ensures BeforeQuit(a + b) == a + BeforeQuit(b)
  {
    if a == [] {
      assert a + b == b;
    } else {
      assert (a + b)[1..] == a[1..] + b;
      BeforeQuitOf(a[1..], b);
    }
  }

  /** The first `n` tasks that popping yields. */
  ghost function First<T>(tasks: nat -> Task<T>, n: nat): (some: seq<Task<T>>)
    ensures |some| == n && forall k :: 0 <= k < n ==> some[k] == tasks(k)
  {
    seq(n, k requires 0 <= k < n => tasks(k))
  }

  /** The loop of the thread, watched for so many turns: pop number k yields `tasks(k)`, and
      only a task that says so ends the loop. */
  method Run<T>(tasks: nat -> Task<T>, turns: nat) returns (handled: seq<Task<T>>, stopped: bool)
    ensures handled == BeforeQuit(First(tasks, turns))
    ensures stopped <==> exists k :: 0 <= k < turns && tasks(k).Quit?
    ensures if stopped then |handled| < turns && tasks(|handled|).Quit? else |handled| == turns
  {
    handled, stopped := [], false;
    var popped := 0;
    while popped < turns
      invariant popped <= turns && handled == First(tasks, popped) && NoQuit(handled)
    {
      var task := tasks(popped);
      popped := popped + 1;
      if task.Quit? {
        stopped := true;
        break;
      }
      handled := handled + [task];
    }
    var n := |handled|;
    assert First(tasks, turns) == handled + First(tasks, turns)[n..];
    BeforeQuitOf(handled, First(tasks, turns)[n..]);
    if !stopped {
      forall k | 0 <= k < turns ensures !tasks(k).Quit? {
        assert handled[k] == tasks(k);
      }
    }
  }

  // ---- The thread among the threads that post to it ----

  const WORKER: Tid := 0

  datatype Worker<T> = Worker(queue: Queue<Task<T>>, handled: seq<Task<T>>, stopped: bool)

  datatype Move<T> = InQueue(action: Action<Task<T>>) | Deal

  /** How many popped tasks the worker is done with. */
  function Dealt<T>(w: Worker<T>): nat {
    |w.handled| + if w.stopped then 1 else 0
  }

  /** The worker only pops, everyone else only posts; the worker pops again once it is done
      with the last task, until it stops. */
  ghost predicate May<T>(w: Worker<T>, m: Move<T>) {
    match m
    case InQueue(a) =>
      && Enabled(w.queue, a)
      && (a.Enter? ==> (a.t == WORKER <==> a.call.Pop?))
      && (a.Enter? && a.t == WORKER ==> !w.stopped && Dealt(w) == |w.queue.popped|)
    case Deal => PhaseOf(w.queue, WORKER).Outside? && Dealt(w) < |w.queue.popped|
  }

  ghost function Do<T>(w: Worker<T>, m: Move<T>): Worker<T>
    requires May(w, m)
  {
    match m
    case InQueue(a) => w.(queue := Step(w.queue, a))
    case Deal =>
      var task := w.queue.popped[Dealt(w)];
      if task.Quit? then w.(stopped := true) else w.(handled := w.handled + [task])
  }

  /** Everyone keeps to their part of the queue. */
  ghost predicate InRole<T>(s: Queue<Task<T>>) {
    forall t :: !PhaseOf(s, t).Outside? ==> (t == WORKER <==> PhaseOf(s, t).call.Pop?)
  }

  /** All popped tasks are dealt with, but for one between the pop and its handling. */
  ghost predicate Inv<T>(w: Worker<T>) {
    var at := PhaseOf(w.queue, WORKER);
    && SafeQueue.Inv(w.queue) && InRole(w.queue)
    && NoQuit(w.handled)
    && w.handled + (if w.stopped then [Quit] else []) <= w.queue.popped
    && (if at.Notifying? then |w.queue.popped| == Dealt(w) + 1
        else if at.Outside? then |w.queue.popped| <= Dealt(w) + 1
        else |w.queue.popped| == Dealt(w))
    && (w.stopped ==> at.Outside? && |w.queue.popped| == Dealt(w))
  }

  lemma RoleKeeps<T>(w: Worker<T>, a: Action<Task<T>>)
    requires Inv(w) && May(w, InQueue(a))
    ensures InRole(Step(w.queue, a))
  {
    var s, s' := w.queue, Step(w.queue, a);
    forall t | !PhaseOf(s', t).Outside? ensures t == WORKER <==> PhaseOf(s', t).call.Pop? {
      assert !PhaseOf(s, t).Outside? ==> (t == WORKER <==> PhaseOf(s, t).call.Pop?);
    }
  }

  lemma DoKeeps<T>(w: Worker<T>, m: Move<T>)
    requires Inv(w) && May(w, m)
    ensures Inv(Do(w, m))
  {
    match m
    case InQueue(a) =>
      StepKeeps(w.queue, a);
      RoleKeeps(w, a);
      var at := PhaseOf(w.queue, a.t);
      assert !at.Outside? ==> (a.t == WORKER <==> at.call.Pop?);
    case Deal =>
      var task := w.queue.popped[Dealt(w)];
      assert w.queue.popped == w.handled + [task];
  }

  ghost predicate Possible<T(!new)>(maxSize: nat, moves: seq<Move<T>>)
    decreases |moves|, 0
  {
    moves == [] || var n := |moves| - 1; Possible(maxSize, moves[..n]) && May(After(maxSize, moves[..n]), moves[n])
  }

  ghost function After<T(!new)>(maxSize: nat, moves: seq<Move<T>>): Worker<T>
    requires Possible(maxSize, moves)
    decreases |moves|, 1
  {
    if moves == [] then Worker(Empty(maxSize), [], false) else Do(After(maxSize, moves[..|moves| - 1]), moves[|moves| - 1])
  }

  lemma {:induction false} AfterKeeps<T(!new)>(maxSize: nat, moves: seq<Move<T>>)
    requires Possible(maxSize, moves)
    ensures Inv(After(maxSize, moves))
  {
    if moves != [] {
      var n := |moves| - 1;
      AfterKeeps(maxSize, moves[..n]);
      DoKeeps(After(maxSize, moves[..n]), moves[n]);
    }
  }

  /** What happens in the queue. */
  ghost function ActionsOf<T>(moves: seq<Move<T>>): seq<Action<Task<T>>> {
    if moves == [] then []
    else
      var n := |moves| - 1;
      ActionsOf(moves[..n]) + if moves[n].InQueue? then [moves[n].action] else []
  }

  /** Every run of the worker and its posters is one of the queue, so each task they post goes in
      once, in the order of its poster (`SafeQueue.EveryCallOnce`). */
  lemma {:induction false} QueueRuns<T(!new)>(maxSize: nat, moves: seq<Move<T>>)
    requires Possible(maxSize, moves)
    ensures SafeQueue.Possible(maxSize, ActionsOf(moves))
    ensures SafeQueue.Run(maxSize, ActionsOf(moves)) == After(maxSize, moves).queue
  {
    if moves != [] {
      var n := |moves| - 1;
      QueueRuns(maxSize, moves[..n]);
      var before := ActionsOf(moves[..n]);
      if moves[n].InQueue? {
        assert (before + [moves[n].action])[..|before|] == before;
      } else {
        assert before + [] == before;
      }
    }
  }

  lemma HandledSoFar<T>(w: Worker<T>)
    requires Inv(w)
    ensures w.handled <= BeforeQuit(w.queue.pushed)
    ensures w.stopped ==> w.handled == BeforeQuit(w.queue.pushed) && Quit in w.queue.pushed
  {
    var rest := w.queue.pushed[|w.handled|..];
    assert w.queue.pushed == w.handled + rest;
    BeforeQuitOf(w.handled, rest);
    if w.stopped {
      assert rest[0] == w.queue.pushed[|w.handled|] == Quit;
    }
  }

  /** For every interleaving of the posting threads: what has been handled is, in order and
      each once, the first so-many of the tasks enqueued before the first that says to stop;
      when the worker has stopped it is exactly all of those. */
  lemma HandledInOrder<T(!new)>(maxSize: nat, moves: seq<Move<T>>)
    requires Possible(maxSize, moves)
    ensures var w := After(maxSize, moves);
            && w.handled <= BeforeQuit(w.queue.pushed)
            && (w.stopped ==> w.handled == BeforeQuit(w.queue.pushed) && Quit in w.queue.pushed)
  {
    AfterKeeps(maxSize, moves);
    HandledSoFar(After(maxSize, moves));
  }

  // ---- Left alone, the worker comes to the end of its tasks ----

  /** Nobody in the queue can go on, and the worker is neither holding a task nor about to ask
      for one. */
  ghost predicate AtRest<T>(w: Worker<T>) {
    && (forall t :: !CanGoOn(w.queue, t))
    && (PhaseOf(w.queue, WORKER).Outside? ==> w.stopped)
  }

  /** No new task is posted, and nobody wakes for no reason. */
  ghost predicate Settling<T>(m: Move<T>) {
    m.InQueue? ==> !m.action.Spurious? && (m.action.Enter? ==> m.action.t == WORKER)
  }

  /** A thread whose task is not in the queue yet. */
  ghost predicate Posting<T>(p: Phase<Task<T>>) {
    !p.Outside? && !p.Notifying? && p.call.Push?
  }

  ghost function Posters<T>(threads: map<Tid, Phase<Task<T>>>): set<Tid> {
    set t | t in threads && Posting(threads[t])
  }

  /** The tasks still to be dealt with: being posted, in the queue, or popped. */
  ghost function Ahead<T>(w: Worker<T>): nat
    requires Inv(w)
  {
    |Posters(w.queue.threads)| + |w.queue.items| + |w.queue.popped| - Dealt(w)
  }

  ghost predicate Asking<T>(w: Worker<T>) {
    PhaseOf(w.queue, WORKER).Outside? && !w.stopped && Dealt(w) == |w.queue.popped|
  }

  /** How far all have to go: each task ahead costs the worker one more call, and the call it
      is about to make has still to begin. */
  ghost function WorkLeft<T>(w: Worker<T>): nat
    requires Inv(w)
  {
    Work(w.queue.threads) + 8 * Ahead(w) + if Asking(w) then 7 else 0
  }

  lemma PosterMoves<T>(s: Queue<Task<T>>, t: Tid, to: Phase<Task<T>>)
    ensures |Posters(Moved(s, t, to).threads)| ==
              |Posters(s.threads)| - (if Posting(PhaseOf(s, t)) then 1 else 0) + (if Posting(to) then 1 else 0)
  {
    var before, after := Posters(s.threads), Posters(Moved(s, t, to).threads);
    assert (t in before) == Posting(PhaseOf(s, t));
    assert (t in after) == Posting(to);
    forall u | u != t ensures u in before <==> u in after {
    }
    SameRest(before, after, t);
  }

  /** In the queue a task only changes hands. */
  lemma AheadStays<T>(w: Worker<T>, a: Action<Task<T>>)
    requires Inv(w) && May(w, InQueue(a)) && Settling(InQueue(a))
    ensures Inv(Do(w, InQueue(a))) && Ahead(Do(w, InQueue(a))) == Ahead(w)
  {
    DoKeeps(w, InQueue(a));
    if a.Notify? {
      PosterMoves(w.queue, a.t, Outside);
      PosterMoves(Moved(w.queue, a.t, Outside), a.sleeper, Awake(w.queue.threads[a.sleeper].call));
    } else {
      PosterMoves(w.queue, a.t, PhaseOf(Step(w.queue, a), a.t));
    }
  }

  lemma SettlingUsesUp<T>(w: Worker<T>, m: Move<T>)
    requires Inv(w) && May(w, m) && Settling(m)
    ensures Inv(Do(w, m)) && WorkLeft(Do(w, m)) < WorkLeft(w)
  {
    DoKeeps(w, m);
    if m.InQueue? {
      var a := m.action;
      AheadStays(w, a);
      if a.Enter? {
        WorkMoves(w.queue, WORKER, Entering(a.call));
      } else {
        GoingOnUsesUp(w.queue, a);
        assert Asking(Do(w, m)) ==> Asking(w);
      }
    }
  }

  lemma PostedStays<T>(w: Worker<T>, m: Move<T>)
    requires May(w, m)
    ensures w.queue.pushed <= Do(w, m).queue.pushed
  {
  }

  ghost predicate AllSettling<T(!new)>(w: Worker<T>, moves: seq<Move<T>>)
    decreases |moves|
  {
    moves == [] || (May(w, moves[0]) && Settling(moves[0]) && AllSettling(Do(w, moves[0]), moves[1..]))
  }

  /** However all the threads are scheduled, without new posts and wakeups for no reason they
      can make only so many moves. */
  lemma {:induction false} SettlingEnds<T(!new)>(w: Worker<T>, moves: seq<Move<T>>)
    requires Inv(w) && AllSettling(w, moves)
    ensures |moves| <= WorkLeft(w)
    decreases |moves|
  {
    if moves != [] {
      SettlingUsesUp(w, moves[0]);
      SettlingEnds(Do(w, moves[0]), moves[1..]);
    }
  }

  lemma CanSettle<T>(w: Worker<T>) returns (m: Move<T>)
    requires Inv(w) && !AtRest(w)
    ensures May(w, m) && Settling(m)
  {
    if t :| CanGoOn(w.queue, t) {
      var a := GoingOnIsEnabled(w.queue, t);
      m := InQueue(a);
    } else if Asking(w) {
      m := InQueue(Enter(WORKER, Pop));
    } else {
      m := Deal;
    }
  }

  lemma RestIsReason<T>(w: Worker<T>)
    requires Inv(w) && AtRest(w)
    ensures w.stopped <==> Quit in w.queue.pushed
    ensures w.stopped ==> w.handled == BeforeQuit(w.queue.pushed)
    ensures !w.stopped ==> w.handled == w.queue.pushed
  {
    SafeQueue.AtRest(w.queue);
    HandledSoFar(w);
    if !w.stopped {
      assert Sleeps(w.queue, WORKER, true);
      assert w.queue.popped == w.queue.pushed;
      assert w.handled == w.queue.popped;
    }
  }

  /** And stop it does: at rest, a worker told to stop has stopped, and one not told has
      handled every task. */
  lemma StopsWhenTold<T(!new)>(maxSize: nat, moves: seq<Move<T>>)
    requires Possible(maxSize, moves) && AtRest(After(maxSize, moves))
    ensures var w := After(maxSize, moves);
            && (w.stopped <==> Quit in w.queue.pushed)
            && (!w.stopped ==> w.handled == w.queue.pushed)
  {
    AfterKeeps(maxSize, moves);
    RestIsReason(After(maxSize, moves));
  }

  lemma {:induction false} Settles<T(!new)>(w: Worker<T>) returns (moves: seq<Move<T>>, rest: Worker<T>)
    requires Inv(w)
    ensures AllSettling(w, moves) && Inv(rest) && AtRest(rest) && w.queue.pushed <= rest.queue.pushed
    decreases WorkLeft(w)
  {
    if AtRest(w) {
      moves, rest := [], w;
    } else {
      var m := CanSettle(w);
      SettlingUsesUp(w, m);
      PostedStays(w, m);
      var later: seq<Move<T>>;
      later, rest := Settles(Do(w, m));
      moves := [m] + later;
      assert moves[0] == m && moves[1..] == later;
    }
  }

  /** And rest is reached, from every state: some moves without new posts lead to it, and then
      the worker has handled the tasks before the first that says to stop, or all there are. */
  lemma WorksToTheEnd<T(!new)>(w: Worker<T>) returns (moves: seq<Move<T>>, rest: Worker<T>)
    requires Inv(w)
    ensures AllSettling(w, moves) && AtRest(rest) && w.queue.pushed <= rest.queue.pushed
    ensures rest.stopped <==> Quit in rest.queue.pushed
    ensures rest.handled == if rest.stopped then BeforeQuit(rest.queue.pushed) else rest.queue.pushed
  {
    moves, rest := Settles(w);
    RestIsReason(rest);
  }
}
