/** What every run of the render queue satisfies, for any number of workers and any interleaving. */
module RenderQueueLaws {
  import opened Common
  import opened RenderQueue

  /** states[0] is initial and each action leads from one state to the next. */
  ghost predicate IsRun(workers: nat, states: seq<State>, actions: seq<Action>) {
    && |states| == |actions| + 1
    && states[0] == Initial(workers)
    && (forall i :: 0 <= i < |actions| ==> Can(states[i], actions[i]) && states[i + 1] == Next(states[i], actions[i]))
  }

  lemma {:induction false} RunKeepsInv(workers: nat, states: seq<State>, actions: seq<Action>, i: nat)
    requires IsRun(workers, states, actions) && i < |states|
    ensures Inv(states[i])
  {
    if i == 0 {
      InvInitially(workers);
    } else {
      RunKeepsInv(workers, states, actions, i - 1);
      var before, a := states[i - 1], actions[i - 1];
      assert Can(before, a) && states[i - 1 + 1] == Next(before, a);
      StepKeepsInv(before, a);
    }
  }

  // ----- the queue and the requests -----

  /** In every reachable state head and tail are null together, the tail has no successor, no request is in it twice. */
  lemma QueueWellFormed(workers: nat, states: seq<State>, actions: seq<Action>, i: nat)
    requires IsRun(workers, states, actions) && i < |states|
    ensures var s := states[i];
            && (s.head.None? <==> s.tail.None?)
            && (s.head.None? <==> s.taken == |s.pushes|)
            && (s.tail.Some? ==> s.tail.value < |s.reqs| && s.reqs[s.tail.value].next == None)
            && forall t, u :: s.taken <= t < u < |s.pushes| ==> s.pushes[t].worker != s.pushes[u].worker
  {
    RunKeepsInv(workers, states, actions, i);
    var s := states[i];
    if s.taken < |s.pushes| {
      assert QueuedAt(s, |s.pushes| - 1);
    }
    forall t, u | s.taken <= t < u < |s.pushes|
      ensures s.pushes[t].worker != s.pushes[u].worker
    {
      assert QueuedAt(s, t) && QueuedAt(s, u);
    }
  }

  /** Requests other than the acting worker's own that a step reads or writes. */
  ghost function Touched(s: State, a: Action): set<nat> {
    match a
    case Link(_) => if s.tail.Some? then {s.tail.value} else {}
    case DaemonTest => if s.head.Some? then {s.head.value} else {}
    case _ =>
      if IsWorkerAction(a) then {}
      else match Current(s.daemon) case None => {} case Some(w) => {w}
  }

  ghost function WithRequest(s: State, x: nat, r: Request): State
    requires x < |s.reqs|
  {
    s.(reqs := s.reqs[x := r])
  }

  /** A step neither reads nor writes any other request: whatever stands there, the step does the same and leaves it. */
  lemma OthersUntouched(s: State, a: Action, x: nat, r: Request)
    requires Can(s, a) && x < |s.reqs| && x !in Touched(s, a) && (IsWorkerAction(a) ==> a.w != x)
    ensures Can(WithRequest(s, x, r), a)
    ensures x < |Next(s, a).reqs| && Next(WithRequest(s, x, r), a) == WithRequest(Next(s, a), x, r)
    ensures Next(s, a).reqs[x] == s.reqs[x]
  {
    if a.Link? {
      hide Linking;
      LinkingElsewhere(s, a.w, x, r);
    } else if IsWorkerAction(a) {
      WorkerElsewhere(s, a, x, r);
    } else {
      DaemonElsewhere(s, a, x, r);
    }
  }

  lemma WorkerElsewhere(s: State, a: Action, x: nat, r: Request)
    requires Can(s, a) && IsWorkerAction(a) && !a.Link? && x < |s.reqs| && a.w != x
    ensures Can(WithRequest(s, x, r), a)
    ensures x < |Next(s, a).reqs| && Next(WithRequest(s, x, r), a) == WithRequest(Next(s, a), x, r)
    ensures Next(s, a).reqs[x] == s.reqs[x]
  {
    if a.Call? {
      var n := Request(a.content, 0, None, false, None);
      assert s.reqs[x := r][a.w := n] == s.reqs[a.w := n][x := r];
    }
  }

  lemma DaemonElsewhere(s: State, a: Action, x: nat, r: Request)
    requires Can(s, a) && !IsWorkerAction(a) && x < |s.reqs| && x !in Touched(s, a)
    ensures Can(WithRequest(s, x, r), a)
    ensures x < |Next(s, a).reqs| && Next(WithRequest(s, x, r), a) == WithRequest(Next(s, a), x, r)
    ensures Next(s, a).reqs[x] == s.reqs[x]
  {
    if a.StoreResult? {
      var n := s.reqs[s.daemon.w].(result := s.daemon.text);
      assert s.reqs[x := r][s.daemon.w := n] == s.reqs[s.daemon.w := n][x := r];
    } else if a.StoreDone? {
      var n := s.reqs[s.daemon.w].(done := true);
      assert s.reqs[x := r][s.daemon.w := n] == s.reqs[s.daemon.w := n][x := r];
    }
  }

  lemma LinkingElsewhere(s: State, w: nat, x: nat, r: Request)
    requires Can(s, Link(w)) && x < |s.reqs| && x != w && (s.tail.Some? ==> s.tail.value != x)
    ensures WorkerCan(WithRequest(s, x, r), Link(w), w)
    ensures |Linking(s, w).reqs| == |s.reqs|
    ensures Linking(WithRequest(s, x, r), w) == WithRequest(Linking(s, w), x, r)
    ensures Linking(s, w).reqs[x] == s.reqs[x]
  {
    var one, two := Linking(WithRequest(s, x, r), w), Linking(s, w);
    assert one.reqs == two.reqs[x := r];
  }

  /** Neither the daemon nor another worker ever touches a request whose worker is not inside the call. */
  lemma OnlyLiveRequestsTouched(workers: nat, states: seq<State>, actions: seq<Action>, i: nat, w: nat)
    requires IsRun(workers, states, actions) && i < |actions| && w in Touched(states[i], actions[i])
    ensures var s := states[i]; w < |s.pcs| && s.pcs[w] != Idle && s.pcs[w] != Released
  {
    RunKeepsInv(workers, states, actions, i);
    var s := states[i];
    assert Can(s, actions[i]);
    if s.taken < |s.pushes| {
      assert QueuedAt(s, s.taken) && QueuedAt(s, |s.pushes| - 1);
    }
  }

  /** The k-th rendering is that of the k-th push, with the content its worker pushed. */
  lemma RendersInPushOrder(workers: nat, states: seq<State>, actions: seq<Action>, i: nat)
    requires IsRun(workers, states, actions) && i < |actions| && actions[i].Render?
    ensures var s, t, k := states[i], states[i + 1], |states[i].outputs|;
            && t.outputs == s.outputs + [actions[i].text] && t.pushes == s.pushes
            && k < |s.pushes| && Current(s.daemon) == Some(s.pushes[k].worker)
            && s.pushes[k].worker < |s.reqs| && s.reqs[s.pushes[k].worker].content == s.pushes[k].content
  {
    RunKeepsInv(workers, states, actions, i);
    var s := states[i];
    assert Can(s, actions[i]) && states[i + 1] == Next(s, actions[i]);
    assert WorkerOk(s, s.daemon.w);
  }

  lemma HistoryGrowsStep(s: State, a: Action)
    requires Can(s, a)
    ensures s.pushes <= Next(s, a).pushes && s.outputs <= Next(s, a).outputs && s.answers <= Next(s, a).answers
  {
  }

  /** The record of a run only grows: nothing pushed, rendered or answered is ever revised. */
  lemma {:induction false} HistoryGrows(workers: nat, states: seq<State>, actions: seq<Action>, i: nat, j: nat)
    requires IsRun(workers, states, actions) && i <= j < |states|
    ensures states[i].pushes <= states[j].pushes && states[i].outputs <= states[j].outputs
    ensures states[i].answers <= states[j].answers
    decreases j
  {
    hide Can, Next, Initial;
    if i < j {
      HistoryGrows(workers, states, actions, i, j - 1);
      assert Can(states[j - 1], actions[j - 1]) && states[j - 1 + 1] == Next(states[j - 1], actions[j - 1]);
      HistoryGrowsStep(states[j - 1], actions[j - 1]);
    }
  }

  /** Whatever a worker was ever answered is the rendering of its own push, and no rendering is handed out twice. */
  lemma AnswersAreOwnRenderings(workers: nat, states: seq<State>, actions: seq<Action>, i: nat, k: nat)
    requires IsRun(workers, states, actions) && i < |states| && k < |states[i].answers|
    ensures var s, a := states[i], states[i].answers[k];
            && |s.outputs| <= |s.pushes| && a.ticket < |s.outputs|
            && s.pushes[a.ticket].worker == a.worker && a.text == s.outputs[a.ticket]
            && forall j :: 0 <= j < |s.answers| && j != k ==> s.answers[j].ticket != a.ticket
  {
    RunKeepsInv(workers, states, actions, i);
    var s := states[i];
    assert AnswerOk(s, s.answers[k]);
    forall j | 0 <= j < |s.answers| && j != k
      ensures s.answers[j].ticket != s.answers[k].ticket
    {
      if j < k {
        assert s.answers[j].ticket != s.answers[k].ticket;
      }
    }
  }

  /** A worker that returns is answered with the rendering of the content it pushed itself. */
  lemma ReturnsOwnResult(workers: nat, states: seq<State>, actions: seq<Action>, i: nat)
    requires IsRun(workers, states, actions) && i < |actions| && actions[i].Return?
    ensures var s, t, w := states[i], states[i + 1], actions[i].w;
            w < |s.reqs| && var r := s.reqs[w];
            && t.answers == s.answers + [Answer(w, r.ticket, r.result)]
            && r.ticket < |s.outputs| <= |s.pushes|
            && s.pushes[r.ticket] == Push(w, r.content) && r.result == s.outputs[r.ticket]
  {
    RunKeepsInv(workers, states, actions, i);
    var s := states[i];
    assert Can(s, actions[i]) && states[i + 1] == Next(s, actions[i]);
    assert WorkerOk(s, actions[i].w);
  }

  /** A call of worker w: it starts at step i, and step k is the first after it at which the worker returns. */
  ghost predicate IsCall(actions: seq<Action>, i: nat, k: nat, w: nat, content: string) {
    && i < k < |actions| && actions[i] == Call(w, content) && actions[k] == Return(w)
    && forall m :: i < m < k ==> actions[m] != Return(w)
  }

  /** Inside the call the request keeps its content, and gets a place in the order that no earlier push has. */
  ghost predicate CallAt(s: State, w: nat, content: string, pushed: nat) {
    && w < |s.pcs| && w < |s.reqs| && s.pcs[w] != Idle && s.reqs[w].content == content && pushed <= |s.pushes|
    && (Ticketed(s.pcs[w]) ==> pushed <= s.reqs[w].ticket)
  }

  lemma CallStep(s: State, a: Action, w: nat, content: string, pushed: nat)
    requires Inv(s) && Can(s, a) && CallAt(s, w, content, pushed) && a != Return(w)
    ensures CallAt(Next(s, a), w, content, pushed)
  {
    hide LocksHeld, QueueLinked, DaemonServes, WakeupsPending, AnswersRight, PushesAccounted, WorkerOk;
  }

  lemma {:induction false} CallGoesOn(workers: nat, states: seq<State>, actions: seq<Action>, i: nat, k: nat, w: nat, content: string)
    requires IsRun(workers, states, actions) && i < k <= |actions| && actions[i] == Call(w, content)
    requires forall m :: i < m < k ==> actions[m] != Return(w)
    ensures CallAt(states[k], w, content, |states[i].pushes|)
    decreases k
  {
    hide CallAt, Can, Next, Inv, Initial;
    assert Can(states[k - 1], actions[k - 1]) && states[k - 1 + 1] == Next(states[k - 1], actions[k - 1]);
    RunKeepsInv(workers, states, actions, k - 1);
    if k == i + 1 {
      CallBegins(states[i], w, content);
    } else {
      CallGoesOn(workers, states, actions, i, k - 1, w, content);
      CallStep(states[k - 1], actions[k - 1], w, content, |states[i].pushes|);
    }
  }

  lemma CallBegins(s: State, w: nat, content: string)
    requires Inv(s) && Can(s, Call(w, content))
    ensures CallAt(Next(s, Call(w, content)), w, content, |s.pushes|)
  {
    hide LocksHeld, QueueLinked, DaemonServes, WakeupsPending, AnswersRight, PushesAccounted, WorkerOk;
  }

  /** A call is answered with the rendering of the very content it was made with, pushed after it began. */
  lemma CallIsAnswered(workers: nat, states: seq<State>, actions: seq<Action>, i: nat, k: nat, w: nat, content: string)
    returns (ticket: nat)
    requires IsRun(workers, states, actions) && IsCall(actions, i, k, w, content)
    ensures |states[i].pushes| <= ticket < |states[k].outputs| <= |states[k].pushes|
    ensures states[k].pushes[ticket] == Push(w, content)
    ensures states[k + 1].answers == states[k].answers + [Answer(w, ticket, states[k].outputs[ticket])]
  {
    CallGoesOn(workers, states, actions, i, k, w, content);
    ReturnsOwnResult(workers, states, actions, k);
    assert Can(states[k], actions[k]);
    ticket := states[k].reqs[w].ticket;
  }

  /** With nobody inside a critical section, no sleeper has been forgotten. */
  lemma NoLostWakeup(workers: nat, states: seq<State>, actions: seq<Action>, i: nat, w: nat)
    requires IsRun(workers, states, actions) && i < |states| && w < |states[i].pcs|
    ensures var s := states[i];
            && |s.pcs| == |s.reqs| == |s.reqLocks|
            && (s.daemon == Sleeping(false) && s.queueLock == Free ==> s.head == None)
            && (s.pcs[w] == Asleep(false) && s.reqLocks[w] == Free ==> !s.reqs[w].done)
  {
    RunKeepsInv(workers, states, actions, i);
    assert LocksOf(states[i], w);
  }

  // ----- progress -----

  /** Steps other than a new call and a wake-up without a signal. */
  predicate Progresses(a: Action) {
    !a.Call? && !a.SpuriousWorker? && !a.SpuriousDaemon?
  }

  /** A worker inside its critical section on the queue can always go on. */
  lemma QueueHolderCanStep(s: State) returns (a: Action)
    requires Inv(s) && s.queueLock.Worker?
    ensures Progresses(a) && Can(s, a)
  {
    var w := s.queueLock.w;
    assert LocksOf(s, w);
    match s.pcs[w]
    case QueueLocked =>
      if s.tail.Some? { TailIsWaiting(s); }
      a := Link(w);
    case Linked => a := SignalDaemon(w);
    case _ => a := UnlockQueue(w);
  }

  lemma BusyDaemonCanStep(s: State) returns (a: Action)
    requires Inv(s) && Current(s.daemon).Some?
    ensures Progresses(a) && Can(s, a)
  {
    hide QueueLinked, WorkerOk, WakeupsPending, AnswersRight, PushesAccounted;
    var w := s.daemon.w;
    assert LocksOf(s, w);
    match s.daemon
    case Popped(_) => a := DaemonUnlock;
    case Rendering(_) => a := Render(None);
    case Rendered(_, _) =>
      if s.reqLocks[w] == Free { a := DaemonLockRequest; }
      else if s.pcs[w] == RequestLocked { a := TestDone(w); }
      else { a := UnlockRequest(w); }
    case Locked(_, _) => a := StoreResult;
    case ResultStored(_) => a := StoreDone;
    case DoneStored(_) => a := SignalWorker;
    case _ => a := DaemonUnlockRequest;
  }

  /** While the daemon sleeps with an empty queue, a worker inside the call can always go on. */
  lemma WorkerCanStep(s: State, w: nat) returns (a: Action)
    requires Inv(s) && w < |s.pcs| && s.pcs[w] != Idle
    requires s.daemon == Sleeping(false) && s.queueLock == Free
    ensures Progresses(a) && Can(s, a)
  {
    assert LocksOf(s, w) && WorkerOk(s, w);
    match s.pcs[w]
    case Built => a := LockQueue(w);
    case Pushed => a := LockRequest(w);
    case RequestLocked => a := TestDone(w);
    case Asleep(_) => a := WakeWorker(w);
    case SawDone => a := UnlockRequest(w);
    case _ => a := Return(w);
  }

  lemma SomeoneCanStep(s: State, w: nat) returns (a: Action)
    requires Inv(s) && w < |s.pcs| && s.pcs[w] != Idle
    ensures Progresses(a) && Can(s, a)
  {
    if Current(s.daemon).Some? {
      a := BusyDaemonCanStep(s);
    } else if s.queueLock.Worker? {
      a := QueueHolderCanStep(s);
    } else if s.daemon == Holding {
      if s.taken < |s.pushes| {
        assert QueuedAt(s, s.taken);
      }
      a := DaemonTest;
    } else if s.daemon == Top {
      a := DaemonLock;
    } else if s.daemon == Sleeping(true) {
      a := DaemonWake;
    } else {
      a := WorkerCanStep(s, w);
    }
  }

  /** No deadlock: while any worker is inside the call, some real step is possible. */
  lemma NoDeadlock(workers: nat, states: seq<State>, actions: seq<Action>, i: nat, w: nat) returns (a: Action)
    requires IsRun(workers, states, actions) && i < |states| && w < |states[i].pcs| && states[i].pcs[w] != Idle
    ensures Progresses(a) && Can(states[i], a)
  {
    RunKeepsInv(workers, states, actions, i);
    a := SomeoneCanStep(states[i], w);
  }

  // ----- every run of real steps ends -----

  function WorkerRank(pc: WorkerPc, done: bool): nat {
    match pc
    case Idle => 0
    case Released => 1
    case SawDone => 2
    case RequestLocked => if done then 3 else 6
    case Asleep(signalled) => if !signalled then 5 else if done then 4 else 7
    case Pushed => 8
    case SignalSent => 9
    case Linked => 14
    case QueueLocked => 27
    case Built => 28
  }

  function DaemonRank(d: DaemonPc): nat {
    match d
    case Sleeping(signalled) => if signalled then 4 else 0
    case Holding => 3
    case Top => 4
    case Notified(_) => 5
    case DoneStored(_) => 6
    case ResultStored(_) => 7
    case Locked(_, _) => 8
    case Rendered(_, _) => 9
    case Rendering(_) => 10
    case Popped(_) => 11
  }

  ghost function Ranks(s: State): (r: seq<nat>)
    requires |s.pcs| == |s.reqs|
    ensures |r| == |s.pcs|
    ensures forall w :: 0 <= w < |r| ==> r[w] == WorkerRank(s.pcs[w], s.reqs[w].done)
  {
    seq(|s.pcs|, w requires 0 <= w < |s.pcs| => WorkerRank(s.pcs[w], s.reqs[w].done))
  }

  ghost function Total(r: seq<nat>): nat {
    if r == [] then 0 else r[0] + Total(r[1..])
  }

  lemma {:induction false} TotalUpdate(r: seq<nat>, i: nat, v: nat)
    requires i < |r|
    ensures Total(r[i := v]) + r[i] == Total(r) + v
  {
    if i == 0 {
      assert r[i := v][1..] == r[1..];
    } else {
      TotalUpdate(r[1..], i - 1, v);
      assert r[i := v][1..] == r[1..][i - 1 := v];
    }
  }

  /** How many real steps can follow at most. */
  ghost function Remaining(s: State): nat
    requires Inv(s)
  {
    Total(Ranks(s)) + 12 * (|s.pushes| - s.taken) + DaemonRank(s.daemon)
  }

  /** The one worker whose rank a step changes, if any. */
  function Mover(s: State, a: Action): Option<nat> {
    if IsWorkerAction(a) then Some(a.w)
    else if a.StoreDone? || a.SignalWorker? then Current(s.daemon)
    else None
  }

  /** The rank of a worker the step does not move. */
  lemma RankStays(s: State, a: Action, w: nat)
    requires Inv(s) && Can(s, a) && Progresses(a) && w < |s.pcs| && Mover(s, a) != Some(w)
    ensures |Next(s, a).reqs| == |s.pcs|
    ensures Next(s, a).pcs[w] == s.pcs[w] && Next(s, a).reqs[w].done == s.reqs[w].done
  {
    hide LocksHeld, QueueLinked, DaemonServes, WakeupsPending, AnswersRight, PushesAccounted, WorkerOk;
  }

  lemma MoverIsWorker(s: State, a: Action)
    requires Inv(s) && Can(s, a)
    ensures |Next(s, a).reqs| == |s.pcs| && (Mover(s, a).Some? ==> Mover(s, a).value < |s.pcs|)
  {
    hide LocksHeld, QueueLinked, DaemonServes, WakeupsPending, AnswersRight, PushesAccounted, WorkerOk;
  }

  lemma RanksAfter(s: State, a: Action)
    requires Inv(s) && Can(s, a) && Progresses(a)
    ensures |Next(s, a).pcs| == |Next(s, a).reqs| == |s.pcs|
    ensures Mover(s, a).None? ==> Ranks(Next(s, a)) == Ranks(s)
    ensures Mover(s, a).Some? ==>
              var w, t := Mover(s, a).value, Next(s, a);
              w < |s.pcs| && Ranks(t) == Ranks(s)[w := WorkerRank(t.pcs[w], t.reqs[w].done)]
  {
    hide Inv, Can, Next, WorkerRank, Mover, Progresses;
    RanksOf(s);
    MoverIsWorker(s, a);
    forall w | 0 <= w < |s.pcs| && Mover(s, a) != Some(w)
      ensures Ranks(Next(s, a))[w] == Ranks(s)[w]
    {
      RankStays(s, a, w);
    }
  }

  lemma RanksOf(s: State)
    requires Inv(s)
    ensures |s.reqs| == |s.pcs|
  {
  }

  /** What the worker that a step moves pays for it. */
  ghost function Paid(s: State, a: Action): int
    requires Inv(s) && Can(s, a)
  {
    match Mover(s, a)
    case None => 0
    case Some(w) =>
      if w < |Next(s, a).reqs| && w < |s.pcs|
      then WorkerRank(s.pcs[w], s.reqs[w].done) - WorkerRank(Next(s, a).pcs[w], Next(s, a).reqs[w].done) else 0
  }

  ghost function Owed(s: State): int {
    12 * (|s.pushes| - s.taken) + DaemonRank(s.daemon)
  }

  lemma WorkerStepPays(s: State, a: Action)
    requires Inv(s) && IsWorkerAction(a) && Can(s, a) && Progresses(a)
    ensures Owed(Next(s, a)) < Owed(s) + Paid(s, a)
  {
    hide LocksHeld, QueueLinked, DaemonServes, WakeupsPending, AnswersRight, PushesAccounted;
    assert WorkerOk(s, a.w);
  }

  lemma DaemonStepPays(s: State, a: Action)
    requires Inv(s) && !IsWorkerAction(a) && Can(s, a) && Progresses(a)
    ensures Owed(Next(s, a)) < Owed(s) + Paid(s, a)
  {
    hide QueueLinked, WakeupsPending, AnswersRight, PushesAccounted, WorkerOk;
    if Current(s.daemon).Some? {
      assert LocksOf(s, s.daemon.w);
    }
  }

  /** What a step costs the daemon and the queue is less than what the moving worker pays. */
  lemma StepPays(s: State, a: Action)
    requires Inv(s) && Can(s, a) && Progresses(a)
    ensures Owed(Next(s, a)) < Owed(s) + Paid(s, a)
  {
    hide Inv, Can, Next;
    if IsWorkerAction(a) {
      WorkerStepPays(s, a);
    } else {
      DaemonStepPays(s, a);
    }
  }

  lemma RealStepDecreases(s: State, a: Action)
    requires Inv(s) && Can(s, a) && Progresses(a)
    ensures Inv(Next(s, a)) && Remaining(Next(s, a)) < Remaining(s)
  {
    hide LocksHeld, QueueLinked, DaemonServes, WakeupsPending, AnswersRight, PushesAccounted, WorkerOk;
    hide Next, Can, WorkerRank, DaemonRank;
    StepKeepsInv(s, a);
    RanksAfter(s, a);
    StepPays(s, a);
    match Mover(s, a)
    case None =>
    case Some(w) => TotalUpdate(Ranks(s), w, WorkerRank(Next(s, a).pcs[w], Next(s, a).reqs[w].done));
  }

  /** Without new calls and spurious wake-ups a run from any reachable state has at most Remaining steps. */
  lemma {:induction false} RealRunsAreBounded(states: seq<State>, actions: seq<Action>)
    requires |states| == |actions| + 1 && Inv(states[0])
    requires forall i :: 0 <= i < |actions| ==>
               Can(states[i], actions[i]) && Progresses(actions[i]) && states[i + 1] == Next(states[i], actions[i])
    ensures |actions| <= Remaining(states[0])
  {
    if actions != [] {
      hide Inv, Next, Can, Remaining;
      assert states[0 + 1] == Next(states[0], actions[0]);
      RealStepDecreases(states[0], actions[0]);
      forall i | 0 <= i < |actions[1..]|
        ensures Can(states[1..][i], actions[1..][i]) && Progresses(actions[1..][i])
        ensures states[1..][i + 1] == Next(states[1..][i], actions[1..][i])
      {
        var k := i + 1;
        assert states[k + 1] == Next(states[k], actions[k]);
      }
      RealRunsAreBounded(states[1..], actions[1..]);
    }
  }

  /** So once a run makes only real steps, it ends within the work that was left. */
  lemma RealTailsAreBounded(workers: nat, states: seq<State>, actions: seq<Action>, i: nat)
    requires IsRun(workers, states, actions) && i <= |actions|
    requires forall j :: i <= j < |actions| ==> Progresses(actions[j])
    ensures Inv(states[i]) && |actions| - i <= Remaining(states[i])
  {
    hide Inv, Next, Can, Remaining;
    RunKeepsInv(workers, states, actions, i);
    forall j | 0 <= j < |actions[i..]|
      ensures Can(states[i..][j], actions[i..][j]) && Progresses(actions[i..][j])
      ensures states[i..][j + 1] == Next(states[i..][j], actions[i..][j])
    {
      var k := i + j;
      assert states[k + 1] == Next(states[k], actions[k]);
    }
    RealRunsAreBounded(states[i..], actions[i..]);
  }

  /** When no real step is left, every push has been rendered and answered exactly once. */
  lemma QuietMeansAllAnswered(workers: nat, states: seq<State>, actions: seq<Action>, i: nat, t: nat)
    requires IsRun(workers, states, actions) && i < |states| && t < |states[i].pushes|
    requires forall a :: Progresses(a) ==> !Can(states[i], a)
    ensures Answered(states[i], t) && t < |states[i].outputs|
  {
    RunKeepsInv(workers, states, actions, i);
    var s := states[i];
    assert Accounted(s, t);
    if !Answered(s, t) {
      var w := s.pushes[t].worker;
      var a := SomeoneCanStep(s, w);
    }
    var k :| 0 <= k < |s.answers| && s.answers[k].ticket == t;
    assert AnswerOk(s, s.answers[k]);
  }

  /** The state after these steps in a row, when each of them is possible. */
  ghost predicate Leads(s: State, actions: seq<Action>, t: State)
    decreases |actions|
  {
    if actions == [] then s == t else Can(s, actions[0]) && Leads(Next(s, actions[0]), actions[1..], t)
  }

  /** A worker may wake up for no reason; its request not done, it tests again and sleeps on, and nothing has changed. */
  lemma SpuriousWorkerSleepsOn(s: State, w: nat)
    requires Sizes(s) && w < |s.pcs| && s.pcs[w] == Asleep(false) && s.reqLocks[w] == Free && !s.reqs[w].done
    ensures Leads(s, [SpuriousWorker(w), WakeWorker(w), TestDone(w)], s)
  {
    var a := Next(s, SpuriousWorker(w));
    var b := Next(a, WakeWorker(w));
    assert Next(b, TestDone(w)) == s by {
      assert b.pcs[w := Asleep(false)] == s.pcs && b.reqLocks[w := Free] == s.reqLocks;
    }
    assert Leads(s, [], s);
    assert [TestDone(w)][1..] == [];
    assert Leads(b, [TestDone(w)], s);
    assert [WakeWorker(w), TestDone(w)][1..] == [TestDone(w)];
    assert Leads(a, [WakeWorker(w), TestDone(w)], s);
    assert [SpuriousWorker(w), WakeWorker(w), TestDone(w)][1..] == [WakeWorker(w), TestDone(w)];
  }

  /** So may the daemon, when its queue is empty. */
  lemma SpuriousDaemonSleepsOn(s: State)
    requires s.daemon == Sleeping(false) && s.queueLock == Free && s.head == None
    ensures Leads(s, [SpuriousDaemon, DaemonWake, DaemonTest], s)
  {
    var a := Next(s, SpuriousDaemon);
    var b := Next(a, DaemonWake);
    assert Next(b, DaemonTest) == s;
    assert Leads(s, [], s);
    assert [DaemonTest][1..] == [];
    assert Leads(b, [DaemonTest], s);
    assert [DaemonWake, DaemonTest][1..] == [DaemonTest];
    assert Leads(a, [DaemonWake, DaemonTest], s);
    assert [SpuriousDaemon, DaemonWake, DaemonTest][1..] == [DaemonWake, DaemonTest];
  }
}
