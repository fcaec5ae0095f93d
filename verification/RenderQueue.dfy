/**
 * The single-consumer render queue: any number of workers hand requests to one daemon that owns the Ruby VM.
 * A state machine over the individual lock, test, wait, signal and unlock steps of both sides; a worker's request lives
 * on its stack, so it exists exactly while the worker is inside the call.
 */
module RenderQueue {
  import opened Common

  /** Where a worker is inside the render call. `Asleep` waits on the request's condition variable. */
  datatype WorkerPc =
    | Idle
    | Built
    | QueueLocked
    | Linked
    | SignalSent
    | Pushed
    | RequestLocked
    | Asleep(signalled: bool)
    | SawDone
    | Released

  /** Where the daemon is in its loop, with the request it has taken. */
  datatype DaemonPc =
    | Top
    | Holding
    | Sleeping(signalled: bool)
    | Popped(w: nat)
    | Rendering(w: nat)
    | Rendered(w: nat, text: Option<string>)
    | Locked(w: nat, text: Option<string>)
    | ResultStored(w: nat)
    | DoneStored(w: nat)
    | Notified(w: nat)

  /** `ticket` is the request's place in the order of pushes. */
  datatype Request = Request(content: string, ticket: nat, result: Option<string>, done: bool, next: Option<nat>)

  datatype Owner = Free | Daemon | Worker(w: nat)

  datatype Push = Push(worker: nat, content: string)
  datatype Answer = Answer(worker: nat, ticket: nat, text: Option<string>)

  /**
   * `pushes`, `outputs` and `answers` record the history: every push in order, what the daemon rendered for the first
   * pushes, and every return to a worker. The first `taken` pushes have left the queue.
   */
  datatype State = State(
    pcs: seq<WorkerPc>,
    reqs: seq<Request>,
    daemon: DaemonPc,
    head: Option<nat>,
    tail: Option<nat>,
    queueLock: Owner,
    reqLocks: seq<Owner>,
    pushes: seq<Push>,
    taken: nat,
    outputs: seq<Option<string>>,
    answers: seq<Answer>)

  datatype Action =
    | Call(w: nat, content: string)
    | LockQueue(w: nat)
    | Link(w: nat)
    | SignalDaemon(w: nat)
    | UnlockQueue(w: nat)
    | LockRequest(w: nat)
    | TestDone(w: nat)
    | WakeWorker(w: nat)
    | UnlockRequest(w: nat)
    | Return(w: nat)
    | DaemonLock
    | DaemonTest
    | DaemonWake
    | DaemonUnlock
    | Render(text: Option<string>)
    | DaemonLockRequest
    | StoreResult
    | StoreDone
    | SignalWorker
    | DaemonUnlockRequest
    | SpuriousWorker(w: nat)
    | SpuriousDaemon

  const BLANK := Request("", 0, None, false, None)

  function Initial(workers: nat): State {
    State(seq(workers, _ => Idle), seq(workers, _ => BLANK), Top, None, None, Free, seq(workers, _ => Free), [], 0, [], [])
  }

  // ----- steps -----

  predicate WorkerCan(s: State, a: Action, w: nat) {
    && w < |s.pcs| == |s.reqs| == |s.reqLocks|
    && match a
       case Call(_, _) => s.pcs[w] == Idle
       case LockQueue(_) => s.pcs[w] == Built && s.queueLock == Free
       case Link(_) => s.pcs[w] == QueueLocked && (s.tail.Some? ==> s.tail.value < |s.reqs|)
       case SignalDaemon(_) => s.pcs[w] == Linked
       case UnlockQueue(_) => s.pcs[w] == SignalSent
       case LockRequest(_) => s.pcs[w] == Pushed && s.reqLocks[w] == Free
       case TestDone(_) => s.pcs[w] == RequestLocked
       case WakeWorker(_) => s.pcs[w] == Asleep(true) && s.reqLocks[w] == Free
       case SpuriousWorker(_) => s.pcs[w] == Asleep(false)
       case UnlockRequest(_) => s.pcs[w] == SawDone
       case Return(_) => s.pcs[w] == Released
       case _ => false
  }

  predicate DaemonCan(s: State, a: Action) {
    match a
    case DaemonLock => s.daemon == Top && s.queueLock == Free
    case DaemonTest => s.daemon == Holding && (s.head.Some? ==> s.head.value < |s.reqs|)
    case DaemonWake => s.daemon == Sleeping(true) && s.queueLock == Free
    case SpuriousDaemon => s.daemon == Sleeping(false)
    case DaemonUnlock => s.daemon.Popped?
    case Render(_) => s.daemon.Rendering?
    case DaemonLockRequest => s.daemon.Rendered? && s.daemon.w < |s.reqLocks| && s.reqLocks[s.daemon.w] == Free
    case StoreResult => s.daemon.Locked? && s.daemon.w < |s.reqs|
    case StoreDone => s.daemon.ResultStored? && s.daemon.w < |s.reqs|
    case SignalWorker => s.daemon.DoneStored? && s.daemon.w < |s.pcs|
    case DaemonUnlockRequest => s.daemon.Notified? && s.daemon.w < |s.reqLocks|
    case _ => false
  }

  predicate IsWorkerAction(a: Action) {
    a.Call? || a.LockQueue? || a.Link? || a.SignalDaemon? || a.UnlockQueue? || a.LockRequest? || a.TestDone?
    || a.WakeWorker? || a.SpuriousWorker? || a.UnlockRequest? || a.Return?
  }

  predicate Can(s: State, a: Action) {
    if IsWorkerAction(a) then WorkerCan(s, a, a.w) else DaemonCan(s, a)
  }

  /** Linking behind the old tail, or as the first request. */
  function Linking(s: State, w: nat): State
    requires WorkerCan(s, Link(w), w)
  {
    var reqs := if s.tail.Some? then s.reqs[s.tail.value := s.reqs[s.tail.value].(next := Some(w))] else s.reqs;
    s.(pcs := s.pcs[w := Linked],
       reqs := reqs[w := reqs[w].(ticket := |s.pushes|)],
       head := if s.tail.Some? then s.head else Some(w),
       tail := Some(w),
       pushes := s.pushes + [Push(w, s.reqs[w].content)])
  }

  function WorkerNext(s: State, a: Action, w: nat): State
    requires WorkerCan(s, a, w)
  {
    match a
    case Call(_, content) =>
      s.(pcs := s.pcs[w := Built], reqs := s.reqs[w := Request(content, 0, None, false, None)])
    case LockQueue(_) => s.(pcs := s.pcs[w := QueueLocked], queueLock := Worker(w))
    case Link(_) => Linking(s, w)
    case SignalDaemon(_) =>
      s.(pcs := s.pcs[w := SignalSent], daemon := if s.daemon.Sleeping? then Sleeping(true) else s.daemon)
    case UnlockQueue(_) => s.(pcs := s.pcs[w := Pushed], queueLock := Free)
    case LockRequest(_) => s.(pcs := s.pcs[w := RequestLocked], reqLocks := s.reqLocks[w := Worker(w)])
    case TestDone(_) =>
      if s.reqs[w].done then s.(pcs := s.pcs[w := SawDone])
      else s.(pcs := s.pcs[w := Asleep(false)], reqLocks := s.reqLocks[w := Free])
    case WakeWorker(_) => s.(pcs := s.pcs[w := RequestLocked], reqLocks := s.reqLocks[w := Worker(w)])
    case SpuriousWorker(_) => s.(pcs := s.pcs[w := Asleep(true)])
    case UnlockRequest(_) => s.(pcs := s.pcs[w := Released], reqLocks := s.reqLocks[w := Free])
    case Return(_) =>
      s.(pcs := s.pcs[w := Idle], answers := s.answers + [Answer(w, s.reqs[w].ticket, s.reqs[w].result)])
  }

  function DaemonNext(s: State, a: Action): State
    requires DaemonCan(s, a)
  {
    match a
    case DaemonLock => s.(daemon := Holding, queueLock := Daemon)
    case DaemonTest =>
      if s.head.None? then s.(daemon := Sleeping(false), queueLock := Free)
      else
        var w := s.head.value;
        var next := s.reqs[w].next;
        s.(daemon := Popped(w), head := next, tail := if next.None? then None else s.tail, taken := s.taken + 1)
    case DaemonWake => s.(daemon := Holding, queueLock := Daemon)
    case SpuriousDaemon => s.(daemon := Sleeping(true))
    case DaemonUnlock => s.(daemon := Rendering(s.daemon.w), queueLock := Free)
    case Render(text) => s.(daemon := Rendered(s.daemon.w, text), outputs := s.outputs + [text])
    case DaemonLockRequest =>
      s.(daemon := Locked(s.daemon.w, s.daemon.text), reqLocks := s.reqLocks[s.daemon.w := Daemon])
    case StoreResult =>
      s.(daemon := ResultStored(s.daemon.w), reqs := s.reqs[s.daemon.w := s.reqs[s.daemon.w].(result := s.daemon.text)])
    case StoreDone =>
      s.(daemon := DoneStored(s.daemon.w), reqs := s.reqs[s.daemon.w := s.reqs[s.daemon.w].(done := true)])
    case SignalWorker =>
      s.(daemon := Notified(s.daemon.w),
         pcs := if s.pcs[s.daemon.w].Asleep? then s.pcs[s.daemon.w := Asleep(true)] else s.pcs)
    case DaemonUnlockRequest => s.(daemon := Top, reqLocks := s.reqLocks[s.daemon.w := Free])
  }

  function Next(s: State, a: Action): (t: State)
    requires Can(s, a)
    ensures |t.pcs| == |s.pcs|
  {
    if IsWorkerAction(a) then WorkerNext(s, a, a.w) else DaemonNext(s, a)
  }

  // ----- invariant -----

  /** The worker's request has been linked and it has not seen its answer yet. */
  predicate Waiting(pc: WorkerPc) {
    pc == Linked || pc == SignalSent || pc == Pushed || pc == RequestLocked || pc.Asleep?
  }

  predicate Ticketed(pc: WorkerPc) {
    Waiting(pc) || pc == SawDone || pc == Released
  }

  predicate HoldsQueue(pc: WorkerPc) {
    pc == QueueLocked || pc == Linked || pc == SignalSent
  }

  predicate HoldsRequest(pc: WorkerPc) {
    pc == RequestLocked || pc == SawDone
  }

  /** The request the daemon is working on. */
  function Current(d: DaemonPc): Option<nat> {
    if d.Top? || d.Holding? || d.Sleeping? then None else Some(d.w)
  }

  predicate DaemonHoldsRequest(d: DaemonPc) {
    d.Locked? || d.ResultStored? || d.DoneStored? || d.Notified?
  }

  ghost predicate Sizes(s: State) {
    && |s.pcs| == |s.reqs| == |s.reqLocks|
    && s.taken <= |s.pushes|
    && |s.outputs| + (if s.daemon.Popped? || s.daemon.Rendering? then 1 else 0) == s.taken
    && (Current(s.daemon).Some? ==> s.daemon.w < |s.pcs| && s.taken > 0)
    && (s.queueLock.Worker? ==> s.queueLock.w < |s.pcs|)
  }

  ghost predicate LocksHeld(s: State)
    requires Sizes(s)
  {
    && (s.queueLock == Daemon <==> s.daemon.Holding? || s.daemon.Popped?)
    && (forall w :: 0 <= w < |s.pcs| ==> LocksOf(s, w))
  }

  ghost predicate LocksOf(s: State, w: nat)
    requires Sizes(s) && w < |s.pcs|
  {
    && (s.queueLock == Worker(w) <==> HoldsQueue(s.pcs[w]))
    && (s.reqLocks[w] == Worker(w) <==> HoldsRequest(s.pcs[w]))
    && (s.reqLocks[w] == Daemon <==> DaemonHoldsRequest(s.daemon) && s.daemon.w == w)
    && (s.reqLocks[w] == Free || s.reqLocks[w] == Daemon || s.reqLocks[w] == Worker(w))
  }

  /** The pushes not taken yet are exactly the linked list from head to tail. */
  ghost predicate QueueLinked(s: State)
    requires Sizes(s)
  {
    && s.head == (if s.taken < |s.pushes| then Some(s.pushes[s.taken].worker) else None)
    && s.tail == (if s.taken < |s.pushes| then Some(s.pushes[|s.pushes| - 1].worker) else None)
    && (forall t :: s.taken <= t < |s.pushes| ==> QueuedAt(s, t))
  }

  ghost predicate QueuedAt(s: State, t: nat)
    requires Sizes(s) && t < |s.pushes|
  {
    var w := s.pushes[t].worker;
    && w < |s.pcs| && Waiting(s.pcs[w])
    && s.reqs[w].ticket == t && !s.reqs[w].done
    && s.reqs[w].next == if t + 1 < |s.pushes| then Some(s.pushes[t + 1].worker) else None
  }

  /** What the daemon knows about the request it has taken. */
  ghost predicate DaemonServes(s: State)
    requires Sizes(s)
  {
    Current(s.daemon).Some? ==>
      var w := s.daemon.w;
      && s.reqs[w].ticket == s.taken - 1 && s.pushes[s.taken - 1].worker == w
      && (s.pcs[w] == Pushed || s.pcs[w] == RequestLocked || s.pcs[w].Asleep?)
      && (s.reqs[w].done <==> s.daemon.DoneStored? || s.daemon.Notified?)
      && (s.daemon.Rendered? || s.daemon.Locked? ==> s.daemon.text == s.outputs[s.taken - 1])
      && (s.daemon.ResultStored? ==> s.reqs[w].result == s.outputs[s.taken - 1])
  }

  ghost predicate WorkerOk(s: State, w: nat)
    requires Sizes(s) && w < |s.pcs|
  {
    var pc, r := s.pcs[w], s.reqs[w];
    && (pc == SawDone || pc == Released ==> r.done)
    && (pc == Built || pc == QueueLocked ==> !r.done && r.next == None)
    && (Ticketed(pc) ==> r.ticket < |s.pushes| && s.pushes[r.ticket] == Push(w, r.content))
    && (Ticketed(pc) && r.done ==> r.ticket < |s.outputs| && r.result == s.outputs[r.ticket])
    && (Waiting(pc) && !r.done ==> s.taken <= r.ticket || Current(s.daemon) == Some(w))
  }

  /** No wake-up is lost: whoever sleeps unsignalled has nothing to do, or the signal is the very next step. */
  ghost predicate WakeupsPending(s: State)
    requires Sizes(s)
  {
    && (s.daemon == Sleeping(false) && s.taken < |s.pushes| ==> s.queueLock.Worker? && s.pcs[s.queueLock.w] == Linked)
    && (forall w :: 0 <= w < |s.pcs| && s.pcs[w] == Asleep(false) && s.reqs[w].done ==> s.daemon == DoneStored(w))
  }

  /** Every answer so far was the rendering of that worker's own push, and no push was answered twice. */
  ghost predicate AnswersRight(s: State)
    requires Sizes(s)
  {
    && (forall k :: 0 <= k < |s.answers| ==> AnswerOk(s, s.answers[k]))
    && (forall j, k :: 0 <= j < k < |s.answers| ==> s.answers[j].ticket != s.answers[k].ticket)
    && (forall k, w :: 0 <= k < |s.answers| && 0 <= w < |s.pcs| && Ticketed(s.pcs[w]) ==> s.answers[k].ticket != s.reqs[w].ticket)
  }

  ghost predicate AnswerOk(s: State, a: Answer)
    requires Sizes(s)
  {
    a.ticket < |s.outputs| && s.pushes[a.ticket].worker == a.worker && a.text == s.outputs[a.ticket]
  }

  /** Every push is answered already or its worker is still inside the call with it. */
  ghost predicate PushesAccounted(s: State)
    requires Sizes(s)
  {
    forall t :: 0 <= t < |s.pushes| ==> Accounted(s, t)
  }

  ghost predicate Answered(s: State, t: nat) {
    exists k :: 0 <= k < |s.answers| && s.answers[k].ticket == t
  }

  ghost predicate Accounted(s: State, t: nat)
    requires Sizes(s) && t < |s.pushes|
  {
    var w := s.pushes[t].worker;
    Answered(s, t) || (w < |s.pcs| && Ticketed(s.pcs[w]) && s.reqs[w].ticket == t)
  }

  ghost predicate Inv(s: State) {
    && Sizes(s) && LocksHeld(s) && QueueLinked(s) && DaemonServes(s)
    && (forall w :: 0 <= w < |s.pcs| ==> WorkerOk(s, w))
    && WakeupsPending(s) && AnswersRight(s) && PushesAccounted(s)
  }

  lemma InvInitially(workers: nat)
    ensures Inv(Initial(workers))
  {
  }

  lemma TailIsWaiting(s: State)
    requires Inv(s) && s.tail.Some?
    ensures s.tail.value < |s.pcs| && Waiting(s.pcs[s.tail.value])
  {
    assert QueuedAt(s, |s.pushes| - 1);
  }

  lemma UnlinkedIsBlank(s: State, w: nat)
    requires Inv(s) && w < |s.pcs| && s.pcs[w] == QueueLocked
    ensures !s.reqs[w].done && s.reqs[w].next == None
  {
    assert WorkerOk(s, w);
  }

  /** The worker steps that make, link or give up a request; the others only lock, test, wait and signal. */
  predicate ChangesRequest(a: Action) {
    a.Call? || a.Link? || a.Return?
  }

  lemma RequestKeepsSizes(s: State, a: Action)
    requires Inv(s) && ChangesRequest(a) && Can(s, a)
    ensures Sizes(Next(s, a))
  {
    hide LocksHeld, DaemonServes, WakeupsPending, AnswersRight, PushesAccounted;
  }

  lemma LockingKeepsSizes(s: State, a: Action)
    requires Inv(s) && IsWorkerAction(a) && !ChangesRequest(a) && Can(s, a)
    ensures Sizes(Next(s, a))
  {
    hide LocksHeld, DaemonServes, WakeupsPending, AnswersRight, PushesAccounted;
  }

  lemma DaemonKeepsSizes(s: State, a: Action)
    requires Inv(s) && !IsWorkerAction(a) && Can(s, a)
    ensures Sizes(Next(s, a))
  {
    hide LocksHeld, DaemonServes, WakeupsPending, AnswersRight, PushesAccounted;
    if s.head.Some? {
      assert QueuedAt(s, s.taken);
    }
  }

  lemma RequestKeepsLock(s: State, a: Action, w: nat)
    requires Inv(s) && ChangesRequest(a) && Can(s, a) && w < |s.pcs|
    requires Sizes(Next(s, a))
    ensures LocksOf(Next(s, a), w)
  {
    hide QueueLinked, DaemonServes, WorkerOk, WakeupsPending, AnswersRight, PushesAccounted;
    assert LocksOf(s, a.w) && LocksOf(s, w);
  }

  lemma RequestKeepsLocks(s: State, a: Action)
    requires Inv(s) && ChangesRequest(a) && Can(s, a)
    requires Sizes(Next(s, a))
    ensures LocksHeld(Next(s, a))
  {
    hide QueueLinked, DaemonServes, WorkerOk, WakeupsPending, AnswersRight, PushesAccounted, LocksOf;
    forall w | 0 <= w < |s.pcs|
      ensures LocksOf(Next(s, a), w)
    {
      RequestKeepsLock(s, a, w);
    }
  }

  lemma LockingKeepsLock(s: State, a: Action, w: nat)
    requires Inv(s) && IsWorkerAction(a) && !ChangesRequest(a) && Can(s, a) && w < |s.pcs|
    requires Sizes(Next(s, a))
    ensures LocksOf(Next(s, a), w)
  {
    hide QueueLinked, DaemonServes, WorkerOk, WakeupsPending, AnswersRight, PushesAccounted;
    assert LocksOf(s, a.w) && LocksOf(s, w);
  }

  lemma LockingKeepsQueueLock(s: State, a: Action)
    requires Inv(s) && IsWorkerAction(a) && !ChangesRequest(a) && Can(s, a)
    ensures var t := Next(s, a); t.queueLock == Daemon <==> t.daemon.Holding? || t.daemon.Popped?
  {
    hide QueueLinked, DaemonServes, WorkerOk, WakeupsPending, AnswersRight, PushesAccounted;
    assert LocksOf(s, a.w);
  }

  lemma LockingKeepsLocks(s: State, a: Action)
    requires Inv(s) && IsWorkerAction(a) && !ChangesRequest(a) && Can(s, a)
    requires Sizes(Next(s, a))
    ensures LocksHeld(Next(s, a))
  {
    hide Inv, Can, Next, LocksOf;
    LockingKeepsQueueLock(s, a);
    forall w | 0 <= w < |s.pcs|
      ensures LocksOf(Next(s, a), w)
    {
      LockingKeepsLock(s, a, w);
    }
  }

  lemma DaemonKeepsLocks(s: State, a: Action)
    requires Inv(s) && !IsWorkerAction(a) && Can(s, a)
    requires Sizes(Next(s, a))
    ensures LocksHeld(Next(s, a))
  {
    hide QueueLinked, WorkerOk, WakeupsPending, AnswersRight, PushesAccounted;
    assert Current(s.daemon).Some? ==> LocksOf(s, s.daemon.w);
    forall w | 0 <= w < |Next(s, a).pcs|
      ensures LocksOf(Next(s, a), w)
    {
      assert LocksOf(s, w);
    }
  }

  /** A step that leaves the list, and what waits in it, as it was. */
  lemma QueueStays(s: State, t: State)
    requires Sizes(s) && Sizes(t) && QueueLinked(s)
    requires t.pushes == s.pushes && t.taken == s.taken && t.head == s.head && t.tail == s.tail && |t.pcs| == |s.pcs|
    requires forall w :: 0 <= w < |s.pcs| && Waiting(s.pcs[w]) && !s.reqs[w].done && s.taken <= s.reqs[w].ticket ==>
               && Waiting(t.pcs[w]) && t.reqs[w].ticket == s.reqs[w].ticket
               && t.reqs[w].next == s.reqs[w].next && !t.reqs[w].done
    ensures QueueLinked(t)
  {
    forall k | t.taken <= k < |t.pushes|
      ensures QueuedAt(t, k)
    {
      assert QueuedAt(s, k);
    }
  }

  /** Linking appends the worker's request to the list. */
  lemma LinkingKeepsQueue(s: State, w: nat)
    requires Inv(s) && Can(s, Link(w))
    requires Sizes(Next(s, Link(w)))
    ensures QueueLinked(Next(s, Link(w)))
  {
    hide LocksHeld, DaemonServes, WorkerOk, WakeupsPending, AnswersRight, PushesAccounted;
    UnlinkedIsBlank(s, w);
    var n := |s.pushes|;
    if s.taken < n {
      assert QueuedAt(s, s.taken) && QueuedAt(s, n - 1);
    }
    var after := Next(s, Link(w));
    forall t | after.taken <= t < |after.pushes|
      ensures QueuedAt(after, t)
    {
      if t < n {
        assert QueuedAt(s, t);
      }
      if t + 1 < n {
        assert QueuedAt(s, t + 1);
      }
    }
  }

  lemma RequestKeepsQueue(s: State, a: Action)
    requires Inv(s) && ChangesRequest(a) && Can(s, a)
    requires Sizes(Next(s, a))
    ensures QueueLinked(Next(s, a))
  {
    hide LocksHeld, DaemonServes, WorkerOk, WakeupsPending, AnswersRight, PushesAccounted, QueueLinked;
    if a.Link? {
      LinkingKeepsQueue(s, a.w);
    } else {
      QueueStays(s, Next(s, a));
    }
  }

  lemma LockingKeepsQueue(s: State, a: Action)
    requires Inv(s) && IsWorkerAction(a) && !ChangesRequest(a) && Can(s, a)
    requires Sizes(Next(s, a))
    ensures QueueLinked(Next(s, a))
  {
    hide LocksHeld, DaemonServes, WorkerOk, WakeupsPending, AnswersRight, PushesAccounted, QueueLinked;
    QueueStays(s, Next(s, a));
  }

  /** Taking the first request leaves the rest of the list. */
  lemma TakingKeepsQueue(s: State)
    requires Inv(s) && Can(s, DaemonTest)
    requires Sizes(Next(s, DaemonTest))
    ensures QueueLinked(Next(s, DaemonTest))
  {
    hide LocksHeld, WorkerOk, WakeupsPending, AnswersRight, PushesAccounted, DaemonServes;
    var after := Next(s, DaemonTest);
    if s.taken < |s.pushes| {
      assert QueuedAt(s, s.taken);
    }
    forall t | after.taken <= t < |after.pushes|
      ensures QueuedAt(after, t)
    {
      assert QueuedAt(s, t);
    }
  }

  lemma DaemonKeepsQueue(s: State, a: Action)
    requires Inv(s) && !IsWorkerAction(a) && Can(s, a)
    requires Sizes(Next(s, a))
    ensures QueueLinked(Next(s, a))
  {
    hide LocksHeld, WorkerOk, WakeupsPending, AnswersRight, PushesAccounted, QueueLinked;
    if a.DaemonTest? {
      TakingKeepsQueue(s);
    } else {
      QueueStays(s, Next(s, a));
    }
  }

  lemma RequestKeepsService(s: State, a: Action)
    requires Inv(s) && ChangesRequest(a) && Can(s, a)
    requires Sizes(Next(s, a))
    ensures DaemonServes(Next(s, a))
  {
    hide LocksHeld, QueueLinked, WakeupsPending, AnswersRight, PushesAccounted, WorkerOk;
    if Current(s.daemon).Some? {
      TakenIsPushed(s);
      var t, w := Next(s, a), s.daemon.w;
      assert a.w != w && t.pcs[w] == s.pcs[w] && t.reqs[w] == s.reqs[w].(next := t.reqs[w].next);
      assert t.pushes[s.taken - 1] == s.pushes[s.taken - 1];
    }
  }

  lemma TakenIsPushed(s: State)
    requires Inv(s) && Current(s.daemon).Some?
    ensures s.pcs[s.daemon.w] == Pushed || s.pcs[s.daemon.w] == RequestLocked || s.pcs[s.daemon.w].Asleep?
  {
  }

  lemma LockingKeepsService(s: State, a: Action)
    requires Inv(s) && IsWorkerAction(a) && !ChangesRequest(a) && Can(s, a)
    requires Sizes(Next(s, a))
    ensures DaemonServes(Next(s, a))
  {
    hide QueueLinked, WorkerOk, WakeupsPending, AnswersRight, PushesAccounted;
    assert LocksOf(s, a.w);
    assert Current(s.daemon).Some? ==> LocksOf(s, s.daemon.w);
  }

  /** The request just taken is the first that was waiting. */
  lemma TakingKeepsService(s: State)
    requires Inv(s) && Can(s, DaemonTest)
    requires Sizes(Next(s, DaemonTest))
    ensures DaemonServes(Next(s, DaemonTest))
  {
    hide WorkerOk, WakeupsPending, AnswersRight, PushesAccounted;
    if s.head.Some? {
      assert QueuedAt(s, s.taken);
      assert LocksOf(s, s.head.value);
    }
  }

  lemma DaemonKeepsService(s: State, a: Action)
    requires Inv(s) && !IsWorkerAction(a) && Can(s, a)
    requires Sizes(Next(s, a))
    ensures DaemonServes(Next(s, a))
  {
    hide LocksHeld, QueueLinked, WorkerOk, WakeupsPending, AnswersRight, PushesAccounted;
    if a.DaemonTest? {
      TakingKeepsService(s);
    }
  }

  lemma RequestKeepsWorkers(s: State, a: Action)
    requires Inv(s) && ChangesRequest(a) && Can(s, a)
    requires Sizes(Next(s, a))
    ensures forall w :: 0 <= w < |Next(s, a).pcs| ==> WorkerOk(Next(s, a), w)
  {
    hide LocksHeld, QueueLinked, DaemonServes, WakeupsPending, AnswersRight, PushesAccounted;
    if s.tail.Some? {
      TailIsWaiting(s);
    }
    forall w | 0 <= w < |Next(s, a).pcs|
      ensures WorkerOk(Next(s, a), w)
    {
      assert WorkerOk(s, w);
    }
  }

  lemma LockingKeepsWorker(s: State, a: Action, w: nat)
    requires Inv(s) && IsWorkerAction(a) && !ChangesRequest(a) && Can(s, a) && w < |s.pcs|
    requires Sizes(Next(s, a))
    ensures WorkerOk(Next(s, a), w)
  {
    hide LocksHeld, QueueLinked, DaemonServes, WakeupsPending, AnswersRight, PushesAccounted;
    assert WorkerOk(s, w);
  }

  lemma LockingKeepsWorkers(s: State, a: Action)
    requires Inv(s) && IsWorkerAction(a) && !ChangesRequest(a) && Can(s, a)
    requires Sizes(Next(s, a))
    ensures forall w :: 0 <= w < |Next(s, a).pcs| ==> WorkerOk(Next(s, a), w)
  {
    hide LocksHeld, QueueLinked, DaemonServes, WakeupsPending, AnswersRight, PushesAccounted, WorkerOk, Can, Next;
    forall w | 0 <= w < |s.pcs|
      ensures WorkerOk(Next(s, a), w)
    {
      LockingKeepsWorker(s, a, w);
    }
  }

  lemma TakingKeepsWorker(s: State, w: nat)
    requires Inv(s) && Can(s, DaemonTest) && w < |s.pcs|
    requires Sizes(Next(s, DaemonTest))
    ensures WorkerOk(Next(s, DaemonTest), w)
  {
    hide LocksHeld, DaemonServes, WakeupsPending, AnswersRight, PushesAccounted;
    assert WorkerOk(s, w);
  }

  lemma DaemonKeepsWorker(s: State, a: Action, w: nat)
    requires Inv(s) && !IsWorkerAction(a) && Can(s, a) && w < |s.pcs|
    requires Sizes(Next(s, a))
    ensures WorkerOk(Next(s, a), w)
  {
    hide LocksHeld, QueueLinked, WakeupsPending, AnswersRight, PushesAccounted;
    if a.DaemonTest? {
      TakingKeepsWorker(s, w);
    } else {
      assert WorkerOk(s, w);
    }
  }

  lemma DaemonKeepsWorkers(s: State, a: Action)
    requires Inv(s) && !IsWorkerAction(a) && Can(s, a)
    requires Sizes(Next(s, a))
    ensures forall w :: 0 <= w < |Next(s, a).pcs| ==> WorkerOk(Next(s, a), w)
  {
    hide LocksHeld, QueueLinked, DaemonServes, WakeupsPending, AnswersRight, PushesAccounted, WorkerOk, Can, Next;
    forall w | 0 <= w < |s.pcs|
      ensures WorkerOk(Next(s, a), w)
    {
      DaemonKeepsWorker(s, a, w);
    }
  }

  lemma RequestKeepsWakeups(s: State, a: Action)
    requires Inv(s) && ChangesRequest(a) && Can(s, a)
    requires Sizes(Next(s, a))
    ensures WakeupsPending(Next(s, a))
  {
    hide QueueLinked, DaemonServes, AnswersRight, PushesAccounted;
    assert WorkerOk(s, a.w) && LocksOf(s, a.w);
  }

  lemma LockingKeepsWakeups(s: State, a: Action)
    requires Inv(s) && IsWorkerAction(a) && !ChangesRequest(a) && Can(s, a)
    requires Sizes(Next(s, a))
    ensures WakeupsPending(Next(s, a))
  {
    hide QueueLinked, AnswersRight, PushesAccounted;
    assert WorkerOk(s, a.w) && LocksOf(s, a.w);
  }

  lemma DaemonKeepsWakeups(s: State, a: Action)
    requires Inv(s) && !IsWorkerAction(a) && Can(s, a)
    requires Sizes(Next(s, a))
    ensures WakeupsPending(Next(s, a))
  {
    hide WorkerOk, AnswersRight, PushesAccounted;
    assert s.queueLock.Worker? ==> LocksOf(s, s.queueLock.w);
  }

  lemma RequestKeepsAnswers(s: State, a: Action)
    requires Inv(s) && ChangesRequest(a) && Can(s, a)
    requires Sizes(Next(s, a))
    ensures AnswersRight(Next(s, a))
  {
    hide LocksHeld, QueueLinked, DaemonServes, WakeupsPending, PushesAccounted;
    assert WorkerOk(s, a.w);
    forall j, k | 0 <= j < k < |Next(s, a).answers|
      ensures Next(s, a).answers[j].ticket != Next(s, a).answers[k].ticket
    {
      assert k == |s.answers| ==> s.answers[j].ticket != s.reqs[a.w].ticket;
    }
    var after := Next(s, a);
    forall k | 0 <= k < |after.answers|
      ensures AnswerOk(after, after.answers[k])
    {
      assert k < |s.answers| ==> AnswerOk(s, s.answers[k]);
    }
    forall k, w | 0 <= k < |after.answers| && 0 <= w < |after.pcs| && Ticketed(after.pcs[w])
      ensures after.answers[k].ticket != after.reqs[w].ticket
    {
      assert WorkerOk(s, w);
      assert k < |s.answers| ==> AnswerOk(s, s.answers[k]);
    }
  }

  /** A step that answers nobody and gives no worker another ticket. */
  lemma AnswersStay(s: State, t: State)
    requires Sizes(s) && Sizes(t) && AnswersRight(s)
    requires s.pushes <= t.pushes && s.outputs <= t.outputs && t.answers == s.answers && |t.pcs| == |s.pcs|
    requires forall w :: 0 <= w < |s.pcs| && Ticketed(t.pcs[w]) ==>
               Ticketed(s.pcs[w]) && t.reqs[w].ticket == s.reqs[w].ticket
    ensures AnswersRight(t)
  {
    forall k | 0 <= k < |t.answers|
      ensures AnswerOk(t, t.answers[k])
    {
      assert AnswerOk(s, s.answers[k]);
    }
  }

  lemma LockingKeepsAnswers(s: State, a: Action)
    requires Inv(s) && IsWorkerAction(a) && !ChangesRequest(a) && Can(s, a)
    requires Sizes(Next(s, a))
    ensures AnswersRight(Next(s, a))
  {
    hide LocksHeld, QueueLinked, DaemonServes, WorkerOk, WakeupsPending, PushesAccounted, AnswersRight;
    AnswersStay(s, Next(s, a));
  }

  lemma DaemonKeepsAnswers(s: State, a: Action)
    requires Inv(s) && !IsWorkerAction(a) && Can(s, a)
    requires Sizes(Next(s, a))
    ensures AnswersRight(Next(s, a))
  {
    hide LocksHeld, QueueLinked, DaemonServes, WorkerOk, WakeupsPending, PushesAccounted, AnswersRight;
    AnswersStay(s, Next(s, a));
  }

  /** A push stays accounted for while answers are kept and its worker keeps its ticket, or is answered. */
  lemma AccountsStay(s: State, t: State)
    requires Sizes(s) && Sizes(t) && PushesAccounted(s)
    requires s.pushes <= t.pushes && s.answers <= t.answers && |t.pcs| == |s.pcs|
    requires forall w :: 0 <= w < |s.pcs| && Ticketed(s.pcs[w]) && !Answered(t, s.reqs[w].ticket) ==>
               Ticketed(t.pcs[w]) && t.reqs[w].ticket == s.reqs[w].ticket
    requires forall k :: |s.pushes| <= k < |t.pushes| ==> Accounted(t, k)
    ensures PushesAccounted(t)
  {
    forall k | 0 <= k < |s.pushes|
      ensures Accounted(t, k)
    {
      assert Accounted(s, k);
      if Answered(s, k) {
        var m :| 0 <= m < |s.answers| && s.answers[m].ticket == k;
        assert t.answers[m].ticket == k;
      }
    }
  }

  lemma RequestKeepsAccounts(s: State, a: Action)
    requires Inv(s) && ChangesRequest(a) && Can(s, a)
    requires Sizes(Next(s, a))
    ensures PushesAccounted(Next(s, a))
  {
    hide LocksHeld, QueueLinked, DaemonServes, WorkerOk, WakeupsPending, AnswersRight, PushesAccounted;
    var after := Next(s, a);
    if a.Return? {
      assert after.answers[|s.answers|].ticket == s.reqs[a.w].ticket;
    }
    AccountsStay(s, after);
  }

  lemma LockingKeepsAccounts(s: State, a: Action)
    requires Inv(s) && IsWorkerAction(a) && !ChangesRequest(a) && Can(s, a)
    requires Sizes(Next(s, a))
    ensures PushesAccounted(Next(s, a))
  {
    hide LocksHeld, QueueLinked, DaemonServes, WorkerOk, WakeupsPending, AnswersRight, PushesAccounted;
    AccountsStay(s, Next(s, a));
  }

  lemma DaemonKeepsAccounts(s: State, a: Action)
    requires Inv(s) && !IsWorkerAction(a) && Can(s, a)
    requires Sizes(Next(s, a))
    ensures PushesAccounted(Next(s, a))
  {
    hide LocksHeld, QueueLinked, DaemonServes, WorkerOk, WakeupsPending, AnswersRight, PushesAccounted;
    AccountsStay(s, Next(s, a));
  }

  /** Every step of either side keeps the invariant. */
  lemma StepKeepsInv(s: State, a: Action)
    requires Inv(s) && Can(s, a)
    ensures Inv(Next(s, a))
  {
    hide Can, Next, LocksHeld, QueueLinked, DaemonServes, WakeupsPending, AnswersRight, PushesAccounted, WorkerOk;
    if ChangesRequest(a) {
      RequestKeepsSizes(s, a);
      RequestKeepsLocks(s, a);
      RequestKeepsQueue(s, a);
      RequestKeepsService(s, a);
      RequestKeepsWorkers(s, a);
      RequestKeepsWakeups(s, a);
      RequestKeepsAnswers(s, a);
      RequestKeepsAccounts(s, a);
    } else if IsWorkerAction(a) {
      LockingKeepsSizes(s, a);
      LockingKeepsLocks(s, a);
      LockingKeepsQueue(s, a);
      LockingKeepsService(s, a);
      LockingKeepsWorkers(s, a);
      LockingKeepsWakeups(s, a);
      LockingKeepsAnswers(s, a);
      LockingKeepsAccounts(s, a);
    } else {
      DaemonKeepsSizes(s, a);
      DaemonKeepsLocks(s, a);
      DaemonKeepsQueue(s, a);
      DaemonKeepsService(s, a);
      DaemonKeepsWorkers(s, a);
      DaemonKeepsWakeups(s, a);
      DaemonKeepsAnswers(s, a);
      DaemonKeepsAccounts(s, a);
    }
  }
}
