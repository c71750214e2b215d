/** The thread pool: the main thread posts tasks and delivers completions, the worker
    threads take tasks from the queue and run them.  Threads are interleaved one operation
    at a time; sections under the mutex or the spinlock are not merged into one step. */
module ThreadPool {
  import opened Counting

  type Task = nat

  datatype Owner = Nobody | Main | Worker(w: nat)

  /** What the main thread does next. */
  datatype MainPc =
    | Free                                  // in the event loop or in a completion handler
    | PostLock(task: Task)                  // waits for the mutex
    | PostCheck(task: Task)
    | PostReject
    | PostSignal(task: Task)
    | PostPush(task: Task)
    | PostCount
    | PostUnlock
    | DoneLock                              // notified: waits for the spinlock
    | DoneGrab
    | DoneUnlock

  /** What a worker does next. */
  datatype WorkerPc =
    | Lock                                  // waits for the mutex
    | Announce
    | Look
    | Asleep                                // on the condition variable
    | Woken                                 // woken, waits for the mutex
    | Take
    | Unlock(task: Task)
    | Work(task: Task)
    | Finish(task: Task)                    // waits for the spinlock
    | Append(task: Task)
    | Leave
    | Notify

  /** `posted`, `started` and `delivered` record what has happened. */
  datatype State = State(
    mtx: Owner, queue: seq<Task>, waiting: int,
    spin: Owner, done: seq<Task>, notified: bool,
    active: set<Task>, main: MainPc, batch: seq<Task>, workers: seq<WorkerPc>,
    posted: seq<Task>, started: seq<Task>, delivered: seq<Task>)

  datatype Config = Config(threads: nat, maxQueue: int)

  function Init(c: Config): State {
    State(Nobody, [], 0, Nobody, [], false, {}, Free, [], seq(c.threads, _ => Lock), [], [], [])
  }

  /** What the main thread decides to do when it is free. */
  datatype Choice = Post(task: Task) | Deliver | Poll

  datatype Turn =
    | MainTurn(choice: Choice, pick: nat)   // `pick`: the sleeper that a signal wakes
    | WorkerTurn(w: nat)
    | Spurious(w: nat)                      // a sleeper wakes unasked

  predicate Sleeps(pc: WorkerPc) {
    pc.Asleep?
  }

  predicate SomeSleeper(workers: seq<WorkerPc>) {
    exists w :: 0 <= w < |workers| && Sleeps(workers[w])
  }

  function Choose(s: State, choice: Choice): State {
    match choice
    case Post(t) => if t in s.active then s else s.(main := PostLock(t))
    case Deliver =>
      if s.batch == [] then s
      else s.(batch := s.batch[1..], active := s.active - {s.batch[0]}, delivered := s.delivered + [s.batch[0]])
    case Poll => if s.batch == [] && s.notified then s.(notified := false, main := DoneLock) else s
  }

  function Signal(s: State, pick: nat): State
    requires s.main.PostSignal?
  {
    if pick < |s.workers| && Sleeps(s.workers[pick]) then
      s.(workers := s.workers[pick := Woken], main := PostPush(s.main.task))
    else if SomeSleeper(s.workers) then s
    else s.(main := PostPush(s.main.task))
  }

  function MainStep(c: Config, s: State, choice: Choice, pick: nat): State {
    match s.main
    case Free => Choose(s, choice)
    case PostLock(t) => if s.mtx == Nobody then s.(mtx := Main, main := PostCheck(t)) else s
    case PostCheck(t) =>
      if s.waiting >= c.maxQueue then s.(main := PostReject) else s.(active := s.active + {t}, main := PostSignal(t))
    case PostReject => s.(mtx := Nobody, main := Free)
    case PostSignal(t) => Signal(s, pick)
    case PostPush(t) => s.(queue := s.queue + [t], posted := s.posted + [t], main := PostCount)
    case PostCount => s.(waiting := s.waiting + 1, main := PostUnlock)
    case PostUnlock => s.(mtx := Nobody, main := Free)
    case DoneLock => if s.spin == Nobody then s.(spin := Main, main := DoneGrab) else s
    case DoneGrab => s.(batch := s.done, done := [], main := DoneUnlock)
    case DoneUnlock => s.(spin := Nobody, main := Free)
  }

  function Goto(s: State, w: nat, pc: WorkerPc): State
    requires w < |s.workers|
  {
    s.(workers := s.workers[w := pc])
  }

  function WorkerStep(s: State, w: nat): State
    requires w < |s.workers|
  {
    match s.workers[w]
    case Lock => if s.mtx == Nobody then Goto(s.(mtx := Worker(w)), w, Announce) else s
    case Announce => Goto(s.(waiting := s.waiting - 1), w, Look)
    case Look => if s.queue == [] then Goto(s.(mtx := Nobody), w, Asleep) else Goto(s, w, Take)
    case Asleep => s
    case Woken => if s.mtx == Nobody then Goto(s.(mtx := Worker(w)), w, Look) else s
    case Take =>
      if s.queue == [] then s
      else Goto(s.(queue := s.queue[1..], started := s.started + [s.queue[0]]), w, Unlock(s.queue[0]))
    case Unlock(t) => Goto(s.(mtx := Nobody), w, Work(t))
    case Work(t) => Goto(s, w, Finish(t))
    case Finish(t) => if s.spin == Nobody then Goto(s.(spin := Worker(w)), w, Append(t)) else s
    case Append(t) => Goto(s.(done := s.done + [t]), w, Leave)
    case Leave => Goto(s.(spin := Nobody), w, Notify)
    case Notify => Goto(s.(notified := true), w, Lock)
  }

  function Step(c: Config, s: State, turn: Turn): State {
    match turn
    case MainTurn(choice, pick) => MainStep(c, s, choice, pick)
    case WorkerTurn(w) => if w < |s.workers| then WorkerStep(s, w) else s
    case Spurious(w) => if w < |s.workers| && Sleeps(s.workers[w]) then Goto(s, w, Woken) else s
  }

  function Run(c: Config, turns: seq<Turn>): State {
    if turns == [] then Init(c) else Step(c, Run(c, turns[..|turns| - 1]), turns[|turns| - 1])
  }

  // ---------- what holds in every state ----------

  predicate MainHasMutex(pc: MainPc) {
    pc.PostCheck? || pc.PostReject? || pc.PostSignal? || pc.PostPush? || pc.PostCount? || pc.PostUnlock?
  }

  predicate MainHasSpin(pc: MainPc) {
    pc.DoneGrab? || pc.DoneUnlock?
  }

  predicate HasMutex(pc: WorkerPc) {
    pc.Announce? || pc.Look? || pc.Take? || pc.Unlock?
  }

  predicate HasSpin(pc: WorkerPc) {
    pc.Append? || pc.Leave?
  }

  /** The locks are held by the threads inside the sections they protect; a worker about to
      take a task has one to take. */
  ghost predicate LocksAt(s: State, w: int)
    requires 0 <= w < |s.workers|
  {
    && (HasMutex(s.workers[w]) <==> s.mtx == Worker(w)) && (HasSpin(s.workers[w]) <==> s.spin == Worker(w))
    && (s.workers[w].Take? ==> s.queue != [])
  }

  ghost predicate Locks(s: State) {
    && (MainHasMutex(s.main) <==> s.mtx == Main) && (MainHasSpin(s.main) <==> s.spin == Main)
    && (forall w {:trigger LocksAt(s, w)} :: 0 <= w < |s.workers| ==> LocksAt(s, w))
  }

  predicate Carries(pc: WorkerPc, t: Task) {
    (pc.Unlock? || pc.Work? || pc.Finish? || pc.Append?) && pc.task == t
  }

  function Carrying(t: Task): WorkerPc -> bool {
    pc => Carries(pc, t)
  }

  function Is(t: Task): Task -> bool {
    x => x == t
  }

  /** How often a task occurs between the push and the delivery: in the queue, with the
      workers, among the completed ones and among those being delivered. */
  function Inside(s: State, t: Task): nat {
    Count(s.queue, Is(t)) + Count(s.workers, Carrying(t)) + Count(s.done, Is(t)) + Count(s.batch, Is(t))
  }

  predicate InHand(pc: MainPc, t: Task) {
    (pc.PostSignal? || pc.PostPush?) && pc.task == t
  }

  /** An active task is in exactly one place, once; what was posted and not delivered is
      still there. */
  ghost predicate PlacedAt(s: State, t: Task) {
    && Inside(s, t) + One(InHand(s.main, t)) == One(t in s.active)
    && Count(s.posted, Is(t)) == Count(s.delivered, Is(t)) + Inside(s, t)
  }

  ghost predicate Placed(s: State) {
    && (forall t {:trigger PlacedAt(s, t)} :: PlacedAt(s, t))
    && s.posted == s.started + s.queue
    && (s.main.PostLock? || s.main.PostCheck? ==> s.main.task !in s.active)
  }

  /** A worker that has announced itself and has not yet taken a task. */
  predicate Announced(pc: WorkerPc) {
    pc.Look? || pc.Asleep? || pc.Woken? || pc.Take?
  }

  ghost predicate Counter(c: Config, s: State) {
    && s.waiting == |s.queue| - Count(s.workers, Announced) - One(s.main.PostCount?)
    && s.waiting <= c.maxQueue
    && (s.main.PostSignal? || s.main.PostPush? || s.main.PostCount? ==> s.waiting < c.maxQueue)
  }

  /** A worker that will look at the queue before it sleeps. */
  predicate Looking(pc: WorkerPc) {
    pc.Lock? || pc.Announce? || pc.Look? || pc.Woken? || pc.Take?
  }

  /** A worker that has just completed a task and is about to notify the main thread. */
  predicate Announcing(pc: WorkerPc) {
    pc.Leave? || pc.Notify?
  }

  /** While some worker sleeps, every queued task has a worker of its own on the way to the
      queue; and a completed task has a notification pending or about to be made. */
  ghost predicate Attended(s: State) {
    && (Count(s.workers, Sleeps) > 0 ==> |s.queue| + One(s.main.PostPush?) <= Count(s.workers, Looking))
    && (s.done != [] ==> s.notified || s.main.DoneLock? || s.main.DoneGrab? || Count(s.workers, Announcing) > 0)
  }

  ghost predicate Inv(c: Config, s: State) {
    |s.workers| == c.threads && Locks(s) && Placed(s) && Counter(c, s) && Attended(s)
  }

  // ---------- the steps of the workers ----------

  /** A worker takes the first task of the queue. */
  predicate Takes(s: State, w: nat)
    requires w < |s.workers|
  {
    s.workers[w].Take? && s.queue != []
  }

  /** What a step of worker `w` does to the shared state. */
  ghost predicate Shared(s: State, s': State, w: nat) {
    && w < |s.workers| && |s'.workers| == |s.workers| && s'.workers == s.workers[w := s'.workers[w]]
    && s'.main == s.main && s'.active == s.active && s'.batch == s.batch && s'.posted == s.posted
       && s'.delivered == s.delivered
    && var a := s.workers[w];
    && s'.waiting == s.waiting - One(a.Announce?) && s'.notified == (s.notified || a.Notify?)
    && s'.queue == (if Takes(s, w) then s.queue[1..] else s.queue)
    && s'.started == (if Takes(s, w) then s.started + [s.queue[0]] else s.started)
    && s'.done == (if a.Append? then s.done + [a.task] else s.done)
  }

  /** What it does to the locks. */
  ghost predicate Locking(s: State, s': State, w: nat)
    requires w < |s.workers| && w < |s'.workers|
  {
    var a, b := s.workers[w], s'.workers[w];
    && s'.mtx == (if HasMutex(a) == HasMutex(b) then s.mtx else if HasMutex(b) then Worker(w) else Nobody)
    && (HasMutex(b) && !HasMutex(a) ==> s.mtx == Nobody)
    && s'.spin == (if HasSpin(a) == HasSpin(b) then s.spin else if HasSpin(b) then Worker(w) else Nobody)
    && (HasSpin(b) && !HasSpin(a) ==> s.spin == Nobody)
    && (b.Take? ==> s'.queue != [])
    && (s'.queue != s.queue || s'.waiting != s.waiting ==> HasMutex(a))
  }

  /** And to what the worker counts as. */
  ghost predicate Moves(s: State, s': State, w: nat)
    requires w < |s.workers| && w < |s'.workers|
  {
    var a, b := s.workers[w], s'.workers[w];
    && One(Announced(b)) == One(Announced(a)) + One(a.Announce?) - One(Takes(s, w))
    && (Sleeps(b) && !Sleeps(a) ==> s.queue == [] && HasMutex(a))
    && (Looking(a) && !Looking(b) ==> Takes(s, w) || Sleeps(b))
    && (Sleeps(a) ==> b == a)
    && (Announcing(a) && !Announcing(b) ==> a.Notify?)
    && (a.Append? ==> Announcing(b))
  }

  lemma WorkerShared(s: State, w: nat)
    requires w < |s.workers|
    ensures Shared(s, WorkerStep(s, w), w)
  {
  }

  lemma WorkerLocking(s: State, w: nat)
    requires w < |s.workers| && (s.workers[w].Take? ==> s.queue != [])
    ensures w < |WorkerStep(s, w).workers| && Locking(s, WorkerStep(s, w), w)
  {
    var pc := s.workers[w];
    if pc.Lock? || pc.Woken? {} else if pc.Take? {} else if pc.Finish? {} else {}
  }

  lemma WorkerMoves(s: State, w: nat)
    requires w < |s.workers|
    ensures w < |WorkerStep(s, w).workers| && Moves(s, WorkerStep(s, w), w)
  {
  }

  lemma WorkerCarries(s: State, w: nat, t: Task)
    requires w < |s.workers|
    ensures w < |WorkerStep(s, w).workers|
    ensures One(Carries(WorkerStep(s, w).workers[w], t)) == One(Carries(s.workers[w], t))
      + One(Takes(s, w) && s.queue[0] == t) - One(s.workers[w].Append? && s.workers[w].task == t)
  {
  }

  lemma LocksKept(s: State, s': State, w: nat)
    requires Locks(s) && Shared(s, s', w) && Locking(s, s', w)
    ensures Locks(s')
  {
    assert LocksAt(s, w);
    forall x | 0 <= x < |s'.workers|
      ensures LocksAt(s', x)
    {
      assert LocksAt(s, x);
    }
  }

  lemma PlacedAtKept(s: State, s': State, w: nat, t: Task)
    requires Shared(s, s', w) && PlacedAt(s, t)
    requires One(Carries(s'.workers[w], t)) == One(Carries(s.workers[w], t))
      + One(Takes(s, w) && s.queue[0] == t) - One(s.workers[w].Append? && s.workers[w].task == t)
    ensures PlacedAt(s', t)
  {
    CountSet(s.workers, w, s'.workers[w], Carrying(t));
    if Takes(s, w) { CountHead(s.queue, Is(t)); }
    if s.workers[w].Append? { CountAppend(s.done, s.workers[w].task, Is(t)); }
  }

  lemma WorkerPlaced(s: State, w: nat)
    requires Placed(s) && w < |s.workers|
    ensures Placed(WorkerStep(s, w))
  {
    var s' := WorkerStep(s, w);
    WorkerShared(s, w);
    forall t: Task
      ensures PlacedAt(s', t)
    {
      WorkerCarries(s, w, t);
      assert PlacedAt(s, t);
      PlacedAtKept(s, s', w, t);
    }
    if Takes(s, w) { Shift(s.started, s.queue); }
  }

  lemma Shift(a: seq<Task>, b: seq<Task>)
    requires b != []
    ensures a + [b[0]] + b[1..] == a + b
  {
  }

  lemma CounterKept(c: Config, s: State, s': State, w: nat)
    requires Locks(s) && Counter(c, s) && Shared(s, s', w) && Locking(s, s', w) && Moves(s, s', w)
    ensures Counter(c, s')
  {
    assert LocksAt(s, w);
    CountSet(s.workers, w, s'.workers[w], Announced);
  }

  lemma AttendedKept(s: State, s': State, w: nat)
    requires Locks(s) && Attended(s) && Shared(s, s', w) && Moves(s, s', w)
    ensures Attended(s')
  {
    assert LocksAt(s, w);
    CountSet(s.workers, w, s'.workers[w], Sleeps);
    CountSet(s.workers, w, s'.workers[w], Looking);
    CountSet(s.workers, w, s'.workers[w], Announcing);
    if Announcing(s'.workers[w]) { CountOne(s'.workers, w, Announcing); }
  }

  lemma WorkerInv(c: Config, s: State, w: nat)
    requires Inv(c, s) && w < |s.workers|
    ensures Inv(c, WorkerStep(s, w))
  {
    var s' := WorkerStep(s, w);
    assert LocksAt(s, w);
    WorkerShared(s, w);
    WorkerLocking(s, w);
    WorkerMoves(s, w);
    LocksKept(s, s', w);
    WorkerPlaced(s, w);
    CounterKept(c, s, s', w);
    AttendedKept(s, s', w);
  }

  // ---------- a sleeper wakes ----------

  /** Nothing but worker `w` going from asleep to woken, and perhaps the main thread's place. */
  ghost predicate Wakes(s: State, s': State, w: nat) {
    && w < |s.workers| && Sleeps(s.workers[w]) && s'.workers == s.workers[w := Woken]
    && s' == s.(workers := s'.workers)
  }

  lemma WakePlaced(s: State, s': State, w: nat)
    requires Placed(s) && Wakes(s, s', w)
    ensures Placed(s')
  {
    forall t: Task
      ensures PlacedAt(s', t)
    {
      assert PlacedAt(s, t);
      CountSet(s.workers, w, Woken, Carrying(t));
    }
  }

  lemma WakeLocks(s: State, s': State, w: nat)
    requires Locks(s) && Wakes(s, s', w)
    ensures Locks(s')
  {
    forall x | 0 <= x < |s'.workers|
      ensures LocksAt(s', x)
    {
      assert LocksAt(s, x);
    }
  }

  lemma WakeInv(c: Config, s: State, s': State, w: nat)
    requires Inv(c, s) && Wakes(s, s', w)
    ensures Inv(c, s') && Count(s'.workers, Looking) == Count(s.workers, Looking) + 1
  {
    WakePlaced(s, s', w);
    WakeLocks(s, s', w);
    CountSet(s.workers, w, Woken, Announced);
    CountSet(s.workers, w, Woken, Sleeps);
    CountSet(s.workers, w, Woken, Looking);
    CountSet(s.workers, w, Woken, Announcing);
  }

  // ---------- the steps of the main thread ----------

  /** The main thread moves on without touching the workers. */
  lemma SameLocks(s: State, s': State)
    requires Locks(s) && s'.workers == s.workers
    requires MainHasMutex(s'.main) <==> s'.mtx == Main
    requires MainHasSpin(s'.main) <==> s'.spin == Main
    requires s'.mtx == s.mtx || (s.mtx in {Nobody, Main} && s'.mtx in {Nobody, Main})
    requires s'.spin == s.spin || (s.spin in {Nobody, Main} && s'.spin in {Nobody, Main})
    requires s'.queue == s.queue || s'.queue != []
    ensures Locks(s')
  {
    forall w | 0 <= w < |s'.workers|
      ensures LocksAt(s', w)
    {
      assert LocksAt(s, w);
    }
  }

  lemma DeliverPlaced(s: State, s': State, t: Task)
    requires s.main.Free? && s.batch != [] && PlacedAt(s, t) && PlacedAt(s, s.batch[0])
    requires s' == s.(batch := s.batch[1..], active := s.active - {s.batch[0]}, delivered := s.delivered + [s.batch[0]])
    ensures PlacedAt(s', t)
  {
    CountHead(s.batch, Is(t));
    CountAppend(s.delivered, s.batch[0], Is(t));
  }

  lemma ChooseInv(c: Config, s: State, choice: Choice)
    requires Inv(c, s) && s.main.Free?
    ensures Inv(c, Choose(s, choice))
  {
    var s' := Choose(s, choice);
    SameLocks(s, s');
    forall t: Task
      ensures PlacedAt(s', t)
    {
      assert PlacedAt(s, t);
      if choice.Deliver? && s.batch != [] {
        assert PlacedAt(s, s.batch[0]);
        DeliverPlaced(s, s', t);
      }
    }
  }

  lemma SignalInv(c: Config, s: State, pick: nat)
    requires Inv(c, s) && s.main.PostSignal?
    ensures Inv(c, Signal(s, pick))
  {
    var s' := Signal(s, pick);
    if pick < |s.workers| && Sleeps(s.workers[pick]) {
      var s1 := Goto(s, pick, Woken);
      WakeInv(c, s, s1, pick);
      CountOne(s.workers, pick, Sleeps);
      MainMoves(c, s1, s');
    } else if !SomeSleeper(s.workers) {
      CountNone(s.workers, Sleeps);
      MainMoves(c, s, s');
    }
  }

  /** From the signal to the push. */
  lemma MainMoves(c: Config, s: State, s': State)
    requires Inv(c, s) && s.main.PostSignal? && s' == s.(main := PostPush(s.main.task))
    requires Count(s.workers, Sleeps) > 0 ==> |s.queue| + 1 <= Count(s.workers, Looking)
    ensures Inv(c, s')
  {
    SameLocks(s, s');
    forall t: Task
      ensures PlacedAt(s', t)
    {
      assert PlacedAt(s, t);
    }
  }

  /** A task accepted, pushed, or fetched for delivery. */
  lemma CheckPlaced(s: State, s': State, x: Task, t: Task)
    requires PlacedAt(s, t) && x !in s.active && s.main == PostCheck(x)
    requires s' == s.(active := s.active + {x}, main := PostSignal(x))
    ensures PlacedAt(s', t)
  {
  }

  lemma PushPlaced(s: State, s': State, x: Task, t: Task)
    requires PlacedAt(s, t) && s.main == PostPush(x)
    requires s' == s.(queue := s.queue + [x], posted := s.posted + [x], main := PostCount)
    ensures PlacedAt(s', t)
  {
    CountAppend(s.queue, x, Is(t));
    CountAppend(s.posted, x, Is(t));
  }

  lemma GrabPlaced(s: State, s': State, t: Task)
    requires PlacedAt(s, t) && s.main.DoneGrab? && s.batch == []
    requires s' == s.(batch := s.done, done := [], main := DoneUnlock)
    ensures PlacedAt(s', t)
  {
  }

  lemma MainPlacedAt(c: Config, s: State, choice: Choice, pick: nat, t: Task)
    requires Placed(s) && !s.main.Free? && !s.main.PostSignal? && (s.main.DoneGrab? ==> s.batch == [])
    ensures PlacedAt(MainStep(c, s, choice, pick), t)
  {
    assert PlacedAt(s, t);
    var s' := MainStep(c, s, choice, pick);
    match s.main
    case PostCheck(x) => if s.waiting < c.maxQueue { CheckPlaced(s, s', x, t); }
    case PostPush(x) => PushPlaced(s, s', x, t);
    case DoneGrab => GrabPlaced(s, s', t);
    case _ =>
  }

  /** While the main thread fetches completed tasks it has delivered all earlier ones. */
  ghost predicate BatchDone(s: State) {
    s.main.DoneLock? || s.main.DoneGrab? ==> s.batch == []
  }

  lemma MainPlaced(c: Config, s: State, choice: Choice, pick: nat)
    requires Placed(s) && BatchDone(s) && !s.main.Free? && !s.main.PostSignal?
    ensures Placed(MainStep(c, s, choice, pick))
  {
    var s' := MainStep(c, s, choice, pick);
    forall t: Task
      ensures PlacedAt(s', t)
    {
      MainPlacedAt(c, s, choice, pick, t);
    }
    if s.main.PostPush? { assert s'.started + s'.queue == s.started + s.queue + [s.main.task]; }
  }

  lemma MainInv(c: Config, s: State, choice: Choice, pick: nat)
    requires Inv(c, s) && BatchDone(s)
    ensures Inv(c, MainStep(c, s, choice, pick)) && BatchDone(MainStep(c, s, choice, pick))
  {
    match s.main
    case Free => ChooseInv(c, s, choice);
    case PostSignal(_) => SignalInv(c, s, pick);
    case _ => MainOther(c, s, choice, pick);
  }

  lemma MainOther(c: Config, s: State, choice: Choice, pick: nat)
    requires Inv(c, s) && BatchDone(s) && !s.main.Free? && !s.main.PostSignal?
    ensures Inv(c, MainStep(c, s, choice, pick)) && BatchDone(MainStep(c, s, choice, pick))
  {
    SameLocks(s, MainStep(c, s, choice, pick));
    MainPlaced(c, s, choice, pick);
  }

  // ---------- every run ----------

  lemma StepInv(c: Config, s: State, turn: Turn)
    requires Inv(c, s) && BatchDone(s)
    ensures Inv(c, Step(c, s, turn)) && BatchDone(Step(c, s, turn))
  {
    match turn
    case MainTurn(choice, pick) => MainInv(c, s, choice, pick);
    case WorkerTurn(w) =>
      if w < |s.workers| {
        WorkerInv(c, s, w);
        WorkerShared(s, w);
      }
    case Spurious(w) =>
      if w < |s.workers| && Sleeps(s.workers[w]) { WakeInv(c, s, Goto(s, w, Woken), w); }
  }

  lemma InitInv(c: Config)
    requires c.maxQueue >= 0
    ensures Inv(c, Init(c))
  {
    var s := Init(c);
    forall t: Task
      ensures PlacedAt(s, t)
    {
      CountNone(s.workers, Carrying(t));
    }
    CountNone(s.workers, Announced);
    CountNone(s.workers, Sleeps);
  }

  /** The invariant holds after any sequence of turns. */
  lemma {:induction false} RunInv(c: Config, turns: seq<Turn>)
    requires c.maxQueue >= 0
    ensures Inv(c, Run(c, turns)) && BatchDone(Run(c, turns))
    decreases |turns|
  {
    if turns == [] {
      InitInv(c);
    } else {
      RunInv(c, turns[..|turns| - 1]);
      StepInv(c, Run(c, turns[..|turns| - 1]), turns[|turns| - 1]);
    }
  }

  /** A task is in exactly one place if it is active, and in none if it is not. */
  lemma OnePlace(c: Config, turns: seq<Turn>, t: Task)
    requires c.maxQueue >= 0
    ensures var s := Run(c, turns); Inside(s, t) + One(InHand(s.main, t)) == One(t in s.active)
  {
    RunInv(c, turns);
    assert PlacedAt(Run(c, turns), t);
  }

  /** Tasks start in post order: what has started is what was posted, up to the queue. */
  lemma PostOrder(c: Config, turns: seq<Turn>)
    requires c.maxQueue >= 0
    ensures var s := Run(c, turns); s.posted == s.started + s.queue
  {
    RunInv(c, turns);
  }

  /** `waiting` is the queue length less the announced workers, and never exceeds the
      limit; so the queue is never longer than the limit plus the workers waiting. */
  lemma QueueBounded(c: Config, turns: seq<Turn>)
    requires c.maxQueue >= 0
    ensures var s := Run(c, turns);
      && s.waiting == |s.queue| - Count(s.workers, Announced) - One(s.main.PostCount?) && s.waiting <= c.maxQueue
      && |s.queue| <= c.maxQueue + Count(s.workers, Announced) <= c.maxQueue + c.threads
  {
    RunInv(c, turns);
    CountBound(Run(c, turns).workers, Announced);
  }

  /** While a worker sleeps unsignalled, the other workers on their way to the queue are
      enough for all the tasks in it. */
  lemma NothingStranded(c: Config, turns: seq<Turn>, w: nat)
    requires c.maxQueue >= 0 && w < |Run(c, turns).workers| && Sleeps(Run(c, turns).workers[w])
    ensures var s := Run(c, turns); |s.queue| <= Count(s.workers, Looking)
  {
    RunInv(c, turns);
    CountOne(Run(c, turns).workers, w, Sleeps);
  }

  /** Completed tasks do not go unnoticed: the main thread has been notified, is fetching them,
      or a worker is about to notify it. */
  lemma CompletionNoticed(c: Config, turns: seq<Turn>)
    requires c.maxQueue >= 0
    ensures var s := Run(c, turns);
      s.done != [] ==> s.notified || s.main.DoneLock? || s.main.DoneGrab? || Count(s.workers, Announcing) > 0
  {
    RunInv(c, turns);
  }

  /** At rest: all workers asleep and the main thread with nothing to do. */
  ghost predicate AtRest(s: State) {
    && s.main.Free? && s.batch == [] && !s.notified
    && forall w :: 0 <= w < |s.workers| ==> Sleeps(s.workers[w])
  }

  /** Whenever the pool comes to rest, every task it accepted has been delivered, as often as
      it was accepted. */
  lemma AllDelivered(c: Config, turns: seq<Turn>, t: Task)
    requires c.maxQueue >= 0 && c.threads >= 1 && AtRest(Run(c, turns))
    ensures var s := Run(c, turns);
      s.queue == [] && s.done == [] && t !in s.active && Count(s.delivered, Is(t)) == Count(s.posted, Is(t))
  {
    RunInv(c, turns);
    var s := Run(c, turns);
    CountOne(s.workers, 0, Sleeps);
    CountNone(s.workers, Looking);
    CountNone(s.workers, Announcing);
    CountNone(s.workers, Carrying(t));
    assert PlacedAt(s, t);
  }

  // ---------- the pool does not get stuck ----------

  /** A turn that is neither a new post nor a wakeup out of nowhere. */
  predicate OwnTurn(turn: Turn) {
    turn.WorkerTurn? || (turn.MainTurn? && !turn.choice.Post?)
  }

  ghost predicate Advances(c: Config, s: State, turn: Turn) {
    OwnTurn(turn) && Step(c, s, turn) != s
  }

  lemma WorkerAdvances(c: Config, s: State, w: nat)
    requires w < |s.workers| && !Sleeps(s.workers[w]) && (s.workers[w].Take? ==> s.queue != [])
    requires s.workers[w].Lock? || s.workers[w].Woken? ==> s.mtx == Nobody
    requires s.workers[w].Finish? ==> s.spin == Nobody
    ensures Advances(c, s, WorkerTurn(w))
  {
    assert WorkerStep(s, w).workers[w] != s.workers[w];
  }

  /** Whoever holds a lock can go on. */
  lemma HolderAdvances(c: Config, s: State, w: nat)
    requires Locks(s) && w < |s.workers| && (s.mtx == Worker(w) || s.spin == Worker(w))
    ensures Advances(c, s, WorkerTurn(w))
  {
    assert LocksAt(s, w);
    WorkerAdvances(c, s, w);
  }

  lemma MainAdvances(c: Config, s: State) returns (turn: Turn)
    requires !s.main.Free? && (s.main.PostLock? ==> s.mtx == Nobody) && (s.main.DoneLock? ==> s.spin == Nobody)
    ensures Advances(c, s, turn)
  {
    var pick := 0;
    if SomeSleeper(s.workers) {
      var w :| 0 <= w < |s.workers| && Sleeps(s.workers[w]);
      pick := w;
    }
    turn := MainTurn(Poll, pick);
    assert MainStep(c, s, Poll, pick).main != s.main;
  }

  /** The owner of a lock is a thread of the pool. */
  ghost predicate Owned(s: State) {
    (s.mtx.Worker? ==> s.mtx.w < |s.workers|) && (s.spin.Worker? ==> s.spin.w < |s.workers|)
  }

  lemma MainOwned(c: Config, s: State, choice: Choice, pick: nat)
    requires Owned(s)
    ensures Owned(MainStep(c, s, choice, pick))
  {
  }

  lemma WorkerOwned(s: State, w: nat)
    requires Owned(s) && w < |s.workers|
    ensures Owned(WorkerStep(s, w))
  {
  }

  lemma {:induction false} RunOwned(c: Config, turns: seq<Turn>)
    ensures Owned(Run(c, turns))
    decreases |turns|
  {
    if turns != [] {
      var s, turn := Run(c, turns[..|turns| - 1]), turns[|turns| - 1];
      RunOwned(c, turns[..|turns| - 1]);
      match turn
      case MainTurn(choice, pick) => MainOwned(c, s, choice, pick);
      case WorkerTurn(w) => if w < |s.workers| { WorkerOwned(s, w); }
      case Spurious(w) =>
    }
  }

  /** A thread that waits for a lock waits for one that can go on. */
  lemma WaiterAdvances(c: Config, s: State) returns (turn: Turn)
    requires Locks(s) && Owned(s) && (s.mtx != Nobody || s.spin != Nobody)
    ensures Advances(c, s, turn)
  {
    if s.mtx.Worker? {
      HolderAdvances(c, s, s.mtx.w);
      turn := WorkerTurn(s.mtx.w);
    } else if s.spin.Worker? {
      HolderAdvances(c, s, s.spin.w);
      turn := WorkerTurn(s.spin.w);
    } else {
      turn := MainAdvances(c, s);
    }
  }

  /** In every run, as long as an accepted task has not been delivered, some thread can go on
      without any further post. */
  lemma NeverStuck(c: Config, turns: seq<Turn>, t: Task) returns (turn: Turn)
    requires c.maxQueue >= 0 && c.threads >= 1 && t in Run(c, turns).active
    ensures Advances(c, Run(c, turns), turn)
  {
    RunInv(c, turns);
    RunOwned(c, turns);
    if AtRest(Run(c, turns)) { AllDelivered(c, turns, t); }
    turn := SomeAdvances(c, Run(c, turns));
  }

  lemma SomeAdvances(c: Config, s: State) returns (turn: Turn)
    requires Locks(s) && Owned(s) && !AtRest(s)
    ensures Advances(c, s, turn)
  {
    if s.mtx != Nobody || s.spin != Nobody {
      turn := WaiterAdvances(c, s);
    } else if !s.main.Free? {
      turn := MainAdvances(c, s);
    } else if s.batch != [] {
      turn := MainTurn(Deliver, 0);
      assert Step(c, s, turn).batch != s.batch;
    } else if s.notified {
      turn := MainTurn(Poll, 0);
    } else {
      var w :| 0 <= w < |s.workers| && !Sleeps(s.workers[w]);
      assert LocksAt(s, w);
      WorkerAdvances(c, s, w);
      turn := WorkerTurn(w);
    }
  }
}
