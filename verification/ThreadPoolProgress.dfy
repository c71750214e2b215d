/** What a post comes to, and that the pool always finishes the tasks it has accepted. */
module ThreadPoolProgress {
  import opened Common
  import opened Counting
  import opened ThreadPool

  /** The state after further turns. */
  function After(c: Config, s: State, more: seq<Turn>): State {
    if more == [] then s else Step(c, After(c, s, more[..|more| - 1]), more[|more| - 1])
  }

  lemma {:induction false} RunAfter(c: Config, turns: seq<Turn>, more: seq<Turn>)
    ensures Run(c, turns + more) == After(c, Run(c, turns), more)
    decreases |more|
  {
    if more == [] {
      NoneAppended(turns);
    } else {
      var less := more[..|more| - 1];
      RunAfter(c, turns, less);
      assert (turns + more)[..|turns + more| - 1] == turns + less;
    }
  }

  lemma RunMore(c: Config, turns: seq<Turn>, turn: Turn)
    ensures Run(c, turns + [turn]) == Step(c, Run(c, turns), turn)
  {
    assert (turns + [turn])[..|turns|] == turns;
  }

  // ---------- what a post comes to ----------

  /** A post of a task that is active already changes nothing; any other waits for the mutex and
      then for the check. */
  lemma PostStarts(c: Config, s: State, t: Task, pick: nat)
    requires s.main.Free?
    ensures t in s.active ==> MainStep(c, s, Post(t), pick) == s
    ensures t !in s.active ==> MainStep(c, s, Post(t), pick) == s.(main := PostLock(t))
    ensures t !in s.active && s.mtx == Nobody ==>
      MainStep(c, s.(main := PostLock(t)), Post(t), pick) == s.(main := PostCheck(t), mtx := Main)
  {
  }

  /** A post under way whose task was checked in state `s0`. */
  ghost predicate UnderWay(c: Config, s0: State, s: State, t: Task) {
    && s.mtx == Main && s.waiting == s0.waiting + One(s.main.PostUnlock?)
    && match s.main
       case PostCheck(x) => x == t && s.queue == s0.queue && s.posted == s0.posted && s.active == s0.active
       case PostReject =>
         c.maxQueue <= s0.waiting && s.queue == s0.queue && s.posted == s0.posted && s.active == s0.active
       case PostSignal(x) =>
         && x == t && s0.waiting < c.maxQueue && s.active == s0.active + {t}
         && s.queue == s0.queue && s.posted == s0.posted
       case PostPush(x) =>
         && x == t && s0.waiting < c.maxQueue && s.active == s0.active + {t}
         && s.queue == s0.queue && s.posted == s0.posted
       case PostCount =>
         && s0.waiting < c.maxQueue && s.active == s0.active + {t}
         && s.queue == s0.queue + [t] && s.posted == s0.posted + [t]
       case PostUnlock =>
         && s0.waiting < c.maxQueue && s.active == s0.active + {t}
         && s.queue == s0.queue + [t] && s.posted == s0.posted + [t]
       case _ => false
  }

  /** The post is over: the task was accepted, or nothing happened. */
  ghost predicate Over(c: Config, s0: State, s: State, t: Task) {
    && s.main.Free? && s.mtx == Nobody
    && if s0.waiting < c.maxQueue then
         && s.posted == s0.posted + [t] && s.queue == s0.queue + [t]
         && s.active == s0.active + {t} && s.waiting == s0.waiting + 1
       else
         s.posted == s0.posted && s.queue == s0.queue && s.active == s0.active && s.waiting == s0.waiting
  }

  lemma WayStep(c: Config, s0: State, s: State, t: Task, turn: Turn)
    requires Inv(c, s) && UnderWay(c, s0, s, t)
    ensures var s' := Step(c, s, turn); UnderWay(c, s0, s', t) || Over(c, s0, s', t)
  {
    match turn
    case MainTurn(choice, pick) =>
    case WorkerTurn(w) =>
      if w < |s.workers| {
        assert LocksAt(s, w);
        WorkerShared(s, w);
        WorkerLocking(s, w);
      }
    case Spurious(w) =>
  }

  /** However the threads are interleaved, when the main thread comes back from a post, the task
      has been accepted if fewer than the limit were waiting at the check, and otherwise
      refused, with nothing changed. */
  lemma {:induction false} PostOutcome(c: Config, turns: seq<Turn>, t: Task, more: seq<Turn>)
    requires c.maxQueue >= 0 && Run(c, turns).main == PostCheck(t)
    requires forall k :: 0 <= k < |more| ==> !Run(c, turns + more[..k]).main.Free?
    ensures var s0, s := Run(c, turns), Run(c, turns + more);
      UnderWay(c, s0, s, t) || Over(c, s0, s, t)
    ensures var s0, s := Run(c, turns), Run(c, turns + more);
      s.main.Free? ==> Over(c, s0, s, t)
    decreases |more|
  {
    if more == [] {
      NoneAppended(turns);
      RunInv(c, turns);
    } else {
      var less, turn := more[..|more| - 1], more[|more| - 1];
      NotFreeBefore(c, turns, more);
      PostOutcome(c, turns, t, less);
      Appended(turns, less, [turn]);
      RunMore(c, turns + less, turn);
      RunInv(c, turns + less);
      WayStep(c, Run(c, turns), Run(c, turns + less), t, turn);
    }
  }

  lemma NotFreeBefore(c: Config, turns: seq<Turn>, more: seq<Turn>)
    requires more != [] && forall k :: 0 <= k < |more| ==> !Run(c, turns + more[..k]).main.Free?
    ensures var less := more[..|more| - 1];
      && more == less + [more[|more| - 1]] && !Run(c, turns + less).main.Free?
      && forall k :: 0 <= k < |less| ==> !Run(c, turns + less[..k]).main.Free?
  {
    var less := more[..|more| - 1];
    forall k | 0 <= k < |less|
      ensures !Run(c, turns + less[..k]).main.Free?
    {
      assert less[..k] == more[..k];
    }
  }

  // ---------- every task is run before it is delivered ----------

  /** What has been completed, in order: what was delivered, what is being delivered, the rest. */
  function Completed(s: State): seq<Task> {
    s.delivered + s.batch + s.done
  }

  /** The task that a turn adds to the completed ones. */
  function Completes(s: State, turn: Turn): seq<Task> {
    if turn.WorkerTurn? && turn.w < |s.workers| && s.workers[turn.w].Append? then [s.workers[turn.w].task] else []
  }

  /** The task whose handler is run in a turn. */
  function Runs(s: State, turn: Turn): seq<Task> {
    if turn.WorkerTurn? && turn.w < |s.workers| && s.workers[turn.w].Work? then [s.workers[turn.w].task] else []
  }

  lemma CompletedStep(c: Config, s: State, turn: Turn)
    requires BatchDone(s)
    ensures Completed(Step(c, s, turn)) == Completed(s) + Completes(s, turn)
  {
    match turn
    case MainTurn(choice, pick) => CompletedMain(c, s, choice, pick);
    case WorkerTurn(w) => if w < |s.workers| { WorkerShared(s, w); }
    case Spurious(w) =>
  }

  lemma CompletedMain(c: Config, s: State, choice: Choice, pick: nat)
    requires BatchDone(s)
    ensures Completed(MainStep(c, s, choice, pick)) == Completed(s)
  {
    if s.main.Free? && choice.Deliver? && s.batch != [] {
      assert s.batch == [s.batch[0]] + s.batch[1..];
    }
  }

  /** Tasks are delivered in the order in which they were completed. */
  lemma CompletionOrder(c: Config, turns: seq<Turn>, turn: Turn)
    requires c.maxQueue >= 0
    ensures Completed(Run(c, turns + [turn])) == Completed(Run(c, turns)) + Completes(Run(c, turns), turn)
  {
    RunInv(c, turns);
    assert (turns + [turn])[..|turns|] == turns;
    CompletedStep(c, Run(c, turns), turn);
  }

  /** The tasks whose handlers have been run, in order. */
  function Ran(c: Config, turns: seq<Turn>): seq<Task> {
    if turns == [] then []
    else Ran(c, turns[..|turns| - 1]) + Runs(Run(c, turns[..|turns| - 1]), turns[|turns| - 1])
  }

  /** A worker between the handler and the list of completed tasks. */
  predicate Returned(pc: WorkerPc, t: Task) {
    (pc.Finish? || pc.Append?) && pc.task == t
  }

  function Returning(t: Task): WorkerPc -> bool {
    pc => Returned(pc, t)
  }

  /** How often the handler of `t` has been run, told from where its runs are now. */
  function Traces(s: State, t: Task): nat {
    Count(s.workers, Returning(t)) + Count(Completed(s), Is(t))
  }

  lemma {:induction false} CountOf(s: seq<Task>, more: seq<Task>, t: Task)
    requires |more| <= 1
    ensures Count(s + more, Is(t)) == Count(s, Is(t)) + Count(more, Is(t))
  {
    if more == [] { NoneAppended(s); } else { CountAppend(s, more[0], Is(t)); }
  }

  lemma ReturningWorker(s: State, w: nat, t: Task)
    requires w < |s.workers|
    ensures Count(WorkerStep(s, w).workers, Returning(t)) == Count(s.workers, Returning(t))
      + One(s.workers[w] == Work(t)) - One(s.workers[w] == Append(t))
  {
    WorkerShared(s, w);
    ReturnedWorker(s, w, t);
    CountSet(s.workers, w, WorkerStep(s, w).workers[w], Returning(t));
  }

  lemma ReturnedWorker(s: State, w: nat, t: Task)
    requires w < |s.workers|
    ensures w < |WorkerStep(s, w).workers|
    ensures One(Returned(WorkerStep(s, w).workers[w], t)) ==
      One(Returned(s.workers[w], t)) + One(s.workers[w] == Work(t)) - One(s.workers[w] == Append(t))
  {
  }

  lemma ReturningMain(c: Config, s: State, choice: Choice, pick: nat, t: Task)
    ensures Count(MainStep(c, s, choice, pick).workers, Returning(t)) == Count(s.workers, Returning(t))
  {
    if s.main.PostSignal? && pick < |s.workers| && Sleeps(s.workers[pick]) {
      CountSet(s.workers, pick, Woken, Returning(t));
    }
  }

  lemma ReturningStep(c: Config, s: State, turn: Turn, t: Task)
    ensures Count(Step(c, s, turn).workers, Returning(t)) + Count(Completes(s, turn), Is(t)) ==
      Count(s.workers, Returning(t)) + Count(Runs(s, turn), Is(t))
  {
    match turn
    case MainTurn(choice, pick) => ReturningMain(c, s, choice, pick, t);
    case WorkerTurn(w) => if w < |s.workers| { ReturningWorker(s, w, t); }
    case Spurious(w) =>
      if w < |s.workers| && Sleeps(s.workers[w]) { CountSet(s.workers, w, Woken, Returning(t)); }
  }

  lemma TracesStep(c: Config, s: State, turn: Turn, t: Task)
    requires BatchDone(s)
    ensures Traces(Step(c, s, turn), t) == Traces(s, t) + Count(Runs(s, turn), Is(t))
  {
    CompletedStep(c, s, turn);
    CountOf(Completed(s), Completes(s, turn), t);
    ReturningStep(c, s, turn, t);
  }

  lemma {:induction false} RanTraces(c: Config, turns: seq<Turn>, t: Task)
    requires c.maxQueue >= 0
    ensures Count(Ran(c, turns), Is(t)) == Traces(Run(c, turns), t)
    decreases |turns|
  {
    if turns == [] {
      CountNone(Init(c).workers, Returning(t));
    } else {
      var before, turn := turns[..|turns| - 1], turns[|turns| - 1];
      RanTraces(c, before, t);
      RunInv(c, before);
      TracesStep(c, Run(c, before), turn, t);
      CountOf(Ran(c, before), Runs(Run(c, before), turn), t);
    }
  }

  /** The handler of a task is run before each of its deliveries; at rest it has been run exactly
      as often as the task was accepted. */
  lemma HandlerRuns(c: Config, turns: seq<Turn>, t: Task)
    requires c.maxQueue >= 0
    ensures Count(Run(c, turns).delivered, Is(t)) <= Count(Ran(c, turns), Is(t))
    ensures c.threads >= 1 && AtRest(Run(c, turns)) ==>
      Count(Ran(c, turns), Is(t)) == Count(Run(c, turns).posted, Is(t))
  {
    var s := Run(c, turns);
    RanTraces(c, turns, t);
    CountParts(s.delivered, s.batch + s.done, t);
    Appended(s.delivered, s.batch, s.done);
    if c.threads >= 1 && AtRest(s) {
      AllDelivered(c, turns, t);
      CountNone(s.workers, Returning(t));
      NoneAppended(s.delivered);
    }
  }

  lemma {:induction false} CountParts(a: seq<Task>, b: seq<Task>, t: Task)
    ensures Count(a + b, Is(t)) == Count(a, Is(t)) + Count(b, Is(t))
    decreases |b|
  {
    if b == [] {
      NoneAppended(a);
    } else {
      CountParts(a, b[..|b| - 1], t);
      assert (a + b)[..|a + b| - 1] == a + b[..|b| - 1];
    }
  }

  // ---------- work runs out ----------

  /** An upper bound for the turns a worker takes before it sleeps, new tasks not counted. */
  function WorkerEffort(pc: WorkerPc): nat {
    match pc
    case Asleep => 0
    case Take => 1
    case Look => 2
    case Woken | Announce => 3
    case Lock => 4
    case Notify => 9
    case Leave => 10
    case Append(_) => 12
    case Finish(_) => 13
    case Work(_) => 14
    case Unlock(_) => 15
  }

  function WorkersEffort(workers: seq<WorkerPc>): nat {
    if workers == [] then 0
    else WorkersEffort(workers[..|workers| - 1]) + WorkerEffort(workers[|workers| - 1])
  }

  function MainEffort(pc: MainPc): nat {
    match pc
    case Free => 0
    case PostReject | PostUnlock | DoneUnlock => 1
    case PostCount | DoneGrab => 2
    case DoneLock => 3
    case PostPush(_) => 18
    case PostSignal(_) => 22
    case PostCheck(_) => 23
    case PostLock(_) => 24
  }

  function Effort(s: State): nat {
    MainEffort(s.main) + WorkersEffort(s.workers) + 15 * |s.queue| + |s.done| + |s.batch|
      + (if s.notified then 4 else 0)
  }

  lemma {:induction false} EffortSet(workers: seq<WorkerPc>, w: nat, pc: WorkerPc)
    requires w < |workers|
    ensures WorkersEffort(workers[w := pc]) == WorkersEffort(workers) - WorkerEffort(workers[w]) + WorkerEffort(pc)
    decreases |workers|
  {
    var n := |workers| - 1;
    if w < n {
      EffortSet(workers[..n], w, pc);
      assert workers[w := pc][..n] == workers[..n][w := pc];
    } else {
      assert workers[w := pc][..n] == workers[..n];
    }
  }

  lemma WorkerSpends(s: State, w: nat)
    requires w < |s.workers| && WorkerStep(s, w) != s
    ensures Effort(WorkerStep(s, w)) < Effort(s)
  {
    var s' := WorkerStep(s, w);
    WorkerShared(s, w);
    EffortSet(s.workers, w, s'.workers[w]);
  }

  lemma MainSpends(c: Config, s: State, choice: Choice, pick: nat)
    requires !choice.Post? && BatchDone(s) && MainStep(c, s, choice, pick) != s
    ensures Effort(MainStep(c, s, choice, pick)) < Effort(s)
  {
    if s.main.PostSignal? && pick < |s.workers| && Sleeps(s.workers[pick]) { EffortSet(s.workers, pick, Woken); }
  }

  /** Every turn that changes anything, other than a new post or a wakeup out of nowhere, uses up
      work: no schedule of such turns goes on for ever. */
  lemma Spends(c: Config, turns: seq<Turn>, turn: Turn)
    requires c.maxQueue >= 0 && Advances(c, Run(c, turns), turn)
    ensures Effort(Run(c, turns + [turn])) < Effort(Run(c, turns))
  {
    RunInv(c, turns);
    assert (turns + [turn])[..|turns|] == turns;
    match turn
    case MainTurn(choice, pick) => MainSpends(c, Run(c, turns), choice, pick);
    case WorkerTurn(w) => WorkerSpends(Run(c, turns), w);
    case Spurious(w) =>
  }

  /** And as long as the pool is not at rest there is such a turn. */
  lemma GoesOn(c: Config, turns: seq<Turn>) returns (turn: Turn)
    requires c.maxQueue >= 0 && !AtRest(Run(c, turns))
    ensures Advances(c, Run(c, turns), turn)
  {
    RunInv(c, turns);
    RunOwned(c, turns);
    turn := SomeAdvances(c, Run(c, turns));
  }

  ghost predicate OwnTurns(more: seq<Turn>) {
    forall k :: 0 <= k < |more| ==> OwnTurn(more[k])
  }

  /** So every run can be finished without any further post: all is delivered that was accepted. */
  lemma {:induction false} Finishes(c: Config, turns: seq<Turn>) returns (more: seq<Turn>)
    requires c.maxQueue >= 0 && c.threads >= 1
    ensures OwnTurns(more) && AtRest(Run(c, turns + more))
    ensures var s := Run(c, turns + more);
      s.active == {} && s.queue == []
      && multiset(s.delivered) == multiset(s.posted)
    decreases Effort(Run(c, turns))
  {
    if AtRest(Run(c, turns)) {
      more := [];
      NoneAppended(turns);
      RestDelivered(c, turns);
    } else {
      var turn := GoesOn(c, turns);
      Spends(c, turns, turn);
      var rest := Finishes(c, turns + [turn]);
      more := [turn] + rest;
      Appended(turns, [turn], rest);
    }
  }

  lemma {:induction false} CountMultiset(s: seq<Task>, t: Task)
    ensures Count(s, Is(t)) == multiset(s)[t]
    decreases |s|
  {
    if s != [] {
      CountMultiset(s[..|s| - 1], t);
      assert s == s[..|s| - 1] + [s[|s| - 1]];
    }
  }

  lemma RestDelivered(c: Config, turns: seq<Turn>)
    requires c.maxQueue >= 0 && c.threads >= 1 && AtRest(Run(c, turns))
    ensures var s := Run(c, turns); s.active == {} && s.queue == [] && multiset(s.delivered) == multiset(s.posted)
  {
    var s := Run(c, turns);
    AllDelivered(c, turns, 0);
    forall t: Task
      ensures t !in s.active && multiset(s.delivered)[t] == multiset(s.posted)[t]
    {
      AllDelivered(c, turns, t);
      CountMultiset(s.delivered, t);
      CountMultiset(s.posted, t);
    }
  }

  // ---------- one task, from post to delivery ----------

  lemma OwnTurnsKeep(c: Config, s: State, turn: Turn)
    requires OwnTurn(turn) && (s.main.Free? || s.main.DoneLock? || s.main.DoneGrab? || s.main.DoneUnlock?)
    ensures var s' := Step(c, s, turn);
      s'.posted == s.posted && (s'.main.Free? || s'.main.DoneLock? || s'.main.DoneGrab? || s'.main.DoneUnlock?)
  {
  }

  lemma {:induction false} NothingPosted(c: Config, s: State, more: seq<Turn>)
    requires OwnTurns(more) && s.main.Free?
    ensures var s' := After(c, s, more);
      s'.posted == s.posted && (s'.main.Free? || s'.main.DoneLock? || s'.main.DoneGrab? || s'.main.DoneUnlock?)
    decreases |more|
  {
    if more != [] {
      NothingPosted(c, s, more[..|more| - 1]);
      OwnTurnsKeep(c, After(c, s, more[..|more| - 1]), more[|more| - 1]);
    }
  }

  /** `n` turns of the main thread. */
  function MainTurns(turn: Turn, n: nat): seq<Turn> {
    if n == 0 then [] else MainTurns(turn, n - 1) + [turn]
  }

  /** What seven turns of the main thread make of a fresh pool. */
  lemma SevenSteps(c: Config, t: Task) returns (s: State)
    requires c.maxQueue >= 1
    ensures var turn := MainTurn(Post(t), 0);
      var s4 := Step(c, Step(c, Step(c, Step(c, Init(c), turn), turn), turn), turn);
      s == Step(c, Step(c, Step(c, s4, turn), turn), turn)
    ensures s.main.Free? && s.posted == [t]
  {
    var turn, s0 := MainTurn(Post(t), 0), Init(c);
    assert forall w :: 0 <= w < |s0.workers| ==> !Sleeps(s0.workers[w]);
    var s4 := Step(c, Step(c, Step(c, Step(c, s0, turn), turn), turn), turn);
    assert s4.main == PostPush(t) && s4.posted == [];
    s := Step(c, Step(c, Step(c, s4, turn), turn), turn);
  }

  /** A task posted to a fresh pool is accepted by the main thread on its own. */
  lemma PostAlone(c: Config, t: Task) returns (turns: seq<Turn>)
    requires c.maxQueue >= 1
    ensures Run(c, turns).main.Free? && Run(c, turns).posted == [t]
  {
    var turn := MainTurn(Post(t), 0);
    turns := MainTurns(turn, 7);
    forall n: nat | n < 7
      ensures Run(c, MainTurns(turn, n + 1)) == Step(c, Run(c, MainTurns(turn, n)), turn)
    {
      RunMore(c, MainTurns(turn, n), turn);
    }
    var s := SevenSteps(c, t);
    assert Run(c, MainTurns(turn, 0 + 1)) == Step(c, Init(c), turn);
    assert Run(c, MainTurns(turn, 1 + 1)) == Step(c, Run(c, MainTurns(turn, 1)), turn);
    assert Run(c, MainTurns(turn, 2 + 1)) == Step(c, Run(c, MainTurns(turn, 2)), turn);
    assert Run(c, MainTurns(turn, 3 + 1)) == Step(c, Run(c, MainTurns(turn, 3)), turn);
    assert Run(c, MainTurns(turn, 4 + 1)) == Step(c, Run(c, MainTurns(turn, 4)), turn);
    assert Run(c, MainTurns(turn, 5 + 1)) == Step(c, Run(c, MainTurns(turn, 5)), turn);
    assert Run(c, MainTurns(turn, 6 + 1)) == s;
  }

  /** A run of one post on a fresh pool: the task is accepted and delivered, once. */
  lemma OnePost(c: Config, t: Task) returns (turns: seq<Turn>)
    requires c.maxQueue >= 1 && c.threads >= 1
    ensures Run(c, turns).posted == Run(c, turns).delivered == [t] && AtRest(Run(c, turns))
  {
    var first := PostAlone(c, t);
    var more := Finishes(c, first);
    turns := first + more;
    RunAfter(c, first, more);
    NothingPosted(c, Run(c, first), more);
    var d := Run(c, turns).delivered;
    assert multiset(d) == multiset{t} && |multiset(d)| == |d|;
    assert d[0] in multiset(d);
  }
}
