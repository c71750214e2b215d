/** What every call on the mutex comes to when its process has the processor to itself, and that
    the processes can always come to rest. */
module ShmtxProgress {
  import opened Common
  import opened Counting
  import opened Shmtx

  /** `n` turns of process `p`, calling `call` whenever it is idle. */
  function Solo(c: Config, s: State, p: nat, call: Call, n: nat): (s': State)
    requires p < |s.pcs| == |c.pids|
    ensures |s'.pcs| == |s.pcs|
    decreases n
  {
    if n == 0 then s else Solo(c, Step(c, s, p, call), p, call, n - 1)
  }

  /** A run goes on with these turns. */
  lemma {:induction false} SoloRun(c: Config, turns: seq<Turn>, p: nat, call: Call, n: nat)
    requires p < |c.pids|
    ensures Run(c, turns + seq(n, _ => Turn(p, call))) == Solo(c, Run(c, turns), p, call, n)
    decreases n
  {
    var more := seq(n, _ => Turn(p, call));
    if n == 0 {
      assert turns + more == turns;
    } else {
      var turns1 := turns + [Turn(p, call)];
      assert turns1[..|turns1| - 1] == turns;
      SoloRun(c, turns1, p, call, n - 1);
      assert turns + more == turns1 + seq(n - 1, _ => Turn(p, call));
    }
  }

  // ---------- the calls ----------

  /** An unlock frees the lock. */
  lemma UnlockFrees(c: Config, turns: seq<Turn>, p: nat)
    requires Proper(c) && p < |c.pids| && Run(c, turns).pcs[p] == Critical
    ensures var s, s' := Run(c, turns), Run(c, turns + [Turn(p, Unlock)]);
      && s.lock == c.pids[p] && s'.lock == 0
      && s'.pcs == s.pcs[p := if c.semaphore then WakeRead else Idle] && s'.wait == s.wait && s'.sem == s.sem
  {
    RunInv(c, turns);
    var s := Run(c, turns);
    assert Holds(s.pcs[p]) <==> s.lock == c.pids[p];
    assert (turns + [Turn(p, Unlock)])[..|turns|] == turns;
  }

  /** Then it wakes one waiter if there is any that was not woken yet. */
  lemma UnlockWakes(c: Config, turns: seq<Turn>, p: nat)
    requires Proper(c) && p < |c.pids| && Run(c, turns).pcs[p] == WakeRead
    ensures var s := Run(c, turns);
      if Signed(s.wait) > 0 then
        Solo(c, s, p, Unlock, 3) == State(s.lock, s.wait - 1, s.sem + 1, s.pcs[p := Idle])
      else Solo(c, s, p, Unlock, 1) == s.(pcs := s.pcs[p := Idle])
  {
    RunInv(c, turns);
    var s := Run(c, turns);
    if Signed(s.wait) > 0 {
      Three(c, s, p, Unlock);
      WakeSteps(c, s, p);
    } else {
      assert Solo(c, s, p, Unlock, 1) == Solo(c, Step(c, s, p, Unlock), p, Unlock, 0);
    }
  }

  lemma WakeSteps(c: Config, s: State, p: nat)
    requires p < |s.pcs| == |c.pids| && s.pcs[p] == WakeRead && 0 < s.wait < HALF
    ensures var s1 := Step(c, s, p, Unlock);
      Step(c, Step(c, s1, p, Unlock), p, Unlock) == State(s.lock, s.wait - 1, s.sem + 1, s.pcs[p := Idle])
  {
    var s1 := s.(pcs := s.pcs[p := WakeCas(s.wait)]);
    assert Step(c, s, p, Unlock) == s1;
    var s2 := s.(wait := s.wait - 1, pcs := s.pcs[p := Post]);
    assert Step(c, s1, p, Unlock) == s2;
    assert s2.pcs[p := Idle] == s.pcs[p := Idle];
  }

  lemma Three(c: Config, s: State, p: nat, call: Call)
    requires p < |s.pcs| == |c.pids|
    ensures Solo(c, s, p, call, 3) == Step(c, Step(c, Step(c, s, p, call), p, call), p, call)
  {
    var s1 := Step(c, s, p, call);
    var s2 := Step(c, s1, p, call);
    assert Solo(c, s, p, call, 3) == Solo(c, s1, p, call, 2) == Solo(c, s2, p, call, 1);
    assert Solo(c, s2, p, call, 1) == Solo(c, Step(c, s2, p, call), p, call, 0);
  }

  /** A free mutex is taken by a lock. */
  lemma LockTakes(c: Config, turns: seq<Turn>, p: nat)
    requires Proper(c) && p < |c.pids|
    requires var s := Run(c, turns); s.pcs[p] == Idle && s.lock == 0
    ensures var s := Run(c, turns);
      Solo(c, s, p, Lock, 3) == s.(lock := c.pids[p], pcs := s.pcs[p := Critical])
  {
    var s := Run(c, turns);
    var s1 := Step(c, s, p, Lock);
    var s2 := Step(c, s1, p, Lock);
    var s3 := Step(c, s2, p, Lock);
    assert s3.pcs == s.pcs[p := Critical];
    assert Solo(c, s, p, Lock, 3) == Solo(c, s1, p, Lock, 2) == Solo(c, s2, p, Lock, 1) == s3;
  }

  /** And by a trylock. */
  lemma TryLockTakes(c: Config, turns: seq<Turn>, p: nat)
    requires Proper(c) && p < |c.pids|
    requires var s := Run(c, turns); s.pcs[p] == Idle && s.lock == 0
    ensures var s := Run(c, turns);
      Solo(c, s, p, TryLock, 3) == s.(lock := c.pids[p], pcs := s.pcs[p := Critical])
  {
    var s := Run(c, turns);
    var s1 := Step(c, s, p, TryLock);
    var s2 := Step(c, s1, p, TryLock);
    var s3 := Step(c, s2, p, TryLock);
    assert s3.pcs == s.pcs[p := Critical];
    assert Solo(c, s, p, TryLock, 3) == Solo(c, s1, p, TryLock, 2) == Solo(c, s2, p, TryLock, 1) == s3;
  }

  /** A trylock on a mutex that is held fails at once and changes nothing; so does an unlock by a
      process that does not hold it. */
  lemma TryLockFails(c: Config, turns: seq<Turn>, p: nat)
    requires Proper(c) && p < |c.pids|
    requires var s := Run(c, turns); s.pcs[p] == Idle && s.lock != 0
    ensures var s := Run(c, turns); Solo(c, s, p, TryLock, 2) == s && Solo(c, s, p, Unlock, 1) == s
  {
    RunInv(c, turns);
    var s := Run(c, turns);
    assert Holds(s.pcs[p]) <==> s.lock == c.pids[p];
    var s1 := Step(c, s, p, TryLock);
    var s2 := Step(c, s1, p, TryLock);
    assert s2.pcs == s.pcs && Step(c, s, p, Unlock).pcs == s.pcs;
    assert Solo(c, s, p, TryLock, 2) == Solo(c, s1, p, TryLock, 1) == s2;
  }

  /** While the mutex is held, a lock makes `left` attempts in a row. */
  lemma {:induction false} Spins(c: Config, s: State, p: nat, left: nat)
    requires p < |s.pcs| == |c.pids| && s.lock != 0 && c.semaphore && left >= 1 && s.pcs[p] == LockRead(left)
    ensures Solo(c, s, p, Lock, left) == s.(pcs := s.pcs[p := Register])
    decreases left
  {
    var s1 := Step(c, s, p, Lock);
    if left == 1 {
      assert Solo(c, s, p, Lock, 1) == Solo(c, s1, p, Lock, 0) == s1;
    } else {
      Spins(c, s1, p, left - 1);
      assert s1.pcs[p := Register] == s.pcs[p := Register];
    }
  }

  lemma {:induction false} SoloSplit(c: Config, s: State, p: nat, call: Call, n: nat, m: nat)
    requires p < |s.pcs| == |c.pids|
    ensures Solo(c, s, p, call, n + m) == Solo(c, Solo(c, s, p, call, n), p, call, m)
    decreases n
  {
    if n > 0 { SoloSplit(c, Step(c, s, p, call), p, call, n - 1, m); }
  }

  /** A process that registers while the mutex is held goes to sleep. */
  lemma Sleeps(c: Config, s: State, p: nat)
    requires p < |s.pcs| == |c.pids| && s.lock != 0 && s.pcs[p] == Register
    ensures Solo(c, s, p, Lock, 2) == s.(wait := Wrap(s.wait + 1), pcs := s.pcs[p := SemWait])
  {
    var s1 := Step(c, s, p, Lock);
    var s2 := Step(c, s1, p, Lock);
    assert Solo(c, s, p, Lock, 2) == Solo(c, s1, p, Lock, 1) == s2;
    assert s2.pcs == s.pcs[p := SemWait];
  }

  lemma WaitCounts(s: State, p: nat)
    requires Balanced(s) && p < |s.pcs| < HALF && s.pcs[p] == Idle
    ensures Signed(Wrap(s.wait + 1)) == Signed(s.wait) + 1
  {
    Bounds(s);
    CountSet(s.pcs, p, LastRead, Registered);
    CountBound(s.pcs[p := LastRead], Registered);
    WrapMove(s.wait, 1);
  }

  /** A lock on a mutex that is held makes its attempts, counts itself as a waiter, tries once
      more, and sleeps. */
  lemma LockSleeps(c: Config, turns: seq<Turn>, p: nat)
    requires Proper(c) && p < |c.pids| && c.semaphore
    requires var s := Run(c, turns); s.pcs[p] == Idle && s.lock != 0
    ensures var s := Run(c, turns);
      && Solo(c, s, p, Lock, c.tries + 3) == s.(wait := Wrap(s.wait + 1), pcs := s.pcs[p := SemWait])
      && Signed(Wrap(s.wait + 1)) == Signed(s.wait) + 1
  {
    RunInv(c, turns);
    var s := Run(c, turns);
    WaitCounts(s, p);
    var s1 := Step(c, s, p, Lock);
    Spins(c, s1, p, c.tries);
    SoloSplit(c, s1, p, Lock, c.tries, 2);
    var s2 := s1.(pcs := s1.pcs[p := Register]);
    Sleeps(c, s2, p);
    assert s2.pcs[p := SemWait] == s.pcs[p := SemWait];
  }

  /** A sleeper that has been posted for wakes and starts over. */
  lemma SleeperWakes(c: Config, turns: seq<Turn>, p: nat)
    requires Proper(c) && p < |c.pids|
    requires var s := Run(c, turns); s.pcs[p] == SemWait && s.sem > 0
    ensures var s := Run(c, turns);
      Solo(c, s, p, Lock, 1) == s.(sem := s.sem - 1, pcs := s.pcs[p := LockRead(c.tries)])
  {
    var s := Run(c, turns);
    assert Solo(c, s, p, Lock, 1) == Solo(c, Step(c, s, p, Lock), p, Lock, 0);
  }

  // ---------- no call ends early ----------

  /** In a call of lock that does not have the mutex yet. */
  predicate Locking(pc: Pc) {
    pc.LockRead? || pc.LockCas? || pc.Register? || pc.LastRead? || pc.LastCas? || pc.SemWait?
  }

  /** A step of `p` to `pc` that leaves all but the lock word alone. */
  ghost predicate Turns(s: State, s': State, p: nat, pc: Pc, lock: nat)
    requires p < |s.pcs|
  {
    s' == s.(lock := lock, pcs := s.pcs[p := pc])
  }

  /** Whatever the others do, a call of lock ends with the mutex only. */
  lemma LockEnds(c: Config, turns: seq<Turn>, p: nat, call: Call)
    requires Proper(c) && p < |c.pids|
    ensures var s := Run(c, turns); var s' := Step(c, s, p, call);
      var pc' := s'.pcs[p];
      && (s.pcs[p] == Idle && call == Lock ==> Turns(s, s', p, LockRead(c.tries), s.lock))
      && (Locking(s.pcs[p]) ==>
          (Locking(pc') && s'.lock == s.lock) || (Holds(pc') && s.lock == 0 && Turns(s, s', p, pc', c.pids[p])))
      && (s.pcs[p] == Deregister ==> pc' == Critical && s'.lock == s.lock)
  {
  }

  /** A trylock ends with the mutex, or without it at a moment when it is held. */
  lemma TryLockEnds(c: Config, turns: seq<Turn>, p: nat, call: Call)
    requires Proper(c) && p < |c.pids|
    ensures var s := Run(c, turns); var s' := Step(c, s, p, call);
      var pc' := s'.pcs[p];
      && (s.pcs[p] == Idle && call == TryLock ==> Turns(s, s', p, TryRead, s.lock))
      && (s.pcs[p] == TryRead ==> Turns(s, s', p, if s.lock == 0 then TryCas else Idle, s.lock))
      && (s.pcs[p] == TryCas ==>
          if s.lock == 0 then Turns(s, s', p, Critical, c.pids[p]) else Turns(s, s', p, Idle, s.lock))
  {
  }

  /** An attempt that loses the race for a free mutex counts like one that finds it held. */
  lemma LostRace(c: Config, s: State, p: nat, left: nat, call: Call)
    requires p < |s.pcs| == |c.pids| && s.pcs[p] == LockCas(left) && s.lock != 0
    ensures Step(c, s, p, call) == Step(c, s.(pcs := s.pcs[p := LockRead(left)]), p, call)
  {
    assert s.pcs[p := LockRead(left)][p := Missed(c, left)] == s.pcs[p := Missed(c, left)];
  }

  // ---------- every run can come to rest ----------

  predicate Busy(pc: Pc) {
    pc != Idle
  }

  /** How many turns a process still needs, at most, when nobody stands in its way. */
  function Effort(s: State, pc: Pc): nat {
    match pc
    case Idle => 0
    case Post => 1
    case WakeCas(seen) => if seen == s.wait then 2 else 4
    case WakeRead => 3
    case Critical => 5
    case Deregister | LockCas(_) | TryCas => 6
    case LockRead(_) | TryRead | LastCas => 7
    case LastRead | SemWait => 8
    case Register => 9
  }

  /** The lock is free or held by `p` itself, and `p` need not sleep. */
  ghost predicate Clear(s: State, p: nat)
    requires p < |s.pcs|
  {
    (s.lock == 0 || Holds(s.pcs[p])) && (s.pcs[p] == SemWait ==> s.sem > 0)
  }

  lemma ClearStep(c: Config, s: State, p: nat)
    requires Proper(c) && Inv(c, s) && p < |s.pcs| && Clear(s, p) && Busy(s.pcs[p])
    ensures var s' := Step(c, s, p, Unlock);
      && Inv(c, s') && s'.pcs == s.pcs[p := s'.pcs[p]] && Clear(s', p)
      && Effort(s', s'.pcs[p]) < Effort(s, s.pcs[p])
  {
    StepInv(c, s, p, Unlock);
    StepPlausible(c, s, p, Unlock);
    assert Holds(s.pcs[p]) <==> s.lock == c.pids[p];
    var s' := Step(c, s, p, Unlock);
    assert s'.pcs[p] != SemWait;
  }

  /** Then it gets to the end of its call, and has let the lock go. */
  lemma {:induction false} Finishes(c: Config, s: State, p: nat) returns (n: nat)
    requires Proper(c) && Inv(c, s) && p < |s.pcs| && Clear(s, p)
    ensures var s' := Solo(c, s, p, Unlock, n);
      Inv(c, s') && s'.pcs == s.pcs[p := Idle] && s'.lock == 0
    decreases Effort(s, s.pcs[p])
  {
    if s.pcs[p] == Idle {
      assert Holds(s.pcs[p]) <==> s.lock == c.pids[p];
      n := 0;
    } else {
      ClearStep(c, s, p);
      n := Finishes(c, Step(c, s, p, Unlock), p);
      n := n + 1;
    }
  }

  /** Whenever some process is not idle, one of them has its way clear. */
  lemma SomeClear(c: Config, s: State) returns (p: nat)
    requires Proper(c) && Inv(c, s) && Count(s.pcs, Busy) > 0
    ensures p < |s.pcs| && Busy(s.pcs[p]) && Clear(s, p)
  {
    if s.lock != 0 {
      p :| p < |c.pids| && c.pids[p] == s.lock;
      assert Holds(s.pcs[p]) <==> s.lock == c.pids[p];
    } else if Count(s.pcs, Awake) > 0 {
      p := CountWitness(s.pcs, Awake);
    } else {
      p := CountWitness(s.pcs, Busy);
      if Awake(s.pcs[p]) { CountOne(s.pcs, p, Awake); }
      CountOne(s.pcs, p, Asleep);
    }
  }

  ghost predicate Resting(s: State) {
    s.lock == 0 && forall p :: 0 <= p < |s.pcs| ==> s.pcs[p] == Idle
  }

  lemma AllIdle(c: Config, s: State)
    requires OneHolder(c, s) && Count(s.pcs, Busy) == 0
    ensures Resting(s)
  {
    forall p | 0 <= p < |s.pcs|
      ensures s.pcs[p] == Idle
    {
      if Busy(s.pcs[p]) { CountOne(s.pcs, p, Busy); }
    }
    if s.lock != 0 {
      var p :| 0 <= p < |c.pids| && c.pids[p] == s.lock;
      assert Holds(s.pcs[p]) <==> s.lock == c.pids[p];
    }
  }

  /** One process more gets to the end of its call. */
  lemma OneFinishes(c: Config, turns: seq<Turn>) returns (now: seq<Turn>)
    requires Proper(c) && Count(Run(c, turns).pcs, Busy) > 0
    ensures Count(Run(c, turns + now).pcs, Busy) < Count(Run(c, turns).pcs, Busy)
  {
    RunInv(c, turns);
    var s := Run(c, turns);
    var p := SomeClear(c, s);
    var n := Finishes(c, s, p);
    now := seq(n, _ => Turn(p, Unlock));
    SoloRun(c, turns, p, Unlock, n);
    CountSet(s.pcs, p, Idle, Busy);
  }

  /** Nobody is ever deadlocked: every run can go on so that all calls come to their end and the
      lock is free. */
  lemma {:induction false} ComesToRest(c: Config, turns: seq<Turn>) returns (more: seq<Turn>)
    requires Proper(c)
    ensures Resting(Run(c, turns + more))
    decreases Count(Run(c, turns).pcs, Busy)
  {
    if Count(Run(c, turns).pcs, Busy) == 0 {
      RunInv(c, turns);
      AllIdle(c, Run(c, turns));
      more := [];
      NoneAppended(turns);
    } else {
      var now := OneFinishes(c, turns);
      var rest := ComesToRest(c, turns + now);
      more := now + rest;
      Appended(turns, now, rest);
    }
  }
}
