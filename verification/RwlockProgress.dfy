/** Who is let in by the reader-writer lock, what leaving it comes to, and that the processes can
    always come to rest. */
module RwlockProgress {
  import opened Common
  import opened Counting
  import opened Rwlock

  /** `n` turns of process `p`, calling `call` whenever it is idle. */
  function Solo(s: State, p: nat, call: Call, n: nat): (s': State)
    requires p < |s.pcs|
    ensures |s'.pcs| == |s.pcs|
    decreases n
  {
    if n == 0 then s else Solo(Step(s, p, call), p, call, n - 1)
  }

  lemma Three(s: State, p: nat, call: Call)
    requires p < |s.pcs|
    ensures Solo(s, p, call, 3) == Step(Step(Step(s, p, call), p, call), p, call)
  {
    var s1 := Step(s, p, call);
    var s2 := Step(s1, p, call);
    assert Solo(s, p, call, 3) == Solo(s1, p, call, 2) == Solo(s2, p, call, 1) == Solo(Step(s2, p, call), p, call, 0);
  }

  /** A run goes on with these turns. */
  lemma {:induction false} SoloRun(n: nat, turns: seq<Turn>, p: nat, call: Call, k: nat)
    requires p < n
    ensures Run(n, turns + seq(k, _ => Turn(p, call))) == Solo(Run(n, turns), p, call, k)
    decreases k
  {
    var more := seq(k, _ => Turn(p, call));
    if k == 0 {
      assert turns + more == turns;
    } else {
      var turns1 := turns + [Turn(p, call)];
      assert turns1[..|turns1| - 1] == turns;
      SoloRun(n, turns1, p, call, k - 1);
      assert turns + more == turns1 + seq(k - 1, _ => Turn(p, call));
    }
  }

  // ---------- who is let in ----------

  /** While no writer is inside, a further reader is let in beside those that are. */
  lemma ReaderJoins(n: nat, turns: seq<Turn>, p: nat)
    requires n < WLOCK && p < n
    requires var s := Run(n, turns); s.pcs[p] == Idle && Count(s.pcs, Writes) == 0
    ensures var s := Run(n, turns);
      Solo(s, p, ReadLock, 3) == s.(word := s.word + 1, pcs := s.pcs[p := Inside(Reader)])
  {
    RunInv(n, turns);
    var s := Run(n, turns);
    Counts(s, p, Inside(Reader));
    JoinSteps(s, p);
  }

  lemma JoinSteps(s: State, p: nat)
    requires p < |s.pcs| && s.pcs[p] == Idle && s.word + 1 < WLOCK
    ensures Solo(s, p, ReadLock, 3) == s.(word := s.word + 1, pcs := s.pcs[p := Inside(Reader)])
  {
    Three(s, p, ReadLock);
    var s1 := Step(s, p, ReadLock);
    var s2 := Step(s1, p, ReadLock);
    assert s2 == s.(pcs := s.pcs[p := ReadCas(s.word)]);
    assert Step(s2, p, ReadLock).pcs == s.pcs[p := Inside(Reader)];
  }

  /** A lock that nobody is in is taken by a writer. */
  lemma WriterEnters(n: nat, turns: seq<Turn>, p: nat)
    requires n < WLOCK && p < n
    requires var s := Run(n, turns); s.pcs[p] == Idle && Count(s.pcs, Holding) == 0
    ensures var s := Run(n, turns);
      Solo(s, p, WriteLock, 3) == s.(word := WLOCK, pcs := s.pcs[p := Inside(Writer)])
  {
    RunInv(n, turns);
    var s := Run(n, turns);
    NobodyInside(s);
    Three(s, p, WriteLock);
    assert Step(Step(Step(s, p, WriteLock), p, WriteLock), p, WriteLock).pcs == s.pcs[p := Inside(Writer)];
  }

  lemma NobodyInside(s: State)
    requires WordExact(s)
    ensures Count(s.pcs, Holding) == 0 <==> Count(s.pcs, Writes) == 0 && Count(s.pcs, Reads) == 0
  {
    HoldingSum(s.pcs);
  }

  lemma {:induction false} HoldingSum(t: seq<Pc>)
    ensures Count(t, Holding) == Count(t, Writes) + Count(t, Reads)
    decreases |t|
  {
    if t != [] { HoldingSum(t[..|t| - 1]); }
  }

  /** While anybody is inside, a writer waits, and changes nothing. */
  lemma {:induction false} WriterWaits(s: State, p: nat, k: nat)
    requires WordExact(s) && p < |s.pcs| && s.pcs[p] in {Idle, WriteRead} && Count(s.pcs, Holding) > 0 && k >= 1
    ensures Solo(s, p, WriteLock, k) == s.(pcs := s.pcs[p := WriteRead])
    decreases k
  {
    NobodyInside(s);
    var s1 := Step(s, p, WriteLock);
    assert s1 == s.(pcs := s.pcs[p := WriteRead]);
    if k > 1 {
      CountSet(s.pcs, p, WriteRead, Writes);
      CountSet(s.pcs, p, WriteRead, Reads);
      CountSet(s.pcs, p, WriteRead, Holding);
      WriterWaits(s1, p, k - 1);
    }
  }

  /** While a writer is inside, a reader waits. */
  lemma {:induction false} ReaderWaits(s: State, p: nat, k: nat)
    requires WordExact(s) && p < |s.pcs| < WLOCK && s.pcs[p] in {Idle, ReadRead} && Count(s.pcs, Writes) > 0 && k >= 1
    ensures Solo(s, p, ReadLock, k) == s.(pcs := s.pcs[p := ReadRead])
    decreases k
  {
    var s1 := Step(s, p, ReadLock);
    assert s1 == s.(pcs := s.pcs[p := ReadRead]);
    if k > 1 {
      CountSet(s.pcs, p, ReadRead, Writes);
      CountSet(s.pcs, p, ReadRead, Reads);
      ReaderWaits(s1, p, k - 1);
    }
  }

  /** The one unlock serves both: a writer leaves the lock free, a reader leaves the others in. */
  lemma Leaves(n: nat, turns: seq<Turn>, p: nat, call: Call)
    requires n < WLOCK && p < n && Run(n, turns).pcs[p].Inside?
    ensures var s := Run(n, turns);
      if s.pcs[p].role == Writer then Solo(s, p, call, 3) == s.(word := 0, pcs := s.pcs[p := Idle])
      else s.word > 0 && Solo(s, p, call, 3) == s.(word := s.word - 1, pcs := s.pcs[p := Idle])
  {
    RunInv(n, turns);
    var s := Run(n, turns);
    HolderWord(s, p);
    Three(s, p, call);
    assert Step(Step(Step(s, p, call), p, call), p, call).pcs == s.pcs[p := Idle];
  }

  // ---------- no call ends early ----------

  predicate Writing(pc: Pc) {
    pc.WriteRead? || pc.WriteCas?
  }

  predicate Reading(pc: Pc) {
    pc.ReadRead? || pc.ReadCas?
  }

  predicate Leaving(pc: Pc) {
    Holding(pc) && !pc.Inside?
  }

  /** A step of `p` to `pc` with the word then being `word`. */
  ghost predicate Turns(s: State, s': State, p: nat, pc: Pc, word: int)
    requires p < |s.pcs|
  {
    s'.word == word && s'.pcs == s.pcs[p := pc]
  }

  /** Whatever the others do, a writer's call ends with all of the lock only. */
  lemma WriterEnds(n: nat, turns: seq<Turn>, p: nat, call: Call)
    requires n < WLOCK && p < n
    ensures var s := Run(n, turns); var s' := Step(s, p, call);
      var pc' := s'.pcs[p];
      && (s.pcs[p] == Idle && call == WriteLock ==> Turns(s, s', p, WriteRead, s.word))
      && (Writing(s.pcs[p]) ==>
          if pc' == Inside(Writer) then s.word == 0 && Turns(s, s', p, pc', WLOCK)
          else Writing(pc') && Turns(s, s', p, pc', s.word))
  {
  }

  /** A reader's call ends inside, with the readers one more. */
  lemma ReaderEnds(n: nat, turns: seq<Turn>, p: nat, call: Call)
    requires n < WLOCK && p < n
    ensures var s := Run(n, turns); var s' := Step(s, p, call);
      var pc' := s'.pcs[p];
      && (s.pcs[p] == Idle && call == ReadLock ==> Turns(s, s', p, ReadRead, s.word))
      && (Reading(s.pcs[p]) ==>
          if pc' == Inside(Reader) then s.word != WLOCK && Turns(s, s', p, pc', s.word + 1)
          else Reading(pc') && Turns(s, s', p, pc', s.word))
  {
    RunInv(n, turns);
    if Reading(Run(n, turns).pcs[p]) {
      ReadersBound(Run(n, turns), p);
      ReaderStep(Run(n, turns), p, call);
    }
  }

  lemma ReadersBound(s: State, p: nat)
    requires WordExact(s) && p < |s.pcs| < WLOCK && Reading(s.pcs[p])
    ensures s.word == WLOCK || s.word + 1 < WLOCK
  {
    Counts(s, p, Inside(Reader));
  }

  lemma ReaderStep(s: State, p: nat, call: Call)
    requires p < |s.pcs| && Reading(s.pcs[p]) && Plausible(s.pcs[p]) && (s.word == WLOCK || s.word + 1 < WLOCK)
    ensures var s' := Step(s, p, call);
      var pc' := s'.pcs[p];
      if pc' == Inside(Reader) then s.word != WLOCK && Turns(s, s', p, pc', s.word + 1)
      else Reading(pc') && Turns(s, s', p, pc', s.word)
  {
  }

  /** An unlock ends with the word changed only. */
  lemma UnlockEnds(n: nat, turns: seq<Turn>, p: nat, call: Call)
    requires n < WLOCK && p < n && Holding(Run(n, turns).pcs[p])
    ensures var s := Run(n, turns); var s' := Step(s, p, call);
      var pc, pc' := s.pcs[p], s'.pcs[p];
      if pc' == Idle then Turns(s, s', p, pc', if pc.role == Writer then 0 else s.word - 1)
      else Leaving(pc') && pc'.role == pc.role && Turns(s, s', p, pc', s.word)
  {
    RunInv(n, turns);
    HolderWord(Run(n, turns), p);
  }

  // ---------- every run can come to rest ----------

  predicate Busy(pc: Pc) {
    pc != Idle
  }

  /** How many turns a process still needs, at most, when nobody stands in its way. */
  function Effort(s: State, pc: Pc): nat {
    match pc
    case Idle => 0
    case UnlockStore(_) => 1
    case UnlockCas(_, readers) => if readers == s.word then 1 else 3
    case UnlockAgain(_) | UnlockRead(_) => 2
    case Inside(_) => 3
    case WriteCas => 4
    case WriteRead | ReadRead => 5
    case ReadCas(readers) => if readers == s.word then 4 else 6
  }

  ghost predicate Clear(s: State, p: nat)
    requires p < |s.pcs|
  {
    s.word == 0 || Holding(s.pcs[p])
  }

  lemma ClearStep(s: State, p: nat)
    requires Inv(s) && p < |s.pcs| < WLOCK && Clear(s, p) && Busy(s.pcs[p])
    ensures var s' := Step(s, p, WriteLock);
      && Inv(s') && s'.pcs == s.pcs[p := s'.pcs[p]] && (s'.pcs[p] == Idle || Clear(s', p))
      && Effort(s', s'.pcs[p]) < Effort(s, s.pcs[p])
  {
    StepInv(s, p, WriteLock);
    HolderWord(s, p);
  }

  lemma {:induction false} Finishes(s: State, p: nat) returns (k: nat)
    requires Inv(s) && p < |s.pcs| < WLOCK && (s.pcs[p] == Idle || Clear(s, p))
    ensures Solo(s, p, WriteLock, k).pcs == s.pcs[p := Idle]
    decreases Effort(s, s.pcs[p])
  {
    if s.pcs[p] == Idle {
      k := 0;
    } else {
      ClearStep(s, p);
      k := Finishes(Step(s, p, WriteLock), p);
      k := k + 1;
    }
  }

  /** Whenever some process is not idle, one of them has its way clear. */
  lemma SomeClear(s: State) returns (p: nat)
    requires WordExact(s) && Count(s.pcs, Busy) > 0
    ensures p < |s.pcs| && Busy(s.pcs[p]) && Clear(s, p)
  {
    NobodyInside(s);
    if Count(s.pcs, Holding) > 0 {
      p := CountWitness(s.pcs, Holding);
    } else {
      p := CountWitness(s.pcs, Busy);
    }
  }

  lemma OneFinishes(n: nat, turns: seq<Turn>) returns (now: seq<Turn>)
    requires n < WLOCK && Count(Run(n, turns).pcs, Busy) > 0
    ensures Count(Run(n, turns + now).pcs, Busy) < Count(Run(n, turns).pcs, Busy)
  {
    RunInv(n, turns);
    var s := Run(n, turns);
    var p := SomeClear(s);
    var k := Finishes(s, p);
    now := seq(k, _ => Turn(p, WriteLock));
    SoloRun(n, turns, p, WriteLock, k);
    CountSet(s.pcs, p, Idle, Busy);
  }

  ghost predicate Resting(s: State) {
    s.word == 0 && forall p :: 0 <= p < |s.pcs| ==> s.pcs[p] == Idle
  }

  lemma AllIdle(s: State)
    requires WordExact(s) && Count(s.pcs, Busy) == 0
    ensures Resting(s)
  {
    forall p | 0 <= p < |s.pcs|
      ensures s.pcs[p] == Idle
    {
      if Busy(s.pcs[p]) { CountOne(s.pcs, p, Busy); }
    }
    CountNone(s.pcs, Writes);
    CountNone(s.pcs, Reads);
  }

  /** Nobody is ever deadlocked: every run can go on so that all calls come to their end and the
      word is 0 again. */
  lemma {:induction false} ComesToRest(n: nat, turns: seq<Turn>) returns (more: seq<Turn>)
    requires n < WLOCK
    ensures Resting(Run(n, turns + more))
    decreases Count(Run(n, turns).pcs, Busy)
  {
    if Count(Run(n, turns).pcs, Busy) == 0 {
      RunInv(n, turns);
      AllIdle(Run(n, turns));
      more := [];
      NoneAppended(turns);
    } else {
      var now := OneFinishes(n, turns);
      var rest := ComesToRest(n, turns + now);
      more := now + rest;
      Appended(turns, now, rest);
    }
  }
}
