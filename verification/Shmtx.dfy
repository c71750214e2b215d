/** The mutex in shared memory: a lock word taken by compare-and-set, and a counter and a
    semaphore to sleep on.  Processes are interleaved one atomic operation at a time. */
module Shmtx {
  import opened Counting

  const MODULUS: int := 0x1_0000_0000_0000_0000
  const HALF: int := 0x8000_0000_0000_0000

  /** A signed quantity in a 64-bit word, and back. */
  function Wrap(x: int): nat {
    x % MODULUS
  }

  function Signed(w: nat): int {
    if w < HALF then w else w - MODULUS
  }

  /** Where a process is: the operation on shared memory it does next.  `left` counts the
      attempts that remain before it goes to sleep. */
  datatype Pc =
    | Idle
    | TryRead | TryCas
    | LockRead(left: nat) | LockCas(left: nat)
    | Register
    | LastRead | LastCas
    | Deregister
    | SemWait
    | Critical
    | WakeRead | WakeCas(seen: nat)
    | Post

  /** `pids` are the process ids, `tries` the attempts on the lock before sleeping, and
      `semaphore` says whether the semaphore could be set up. */
  datatype Config = Config(pids: seq<nat>, tries: nat, semaphore: bool)

  datatype State = State(lock: nat, wait: nat, sem: nat, pcs: seq<Pc>)

  ghost predicate Proper(c: Config) {
    && c.tries >= 1 && |c.pids| < HALF
    && (forall p :: 0 <= p < |c.pids| ==> c.pids[p] != 0)
    && (forall p, q :: 0 <= p < q < |c.pids| ==> c.pids[p] != c.pids[q])
  }

  /** What an idle process decides to do. */
  datatype Call = Lock | TryLock | Unlock

  function Init(c: Config): State {
    State(0, 0, 0, seq(|c.pids|, _ => Idle))
  }

  function Goto(s: State, p: nat, pc: Pc): State
    requires p < |s.pcs|
  {
    s.(pcs := s.pcs[p := pc])
  }

  /** After a failed attempt on the lock. */
  function Missed(c: Config, left: nat): Pc {
    if left > 1 then LockRead(left - 1) else if c.semaphore then Register else LockRead(c.tries)
  }

  /** The release and what follows it. */
  function Release(c: Config, s: State, p: nat): State
    requires p < |s.pcs| == |c.pids|
  {
    if s.lock == c.pids[p] then Goto(s.(lock := 0), p, if c.semaphore then WakeRead else Idle) else Goto(s, p, Idle)
  }

  /** One atomic operation of process `p`; a process that must wait does nothing. */
  function Step(c: Config, s: State, p: nat, call: Call): State
    requires p < |s.pcs| == |c.pids|
  {
    match s.pcs[p]
    case Idle => (
      match call
      case Lock => Goto(s, p, LockRead(c.tries))
      case TryLock => Goto(s, p, TryRead)
      case Unlock => Release(c, s, p))
    case TryRead => Goto(s, p, if s.lock == 0 then TryCas else Idle)
    case TryCas => if s.lock == 0 then Goto(s.(lock := c.pids[p]), p, Critical) else Goto(s, p, Idle)
    case LockRead(left) => Goto(s, p, if s.lock == 0 then LockCas(left) else Missed(c, left))
    case LockCas(left) =>
      if s.lock == 0 then Goto(s.(lock := c.pids[p]), p, Critical) else Goto(s, p, Missed(c, left))
    case Register => Goto(s.(wait := Wrap(s.wait + 1)), p, LastRead)
    case LastRead => Goto(s, p, if s.lock == 0 then LastCas else SemWait)
    case LastCas => if s.lock == 0 then Goto(s.(lock := c.pids[p]), p, Deregister) else Goto(s, p, SemWait)
    case Deregister => Goto(s.(wait := Wrap(s.wait - 1)), p, Critical)
    case SemWait => if s.sem > 0 then Goto(s.(sem := s.sem - 1), p, LockRead(c.tries)) else s
    case Critical => Release(c, s, p)
    case WakeRead => Goto(s, p, if Signed(s.wait) <= 0 then Idle else WakeCas(s.wait))
    case WakeCas(seen) =>
      if s.wait == seen then Goto(s.(wait := Wrap(seen - 1)), p, Post) else Goto(s, p, WakeRead)
    case Post => Goto(s.(sem := s.sem + 1), p, Idle)
  }

  /** A run: whose turn it is, and what it calls if it is idle. */
  datatype Turn = Turn(p: nat, call: Call)

  function Run(c: Config, turns: seq<Turn>): (s: State)
    ensures |s.pcs| == |c.pids|
  {
    if turns == [] then Init(c)
    else
      var s := Run(c, turns[..|turns| - 1]);
      var t := turns[|turns| - 1];
      if t.p < |c.pids| then Step(c, s, t.p, t.call) else s
  }

  // ---------- the invariant ----------

  predicate Holds(pc: Pc) {
    pc.Critical? || pc.Deregister?
  }

  /** Counted in `wait` and not yet woken. */
  predicate Registered(pc: Pc) {
    pc.LastRead? || pc.LastCas? || pc.Deregister? || pc.SemWait?
  }

  predicate Posting(pc: Pc) {
    pc.Post?
  }

  predicate Asleep(pc: Pc) {
    pc.SemWait?
  }

  /** Under way: neither idle nor asleep. */
  predicate Awake(pc: Pc) {
    !pc.Idle? && !pc.SemWait?
  }

  ghost function Surplus(s: State): int {
    Count(s.pcs, Registered) - s.sem - Count(s.pcs, Posting)
  }

  /** `wait` + semaphore + posts in flight == registered waiters, the counter word read as a
      signed number. */
  ghost predicate Balanced(s: State) {
    && Signed(s.wait) == Surplus(s) && s.wait < MODULUS
    && s.sem + Count(s.pcs, Posting) <= |s.pcs|
  }

  ghost predicate OneHolder(c: Config, s: State) {
    && |s.pcs| == |c.pids| && (s.lock == 0 || s.lock in c.pids)
    && forall p {:trigger s.pcs[p]} :: 0 <= p < |s.pcs| ==> (Holds(s.pcs[p]) <==> s.lock == c.pids[p])
  }

  /** Nobody sleeps on a zero semaphore, with the lock free, unless another process is under way. */
  ghost predicate NoLostWakeup(s: State) {
    s.lock == 0 && s.sem == 0 && Count(s.pcs, Asleep) > 0 ==> Count(s.pcs, Awake) > 0
  }

  /** The value a waker saw was positive; without a semaphore nobody goes to sleep. */
  predicate Plausible(c: Config, pc: Pc) {
    && (pc.WakeCas? ==> 0 < pc.seen < HALF)
    && (!c.semaphore ==> !pc.Register? && !Registered(pc))
  }

  ghost predicate AllPlausible(c: Config, s: State) {
    forall p {:trigger s.pcs[p]} :: 0 <= p < |s.pcs| ==> Plausible(c, s.pcs[p])
  }

  ghost predicate Inv(c: Config, s: State) {
    OneHolder(c, s) && Balanced(s) && NoLostWakeup(s) && AllPlausible(c, s)
  }

  lemma CountsAfter(s: State, p: nat, pc: Pc)
    requires p < |s.pcs|
    ensures var t := s.pcs[p := pc];
      && Count(t, Registered) == Count(s.pcs, Registered) - One(Registered(s.pcs[p])) + One(Registered(pc))
      && Count(t, Posting) == Count(s.pcs, Posting) - One(Posting(s.pcs[p])) + One(Posting(pc))
      && Count(t, Asleep) == Count(s.pcs, Asleep) - One(Asleep(s.pcs[p])) + One(Asleep(pc))
      && Count(t, Awake) == Count(s.pcs, Awake) - One(Awake(s.pcs[p])) + One(Awake(pc))
  {
    CountSet(s.pcs, p, pc, Registered);
    CountSet(s.pcs, p, pc, Posting);
    CountSet(s.pcs, p, pc, Asleep);
    CountSet(s.pcs, p, pc, Awake);
  }

  lemma Bounds(s: State)
    ensures Count(s.pcs, Registered) <= |s.pcs|
    ensures Count(s.pcs, Asleep) <= Count(s.pcs, Registered)
    ensures Count(s.pcs, Posting) <= Count(s.pcs, Awake)
  {
    CountBound(s.pcs, Registered);
    CountLess(s.pcs, Asleep, Registered);
    CountLess(s.pcs, Posting, Awake);
  }

  lemma {:induction false} CountLess(t: seq<Pc>, p: Pc -> bool, q: Pc -> bool)
    requires forall x :: p(x) ==> q(x)
    ensures Count(t, p) <= Count(t, q)
    decreases |t|
  {
    if t != [] { CountLess(t[..|t| - 1], p, q); }
  }

  lemma InitInv(c: Config)
    requires Proper(c)
    ensures Inv(c, Init(c))
  {
    var s := Init(c);
    CountNone(s.pcs, Registered);
    CountNone(s.pcs, Posting);
    CountNone(s.pcs, Asleep);
  }

  lemma StepHolder(c: Config, s: State, p: nat, call: Call)
    requires Proper(c) && OneHolder(c, s) && p < |s.pcs|
    ensures OneHolder(c, Step(c, s, p, call))
  {
    var s' := Step(c, s, p, call);
    assert Holds(s.pcs[p]) <==> s.lock == c.pids[p];
    forall q | 0 <= q < |s'.pcs|
      ensures Holds(s'.pcs[q]) <==> s'.lock == c.pids[q]
    {
      assert Holds(s.pcs[q]) <==> s.lock == c.pids[q];
    }
  }

  lemma WrapMove(w: nat, d: int)
    requires w < MODULUS && -1 <= d <= 1 && -HALF <= Signed(w) + d < HALF
    ensures Signed(Wrap(w + d)) == Signed(w) + d && Wrap(w + d) < MODULUS
  {
  }

  /** How much a step changes the counter, the semaphore, the registered waiters and the
      posts in flight: always in balance. */
  lemma StepCounts(c: Config, s: State, p: nat, call: Call) returns (dw: int, ds: int, dr: int, dp: int)
    requires p < |s.pcs| == |c.pids| && s.wait < MODULUS && Plausible(c, s.pcs[p])
    ensures var s' := Step(c, s, p, call);
      && p < |s'.pcs| && s'.pcs == s.pcs[p := s'.pcs[p]]
      && s'.wait == Wrap(s.wait + dw) && s'.sem == s.sem + ds
      && One(Registered(s'.pcs[p])) == One(Registered(s.pcs[p])) + dr
      && One(Posting(s'.pcs[p])) == One(Posting(s.pcs[p])) + dp
    ensures dw == dr - ds - dp && -1 <= dw <= 1 && ds + dp <= 1
    ensures ds + dp == 1 ==> dr == 0 && Signed(s.wait) > 0
  {
    var s' := Step(c, s, p, call);
    var pc := s.pcs[p];
    dw := if pc.Register? then 1 else if pc.Deregister? || s'.pcs[p].Post? then -1 else 0;
    ds := s'.sem - s.sem;
    dr := One(Registered(s'.pcs[p])) - One(Registered(pc));
    dp := One(Posting(s'.pcs[p])) - One(Posting(pc));
  }

  lemma StepBalanced(c: Config, s: State, p: nat, call: Call)
    requires Proper(c) && Inv(c, s) && p < |s.pcs|
    ensures Balanced(Step(c, s, p, call))
  {
    var s' := Step(c, s, p, call);
    var dw, ds, dr, dp := StepCounts(c, s, p, call);
    StillBalanced(s, s', p, dw, ds, dr, dp);
  }

  lemma StillBalanced(s: State, s': State, p: nat, dw: int, ds: int, dr: int, dp: int)
    requires Balanced(s) && |s.pcs| < HALF && p < |s.pcs| && |s'.pcs| == |s.pcs| && s'.pcs == s.pcs[p := s'.pcs[p]]
    requires s'.wait == Wrap(s.wait + dw) && s'.sem == s.sem + ds
    requires One(Registered(s'.pcs[p])) == One(Registered(s.pcs[p])) + dr
    requires One(Posting(s'.pcs[p])) == One(Posting(s.pcs[p])) + dp
    requires dw == dr - ds - dp && -1 <= dw <= 1 && ds + dp <= 1
    requires ds + dp == 1 ==> dr == 0 && Signed(s.wait) > 0
    ensures Balanced(s')
  {
    Bounds(s);
    Bounds(s');
    CountsAfter(s, p, s'.pcs[p]);
    WrapMove(s.wait, dw);
  }

  lemma StepPlausible(c: Config, s: State, p: nat, call: Call)
    requires p < |s.pcs| == |c.pids| && s.wait < MODULUS && Plausible(c, s.pcs[p])
    ensures p < |Step(c, s, p, call).pcs| && Plausible(c, Step(c, s, p, call).pcs[p])
    ensures Step(c, s, p, call).pcs == s.pcs[p := Step(c, s, p, call).pcs[p]]
  {
  }

  /** A step that leaves the lock free and nobody awake has posted, or there was nobody to wake. */
  lemma StepAwake(c: Config, s: State, p: nat, call: Call)
    requires Proper(c) && Inv(c, s) && p < |s.pcs|
    ensures var s' := Step(c, s, p, call);
      || s'.lock != 0 || s'.sem > 0 || Awake(s'.pcs[p]) || (s' == s)
      || (s.pcs[p].WakeRead? && Signed(s.wait) <= 0 && s' == Goto(s, p, Idle))
      || (s.pcs[p].Idle? && s' == Goto(s, p, Idle))
      || (!c.semaphore && Holds(s.pcs[p]))
  {
    assert Holds(s.pcs[p]) <==> s.lock == c.pids[p];
  }

  lemma StepWakeup(c: Config, s: State, p: nat, call: Call)
    requires Proper(c) && Inv(c, s) && p < |s.pcs|
    ensures NoLostWakeup(Step(c, s, p, call))
  {
    var s' := Step(c, s, p, call);
    StepAwake(c, s, p, call);
    var dw, ds, dr, dp := StepCounts(c, s, p, call);
    Bounds(s);
    Bounds(s');
    CountsAfter(s, p, s'.pcs[p]);
    if !c.semaphore {
      StepPlausible(c, s, p, call);
      CountNone(s'.pcs, Asleep);
    }
    if Awake(s'.pcs[p]) { CountOne(s'.pcs, p, Awake); }
  }

  /** Every step of every process keeps the invariant. */
  lemma StepInv(c: Config, s: State, p: nat, call: Call)
    requires Proper(c) && Inv(c, s) && p < |s.pcs|
    ensures Inv(c, Step(c, s, p, call))
  {
    StepHolder(c, s, p, call);
    StepBalanced(c, s, p, call);
    StepPlausible(c, s, p, call);
    StepWakeup(c, s, p, call);
  }

  lemma {:induction false} RunInv(c: Config, turns: seq<Turn>)
    requires Proper(c)
    ensures Inv(c, Run(c, turns))
    decreases |turns|
  {
    if turns == [] {
      InitInv(c);
    } else {
      var before, t := turns[..|turns| - 1], turns[|turns| - 1];
      RunInv(c, before);
      if t.p < |c.pids| { StepInv(c, Run(c, before), t.p, t.call); }
    }
  }

  // ---------- what it means ----------

  /** In no run do two processes hold the lock. */
  lemma MutualExclusion(c: Config, turns: seq<Turn>, p: nat, q: nat)
    requires Proper(c) && p < |c.pids| && q < |c.pids|
    ensures var s := Run(c, turns); Holds(s.pcs[p]) && Holds(s.pcs[q]) ==> p == q
  {
    RunInv(c, turns);
    var s := Run(c, turns);
    assert Holds(s.pcs[p]) <==> s.lock == c.pids[p];
    assert Holds(s.pcs[q]) <==> s.lock == c.pids[q];
  }

  /** The books balance in every run, and the counter never leaves the signed range. */
  lemma WaitersAccounted(c: Config, turns: seq<Turn>)
    requires Proper(c)
    ensures var s := Run(c, turns); var n := |c.pids|;
      && Signed(s.wait) + s.sem + Count(s.pcs, Posting) == Count(s.pcs, Registered)
      && -n <= Signed(s.wait) <= n
  {
    RunInv(c, turns);
    Bounds(Run(c, turns));
  }

  /** In no run is the lock free while every process that is not idle sleeps on a zero
      semaphore. */
  lemma NobodyLeftAsleep(c: Config, turns: seq<Turn>, p: nat)
    requires Proper(c) && p < |c.pids|
    requires var s := Run(c, turns); s.lock == 0 && s.sem == 0 && s.pcs[p] == SemWait
    ensures exists q :: 0 <= q < |c.pids| && Awake(Run(c, turns).pcs[q]) && !Holds(Run(c, turns).pcs[q])
  {
    RunInv(c, turns);
    var s := Run(c, turns);
    CountOne(s.pcs, p, Asleep);
    var q := CountWitness(s.pcs, Awake);
    assert Holds(s.pcs[q]) <==> s.lock == c.pids[q];
  }

  /** A turn of `q` changes something, whatever it calls. */
  ghost predicate Moves(c: Config, s: State, q: nat)
    requires q < |s.pcs| == |c.pids|
  {
    forall call :: Step(c, s, q, call) != s
  }

  /** In no run is everybody stuck: while some process is not idle, some process can go on. */
  lemma NeverStuck(c: Config, turns: seq<Turn>, p: nat)
    requires Proper(c) && p < |c.pids| && Run(c, turns).pcs[p] != Idle
    ensures exists q: nat :: q < |c.pids| && Moves(c, Run(c, turns), q)
  {
    RunInv(c, turns);
    var s := Run(c, turns);
    if s.lock != 0 {
      var q :| 0 <= q < |c.pids| && s.lock == c.pids[q];
      assert Holds(s.pcs[q]) <==> s.lock == c.pids[q];
      StepMoves(c, s, q);
    } else if Awake(s.pcs[p]) || s.sem > 0 {
      StepMoves(c, s, p);
    } else {
      NobodyLeftAsleep(c, turns, p);
      var q :| 0 <= q < |c.pids| && Awake(s.pcs[q]);
      StepMoves(c, s, q);
    }
  }

  /** With the lock free or its own, a process under way has something to do. */
  lemma StepMoves(c: Config, s: State, q: nat)
    requires q < |s.pcs| == |c.pids| && s.wait < MODULUS && Plausible(c, s.pcs[q])
    requires Awake(s.pcs[q]) || (s.pcs[q] == SemWait && s.sem > 0)
    requires s.lock == 0 || (Holds(s.pcs[q]) && s.lock == c.pids[q])
    ensures Moves(c, s, q)
  {
    forall call
      ensures Step(c, s, q, call) != s
    {
      assert Step(c, s, q, call).pcs[q] != s.pcs[q];
    }
  }
}
