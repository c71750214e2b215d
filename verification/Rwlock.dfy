/** The reader-writer lock: one shared word, changed by compare-and-set (and by one plain
    store), with every process interleaved one memory access at a time. */
module Rwlock {
  import opened Counting

  const MODULUS: nat := 0x1_0000_0000_0000_0000
  const WLOCK: nat := 0xFFFF_FFFF_FFFF_FFFF

  /** What an unlocking process holds.  The code does not look at it: it decides by the
      value of the word alone. */
  datatype Role = Writer | Reader

  /** The access a process does next. */
  datatype Pc =
    | Idle
    | WriteRead | WriteCas
    | ReadRead | ReadCas(readers: nat)
    | Inside(role: Role)
    | UnlockRead(role: Role)
    | UnlockStore(role: Role)
    | UnlockCas(role: Role, readers: nat)
    | UnlockAgain(role: Role)

  datatype State = State(word: nat, pcs: seq<Pc>)

  datatype Call = WriteLock | ReadLock

  function Init(n: nat): State {
    State(0, seq(n, _ => Idle))
  }

  function Goto(s: State, p: nat, pc: Pc): State
    requires p < |s.pcs|
  {
    s.(pcs := s.pcs[p := pc])
  }

  /** One memory access of process `p`.  Pauses and yields between attempts do not touch
      the word and are left out. */
  function Step(s: State, p: nat, call: Call): State
    requires p < |s.pcs|
  {
    match s.pcs[p]
    case Idle => Goto(s, p, if call.WriteLock? then WriteRead else ReadRead)
    case WriteRead => Goto(s, p, if s.word == 0 then WriteCas else WriteRead)
    case WriteCas => if s.word == 0 then Goto(s.(word := WLOCK), p, Inside(Writer)) else Goto(s, p, WriteRead)
    case ReadRead => Goto(s, p, if s.word != WLOCK then ReadCas(s.word) else ReadRead)
    case ReadCas(readers) =>
      if s.word == readers then Goto(s.(word := (readers + 1) % MODULUS), p, Inside(Reader)) else Goto(s, p, ReadRead)
    case Inside(role) => Goto(s, p, UnlockRead(role))
    case UnlockRead(role) => Goto(s, p, if s.word == WLOCK then UnlockStore(role) else UnlockCas(role, s.word))
    case UnlockStore(_) => Goto(s.(word := 0), p, Idle)
    case UnlockCas(role, readers) =>
      if s.word == readers then Goto(s.(word := (readers + WLOCK) % MODULUS), p, Idle)
        else Goto(s, p, UnlockAgain(role))
    case UnlockAgain(role) => Goto(s, p, UnlockCas(role, s.word))
  }

  datatype Turn = Turn(p: nat, call: Call)

  function Run(n: nat, turns: seq<Turn>): (s: State)
    ensures |s.pcs| == n
  {
    if turns == [] then Init(n)
    else
      var s := Run(n, turns[..|turns| - 1]);
      var t := turns[|turns| - 1];
      if t.p < n then Step(s, t.p, t.call) else s
  }

  // ---------- the invariant ----------

  predicate Holding(pc: Pc) {
    pc.Inside? || pc.UnlockRead? || pc.UnlockStore? || pc.UnlockCas? || pc.UnlockAgain?
  }

  predicate Writes(pc: Pc) {
    Holding(pc) && pc.role == Writer
  }

  predicate Reads(pc: Pc) {
    Holding(pc) && pc.role == Reader
  }

  /** The word is all ones when there is a writer, and otherwise the number of readers. */
  ghost predicate WordExact(s: State) {
    || (s.word == WLOCK && Count(s.pcs, Writes) == 1 && Count(s.pcs, Reads) == 0)
    || (s.word == Count(s.pcs, Reads) && Count(s.pcs, Writes) == 0)
  }

  /** Values read earlier may be stale, but never the writer's; the way an unlock takes
      agrees with what is held. */
  predicate Plausible(pc: Pc) {
    && (pc.ReadCas? ==> pc.readers < WLOCK)
    && (pc.UnlockStore? ==> pc.role == Writer)
    && (pc.UnlockCas? ==> pc.role == Reader && pc.readers < WLOCK)
    && (pc.UnlockAgain? ==> pc.role == Reader)
  }

  ghost predicate Inv(s: State) {
    WordExact(s) && forall p {:trigger s.pcs[p]} :: 0 <= p < |s.pcs| ==> Plausible(s.pcs[p])
  }

  lemma Counts(s: State, p: nat, pc: Pc)
    requires p < |s.pcs|
    ensures var t := s.pcs[p := pc];
      && Count(t, Writes) == Count(s.pcs, Writes) - One(Writes(s.pcs[p])) + One(Writes(pc))
      && Count(t, Reads) == Count(s.pcs, Reads) - One(Reads(s.pcs[p])) + One(Reads(pc))
      && Count(t, Reads) <= |t|
  {
    CountSet(s.pcs, p, pc, Writes);
    CountSet(s.pcs, p, pc, Reads);
    CountBound(s.pcs[p := pc], Reads);
  }

  /** What a holder tells about the word. */
  lemma HolderWord(s: State, p: nat)
    requires WordExact(s) && p < |s.pcs| < WLOCK
    ensures Writes(s.pcs[p]) ==> s.word == WLOCK
    ensures Reads(s.pcs[p]) ==> 0 < s.word < WLOCK
  {
    CountBound(s.pcs, Reads);
    if Writes(s.pcs[p]) { CountOne(s.pcs, p, Writes); }
    if Reads(s.pcs[p]) { CountOne(s.pcs, p, Reads); }
  }

  lemma StepInv(s: State, p: nat, call: Call)
    requires Inv(s) && p < |s.pcs| < WLOCK
    ensures Inv(Step(s, p, call))
  {
    HolderWord(s, p);
    CountBound(s.pcs, Reads);
    StepPlausible(s, p, call);
    StepWord(s, p, call);
  }

  /** The word stays exact. */
  lemma StepWord(s: State, p: nat, call: Call)
    requires WordExact(s) && p < |s.pcs| < WLOCK && Plausible(s.pcs[p])
    ensures WordExact(Step(s, p, call))
  {
    var s' := Step(s, p, call);
    HolderWord(s, p);
    CountBound(s.pcs, Reads);
    Counts(s, p, s'.pcs[p]);
  }

  lemma StepPlausible(s: State, p: nat, call: Call)
    requires p < |s.pcs| && Plausible(s.pcs[p])
    requires (Writes(s.pcs[p]) ==> s.word == WLOCK) && (Reads(s.pcs[p]) ==> 0 < s.word < WLOCK) && s.word <= WLOCK
    ensures var s' := Step(s, p, call);
      p < |s'.pcs| && s'.pcs == s.pcs[p := s'.pcs[p]] && Plausible(s'.pcs[p])
  {
  }

  /** Every interleaving of fewer processes than the writer's mark keeps the word exact. */
  lemma {:induction false} RunInv(n: nat, turns: seq<Turn>)
    requires n < WLOCK
    ensures Inv(Run(n, turns))
    decreases |turns|
  {
    if turns == [] {
      var s := Init(n);
      CountNone(s.pcs, Writes);
      CountNone(s.pcs, Reads);
    } else {
      var before, t := turns[..|turns| - 1], turns[|turns| - 1];
      RunInv(n, before);
      if t.p < n { StepInv(Run(n, before), t.p, t.call); }
    }
  }

  // ---------- what it means ----------

  /** A writer excludes every other holder. */
  lemma Exclusion(n: nat, turns: seq<Turn>, p: nat, q: nat)
    requires n < WLOCK && p < n && q < n && p != q
    ensures var s := Run(n, turns); Writes(s.pcs[p]) ==> !Holding(s.pcs[q])
  {
    RunInv(n, turns);
    var s := Run(n, turns);
    if Writes(s.pcs[p]) && Holding(s.pcs[q]) {
      CountOne(s.pcs, p, Writes);
      if Writes(s.pcs[q]) {
        if p < q { CountTwo(s.pcs, p, q, Writes); } else { CountTwo(s.pcs, q, p, Writes); }
      } else {
        CountOne(s.pcs, q, Reads);
      }
    }
  }

  /** The word says exactly who is inside. */
  lemma WordTells(n: nat, turns: seq<Turn>)
    requires n < WLOCK
    ensures var s := Run(n, turns);
      && (s.word == WLOCK <==> Count(s.pcs, Writes) == 1 && Count(s.pcs, Reads) == 0)
      && (s.word != WLOCK ==> s.word == Count(s.pcs, Reads) && Count(s.pcs, Writes) == 0)
  {
    RunInv(n, turns);
    CountBound(Run(n, turns).pcs, Reads);
  }
}
