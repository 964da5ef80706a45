/** The readers-writers lock built from three POSIX semaphores (task11/rwlock.c), as an
    interleaving of any number of processes. One step is one semaphore operation, one load or
    one store of `rdcount`, or the start of a call. */
module PosixRwLock {
  import opened Tally
  import opened Wrappers
  import Abs = AbstractRwLock

  /** Where a process stands: the statement it runs next. Numbers are lines of task11/rwlock.c. */
  datatype Pc =
    | Idle                 // outside the lock, about to call lock
    | RdWaitTurnstile      // 30
    | RdPostTurnstile      // 31
    | RdWaitCount          // 33
    | RdLoad               // 35, read rdcount
    | RdStore(seen: nat)   // 35, write rdcount and compare
    | RdWaitWrite          // 36
    | RdPostCount          // 39
    | Reading              // read lock held
    | ExWaitCount          // 43
    | ExLoad               // 45, read rdcount
    | ExStore(seen: nat)   // 45, write rdcount and compare
    | ExPostWrite          // 46
    | ExPostCount          // 49
    | WrWaitTurnstile      // 53
    | WrWaitWrite          // 54
    | Writing              // write lock held
    | WrPostTurnstile      // 58
    | WrPostWrite          // 59

  datatype Call = ReadLock | WriteLock

  /** One scheduling decision: which process moves, and what it calls if it is idle. */
  datatype Move = Move(p: nat, call: Call)

  datatype State = State(pcs: seq<Pc>, rdcount: nat, readSem: nat, writeSem: nat, rdcountSem: nat)

  const SIZE_MAX: nat := 0xFFFF_FFFF_FFFF_FFFF

  /** `--` on a size_t: decrementing zero wraps around. */
  function Decrement(n: nat): nat {
    if n == 0 then SIZE_MAX else n - 1
  }

  function Init(n: nat): State {
    State(seq(n, _ => Idle), 0, 1, 1, 1)
  }

  /** Only the waits on a semaphore can block. */
  predicate Enabled(s: State, p: nat) {
    p < |s.pcs| &&
    match s.pcs[p]
    case RdWaitTurnstile => s.readSem > 0
    case RdWaitCount => s.rdcountSem > 0
    case RdWaitWrite => s.writeSem > 0
    case ExWaitCount => s.rdcountSem > 0
    case WrWaitTurnstile => s.readSem > 0
    case WrWaitWrite => s.writeSem > 0
    case _ => true
  }

  function Next(s: State, m: Move): (t: State)
    requires Enabled(s, m.p)
    ensures |t.pcs| == |s.pcs|
  {
    var p := m.p;
    match s.pcs[p]
    case Idle =>
      s.(pcs := s.pcs[p := if m.call.ReadLock? then RdWaitTurnstile else WrWaitTurnstile])
    case RdWaitTurnstile => s.(pcs := s.pcs[p := RdPostTurnstile], readSem := s.readSem - 1)
    case RdPostTurnstile => s.(pcs := s.pcs[p := RdWaitCount], readSem := s.readSem + 1)
    case RdWaitCount => s.(pcs := s.pcs[p := RdLoad], rdcountSem := s.rdcountSem - 1)
    case RdLoad => s.(pcs := s.pcs[p := RdStore(s.rdcount)])
    case RdStore(seen) =>
      s.(pcs := s.pcs[p := if seen + 1 == 1 then RdWaitWrite else RdPostCount], rdcount := seen + 1)
    case RdWaitWrite => s.(pcs := s.pcs[p := RdPostCount], writeSem := s.writeSem - 1)
    case RdPostCount => s.(pcs := s.pcs[p := Reading], rdcountSem := s.rdcountSem + 1)
    case Reading => s.(pcs := s.pcs[p := ExWaitCount])
    case ExWaitCount => s.(pcs := s.pcs[p := ExLoad], rdcountSem := s.rdcountSem - 1)
    case ExLoad => s.(pcs := s.pcs[p := ExStore(s.rdcount)])
    case ExStore(seen) =>
      s.(pcs := s.pcs[p := if Decrement(seen) == 0 then ExPostWrite else ExPostCount],
         rdcount := Decrement(seen))
    case ExPostWrite => s.(pcs := s.pcs[p := ExPostCount], writeSem := s.writeSem + 1)
    case ExPostCount => s.(pcs := s.pcs[p := Idle], rdcountSem := s.rdcountSem + 1)
    case WrWaitTurnstile => s.(pcs := s.pcs[p := WrWaitWrite], readSem := s.readSem - 1)
    case WrWaitWrite => s.(pcs := s.pcs[p := Writing], writeSem := s.writeSem - 1)
    case Writing => s.(pcs := s.pcs[p := WrPostTurnstile])
    case WrPostTurnstile => s.(pcs := s.pcs[p := WrPostWrite], readSem := s.readSem + 1)
    case WrPostWrite => s.(pcs := s.pcs[p := Idle], writeSem := s.writeSem + 1)
  }

  predicate Schedulable(s: State, run: seq<Move>)
    decreases |run|
  {
    run == [] || (Enabled(s, run[0].p) && Schedulable(Next(s, run[0]), run[1..]))
  }

  function After(s: State, run: seq<Move>): State
    requires Schedulable(s, run)
    decreases |run|
  {
    if run == [] then s else After(Next(s, run[0]), run[1..])
  }

  // ---- the invariant: every semaphore value is a count of processes ----

  function HoldsTurnstile(pc: Pc): nat {
    if pc.RdPostTurnstile? || pc.WrWaitWrite? || pc.Writing? || pc.WrPostTurnstile? then 1 else 0
  }

  function HoldsCount(pc: Pc): nat {
    if pc.RdLoad? || pc.RdStore? || pc.RdWaitWrite? || pc.RdPostCount?
       || pc.ExLoad? || pc.ExStore? || pc.ExPostWrite? || pc.ExPostCount? then 1 else 0
  }

  /** Readers that `rdcount` counts: between the two stores. */
  function Counted(pc: Pc): nat {
    if pc.RdWaitWrite? || pc.RdPostCount? || pc.Reading?
       || pc.ExWaitCount? || pc.ExLoad? || pc.ExStore? then 1 else 0
  }

  function HoldsWrite(pc: Pc): nat {
    if pc.Writing? || pc.WrPostTurnstile? || pc.WrPostWrite? then 1 else 0
  }

  function FirstReaderWaits(pc: Pc): nat { if pc.RdWaitWrite? then 1 else 0 }

  function LastReaderLeaves(pc: Pc): nat { if pc.ExPostWrite? then 1 else 0 }

  /** What the holder of `rdcountSem` knows about `rdcount`. */
  predicate KnowsCount(pc: Pc, rdcount: nat) {
    match pc
    case RdStore(seen) => seen == rdcount
    case ExStore(seen) => seen == rdcount
    case RdWaitWrite => rdcount == 1
    case ExPostWrite => rdcount == 0
    case _ => true
  }

  /** The readers hold `writeSem` together, from line 36 of the first to line 46 of the last. */
  ghost predicate WriteSemCounts(s: State) {
    s.writeSem + Sum(s.pcs, HoldsWrite) + (if s.rdcount > 0 then 1 else 0)
      + Sum(s.pcs, LastReaderLeaves) == 1 + Sum(s.pcs, FirstReaderWaits)
  }

  ghost predicate Inv(s: State) {
    && s.readSem + Sum(s.pcs, HoldsTurnstile) == 1
    && s.rdcountSem + Sum(s.pcs, HoldsCount) == 1
    && s.rdcount == Sum(s.pcs, Counted)
    && WriteSemCounts(s)
    && forall p :: 0 <= p < |s.pcs| ==> KnowsCount(s.pcs[p], s.rdcount)
  }

  lemma {:induction false} InitSums(n: nat, weight: Pc -> nat)
    requires weight(Idle) == 0
    ensures Sum(Init(n).pcs, weight) == 0
  {
    SumBound(Init(n).pcs, weight, 0);
  }

  lemma InitInv(n: nat)
    ensures Inv(Init(n))
  {
    InitSums(n, HoldsTurnstile);
    InitSums(n, HoldsCount);
    InitSums(n, Counted);
    InitSums(n, HoldsWrite);
    InitSums(n, FirstReaderWaits);
    InitSums(n, LastReaderLeaves);
  }

  /** At most one process is inside the section that `rdcountSem` guards. */
  lemma CountHolderUnique(s: State, p: nat, q: nat)
    requires Inv(s) && p < |s.pcs| && q < |s.pcs| && p != q && HoldsCount(s.pcs[p]) == 1
    ensures HoldsCount(s.pcs[q]) == 0
  {
    SumTwoMembers(s.pcs, if p < q then p else q, if p < q then q else p, HoldsCount);
  }

  lemma TurnstileStep(s: State, m: Move)
    requires Inv(s) && Enabled(s, m.p)
    ensures Next(s, m).readSem + Sum(Next(s, m).pcs, HoldsTurnstile) == 1
  {
    SumUpdate(s.pcs, m.p, Next(s, m).pcs[m.p], HoldsTurnstile);
  }

  lemma CountSemStep(s: State, m: Move)
    requires Inv(s) && Enabled(s, m.p)
    ensures Next(s, m).rdcountSem + Sum(Next(s, m).pcs, HoldsCount) == 1
  {
    SumUpdate(s.pcs, m.p, Next(s, m).pcs[m.p], HoldsCount);
  }

  lemma CountStep(s: State, m: Move)
    requires Inv(s) && Enabled(s, m.p)
    ensures Next(s, m).rdcount == Sum(Next(s, m).pcs, Counted)
  {
    assert KnowsCount(s.pcs[m.p], s.rdcount);
    SumUpdate(s.pcs, m.p, Next(s, m).pcs[m.p], Counted);
  }

  lemma WriteSemSums(s: State, m: Move)
    requires Enabled(s, m.p)
    ensures var t := Next(s, m);
            && Sum(t.pcs, HoldsWrite) + HoldsWrite(s.pcs[m.p]) == Sum(s.pcs, HoldsWrite) + HoldsWrite(t.pcs[m.p])
            && Sum(t.pcs, FirstReaderWaits) + FirstReaderWaits(s.pcs[m.p])
                 == Sum(s.pcs, FirstReaderWaits) + FirstReaderWaits(t.pcs[m.p])
            && Sum(t.pcs, LastReaderLeaves) + LastReaderLeaves(s.pcs[m.p])
                 == Sum(s.pcs, LastReaderLeaves) + LastReaderLeaves(t.pcs[m.p])
  {
    var pc := Next(s, m).pcs[m.p];
    SumUpdate(s.pcs, m.p, pc, HoldsWrite);
    SumUpdate(s.pcs, m.p, pc, FirstReaderWaits);
    SumUpdate(s.pcs, m.p, pc, LastReaderLeaves);
  }

  lemma WriteSemStep(s: State, m: Move)
    requires Inv(s) && Enabled(s, m.p)
    ensures WriteSemCounts(Next(s, m))
  {
    assert KnowsCount(s.pcs[m.p], s.rdcount);
    SumMember(s.pcs, m.p, Counted);
    WriteSemSums(s, m);
  }

  lemma KnowledgeStep(s: State, m: Move, q: nat)
    requires Inv(s) && Enabled(s, m.p) && q < |s.pcs|
    ensures KnowsCount(Next(s, m).pcs[q], Next(s, m).rdcount)
  {
    assert KnowsCount(s.pcs[q], s.rdcount);
    if q != m.p && HoldsCount(s.pcs[m.p]) == 1 {
      CountHolderUnique(s, m.p, q);
    }
  }

  /** The invariant is inductive. */
  lemma InvStep(s: State, m: Move)
    requires Inv(s) && Enabled(s, m.p)
    ensures Inv(Next(s, m))
  {
    TurnstileStep(s, m);
    CountSemStep(s, m);
    CountStep(s, m);
    WriteSemStep(s, m);
    forall q | 0 <= q < |Next(s, m).pcs|
      ensures KnowsCount(Next(s, m).pcs[q], Next(s, m).rdcount)
    {
      KnowledgeStep(s, m, q);
    }
  }

  lemma {:induction false} InvRun(s: State, run: seq<Move>)
    requires Inv(s) && Schedulable(s, run)
    ensures Inv(After(s, run)) && |After(s, run).pcs| == |s.pcs|
    decreases |run|
  {
    if run != [] {
      InvStep(s, run[0]);
      InvRun(Next(s, run[0]), run[1..]);
    }
  }

  // ---- safety ----

  predicate InsideWrite(pc: Pc) { HoldsWrite(pc) == 1 }

  /** The reader owns the lock from its return of read_lock until its store of line 45. */
  predicate InsideRead(pc: Pc) {
    pc.Reading? || pc.ExWaitCount? || pc.ExLoad? || pc.ExStore?
  }

  lemma ExclusionFromInv(s: State, p: nat, q: nat)
    requires Inv(s) && p < |s.pcs| && q < |s.pcs| && p != q && InsideWrite(s.pcs[p])
    ensures !InsideWrite(s.pcs[q]) && !InsideRead(s.pcs[q])
  {
    SumMember(s.pcs, p, HoldsWrite);
    SumMember(s.pcs, q, Counted);
    if InsideWrite(s.pcs[q]) {
      SumTwoMembers(s.pcs, if p < q then p else q, if p < q then q else p, HoldsWrite);
    }
    if Sum(s.pcs, FirstReaderWaits) > 0 {
      var f := SumWitness(s.pcs, FirstReaderWaits);
      SumMonotone(s.pcs, FirstReaderWaits, HoldsCount);
      if q != f {
        SumTwoMembers(s.pcs, if f < q then f else q, if f < q then q else f, Counted);
      }
    }
  }

  /** What a process finds that has got the read lock. */
  ghost predicate ReadersOnly(s: State) {
    && s.rdcount > 0 && s.writeSem == 0
    && forall q :: 0 <= q < |s.pcs| ==> !InsideWrite(s.pcs[q])
  }

  /** What a process finds that has got the write lock. */
  ghost predicate Alone(s: State, p: nat) {
    && s.readSem == 0 && s.writeSem == 0
    && forall q :: 0 <= q < |s.pcs| && q != p ==> !InsideWrite(s.pcs[q]) && !InsideRead(s.pcs[q])
  }

  lemma ReaderSeesReaders(s: State, p: nat)
    requires Inv(s) && p < |s.pcs| && s.pcs[p].Reading?
    ensures ReadersOnly(s)
  {
    SumMember(s.pcs, p, Counted);
    forall q | 0 <= q < |s.pcs|
      ensures !InsideWrite(s.pcs[q])
    {
      if InsideWrite(s.pcs[q]) {
        ExclusionFromInv(s, q, p);
      }
    }
    if Sum(s.pcs, FirstReaderWaits) > 0 {
      var f := SumWitness(s.pcs, FirstReaderWaits);
      assert KnowsCount(s.pcs[f], s.rdcount);
      SumTwoMembers(s.pcs, if f < p then f else p, if f < p then p else f, Counted);
    }
  }

  lemma WriteSemTaken(s: State, p: nat)
    requires Inv(s) && p < |s.pcs| && InsideWrite(s.pcs[p])
    ensures s.writeSem == 0
  {
    SumMember(s.pcs, p, HoldsWrite);
    if Sum(s.pcs, FirstReaderWaits) > 0 {
      var f := SumWitness(s.pcs, FirstReaderWaits);
      SumMember(s.pcs, f, Counted);
      SumMonotone(s.pcs, FirstReaderWaits, HoldsCount);
    }
  }

  lemma WriterIsAlone(s: State, p: nat)
    requires Inv(s) && p < |s.pcs| && s.pcs[p].Writing?
    ensures Alone(s, p)
  {
    SumMember(s.pcs, p, HoldsTurnstile);
    WriteSemTaken(s, p);
    forall q | 0 <= q < |s.pcs| && q != p
      ensures !InsideWrite(s.pcs[q]) && !InsideRead(s.pcs[q])
    {
      ExclusionFromInv(s, p, q);
    }
  }

  /** Mutual exclusion on every run of any number of processes: a process between the wait of
      line 54 and the post of line 59 excludes every other writer and every reader. */
  lemma MutualExclusion(n: nat, run: seq<Move>, p: nat, q: nat)
    requires Schedulable(Init(n), run) && p < n && q < n && p != q
    ensures |After(Init(n), run).pcs| == n
    ensures InsideWrite(After(Init(n), run).pcs[p]) ==>
              !InsideWrite(After(Init(n), run).pcs[q]) && !InsideRead(After(Init(n), run).pcs[q])
  {
    InitInv(n);
    InvRun(Init(n), run);
    var s := After(Init(n), run);
    if InsideWrite(s.pcs[p]) {
      ExclusionFromInv(s, p, q);
    }
  }

  lemma SemaphoresAreBinary(s: State)
    requires Inv(s)
    ensures s.readSem <= 1 && s.writeSem <= 1 && s.rdcountSem <= 1
  {
    if Sum(s.pcs, FirstReaderWaits) > 0 {
      var f := SumWitness(s.pcs, FirstReaderWaits);
      assert KnowsCount(s.pcs[f], s.rdcount);
      SumMonotone(s.pcs, FirstReaderWaits, HoldsCount);
    }
  }

  /** No update of `rdcount` is lost although load and store are separate: it is always the
      number of readers between the two stores, the store at line 45 never decrements zero, and
      each semaphore stays binary. */
  lemma CountIsExact(n: nat, run: seq<Move>, p: nat)
    requires Schedulable(Init(n), run) && p < n
    ensures var s := After(Init(n), run);
            && |s.pcs| == n
            && s.rdcount == Sum(s.pcs, Counted) <= n
            && (s.pcs[p].ExStore? ==> s.pcs[p].seen > 0 && s.pcs[p].seen == s.rdcount)
            && s.readSem <= 1 && s.writeSem <= 1 && s.rdcountSem <= 1
  {
    InitInv(n);
    InvRun(Init(n), run);
    var s := After(Init(n), run);
    SumBound(s.pcs, Counted, 1);
    SumMember(s.pcs, p, Counted);
    assert KnowsCount(s.pcs[p], s.rdcount);
    SemaphoresAreBinary(s);
  }

  // ---- progress ----

  /** The process is executing one of the four lock functions. */
  predicate InCall(pc: Pc) { !pc.Idle? && !pc.Reading? && !pc.Writing? }

  /** The process that keeps another one waiting for `writeSem`. */
  lemma WriteSemBlocker(s: State) returns (q: nat)
    requires Inv(s) && s.writeSem == 0
    ensures q < |s.pcs|
    ensures var pc := s.pcs[q];
            InsideWrite(pc) || InsideRead(pc) || pc.RdPostCount? || pc.ExPostWrite?
  {
    if Sum(s.pcs, HoldsWrite) > 0 {
      q := SumWitness(s.pcs, HoldsWrite);
    } else if Sum(s.pcs, LastReaderLeaves) > 0 {
      q := SumWitness(s.pcs, LastReaderLeaves);
    } else {
      q := SumWitness(s.pcs, Counted);
      if s.pcs[q].RdWaitWrite? {
        SumMember(s.pcs, q, FirstReaderWaits);
      }
    }
  }

  /** Whoever waits, some process inside the lock's functions or holding the lock can move. */
  lemma WaitersAreServed(s: State, p: nat) returns (q: nat)
    requires Inv(s) && p < |s.pcs| && InCall(s.pcs[p])
    ensures Enabled(s, q) && !s.pcs[q].Idle?
    ensures (forall r :: 0 <= r < |s.pcs| ==> !s.pcs[r].Reading? && !s.pcs[r].Writing?) ==> InCall(s.pcs[q])
  {
    if Enabled(s, p) {
      q := p;
    } else if s.rdcountSem == 0 {
      q := SumWitness(s.pcs, HoldsCount);
      if s.pcs[q].RdWaitWrite? && s.writeSem == 0 {
        var h := q;
        assert KnowsCount(s.pcs[h], s.rdcount);
        q := WriteSemBlocker(s);
        if h != q {
          CountHolderUnique(s, h, q);
          SumMember(s.pcs, h, Counted);
          SumMember(s.pcs, h, FirstReaderWaits);
          if Counted(s.pcs[q]) == 1 {
            SumTwoMembers(s.pcs, if h < q then h else q, if h < q then q else h, Counted);
          }
        }
      }
    } else if s.readSem == 0 && (s.pcs[p].RdWaitTurnstile? || s.pcs[p].WrWaitTurnstile?) {
      q := SumWitness(s.pcs, HoldsTurnstile);
      if s.pcs[q].WrWaitWrite? && s.writeSem == 0 {
        q := WriteSemBlocker(s);
      }
    } else {
      q := WriteSemBlocker(s);
    }
  }

  /** Deadlock freedom: on every run, if some process is executing lock or unlock then some
      process that is not idle can take a step; and when nobody is in a critical section, one
      that is itself executing lock or unlock can. */
  lemma DeadlockFreedom(n: nat, run: seq<Move>, p: nat) returns (q: nat)
    requires Schedulable(Init(n), run) && p < |After(Init(n), run).pcs|
    requires InCall(After(Init(n), run).pcs[p])
    ensures var s := After(Init(n), run);
            && Enabled(s, q) && !s.pcs[q].Idle?
            && ((forall r :: 0 <= r < |s.pcs| ==> !s.pcs[r].Reading? && !s.pcs[r].Writing?) ==> InCall(s.pcs[q]))
  {
    InitInv(n);
    InvRun(Init(n), run);
    q := WaitersAreServed(After(Init(n), run), p);
  }

  /** Steps a process can still take while a writer stands between lines 53 and 54: the rest of
      its own call, and the start of the next one, where the closed turnstile stops it. */
  function StepsLeft(pc: Pc): nat {
    match pc
    case RdWaitTurnstile => 0
    case WrWaitTurnstile => 0
    case Idle => 1
    case ExPostCount => 2
    case WrPostWrite => 2
    case ExPostWrite => 3
    case ExStore(_) => 4
    case ExLoad => 5
    case ExWaitCount => 6
    case Reading => 7
    case RdPostCount => 8
    case RdWaitWrite => 9
    case RdStore(_) => 10
    case RdLoad => 11
    case RdWaitCount => 12
    case RdPostTurnstile => 0
    case WrWaitWrite => 0
    case Writing => 0
    case WrPostTurnstile => 0
  }

  /** While writer `w` waits at line 54 the turnstile is shut: nobody passes lines 30 or 53,
      and every step of another process uses up one of its remaining steps. */
  lemma TurnstileShut(s: State, w: nat, m: Move)
    requires Inv(s) && w < |s.pcs| && s.pcs[w].WrWaitWrite? && Enabled(s, m.p) && m.p != w
    ensures !s.pcs[m.p].RdWaitTurnstile? && !s.pcs[m.p].WrWaitTurnstile?
    ensures Next(s, m).pcs[w].WrWaitWrite?
    ensures Sum(Next(s, m).pcs, StepsLeft) < Sum(s.pcs, StepsLeft)
  {
    var p := m.p;
    SumMember(s.pcs, w, HoldsTurnstile);
    SumTwoMembers(s.pcs, if p < w then p else w, if p < w then w else p, HoldsTurnstile);
    SumUpdate(s.pcs, p, Next(s, m).pcs[p], StepsLeft);
  }

  /** When no other process can move, the waiting writer can. */
  lemma WriterRunsLast(s: State, w: nat)
    requires Inv(s) && w < |s.pcs| && s.pcs[w].WrWaitWrite?
    requires forall p :: p != w ==> !Enabled(s, p)
    ensures Enabled(s, w)
  {
    var q := WaitersAreServed(s, w);
  }

  lemma {:induction false} OthersRunOut(s: State, w: nat, rest: seq<Move>)
    requires Inv(s) && w < |s.pcs| && s.pcs[w].WrWaitWrite? && Schedulable(s, rest)
    requires forall i :: 0 <= i < |rest| ==> rest[i].p != w
    ensures |rest| + Sum(After(s, rest).pcs, StepsLeft) <= Sum(s.pcs, StepsLeft)
    ensures Inv(After(s, rest)) && |After(s, rest).pcs| == |s.pcs| && After(s, rest).pcs[w].WrWaitWrite?
    decreases |rest|
  {
    if rest != [] {
      TurnstileShut(s, w, rest[0]);
      InvStep(s, rest[0]);
      OthersRunOut(Next(s, rest[0]), w, rest[1..]);
    }
  }

  /** Writer progress: from any reachable state in which writer `w` has passed line 53, the
      others can take at most 12 steps each before `w` moves, and whenever they can take no
      more, `w` can pass line 54. No fairness of the scheduler is assumed. */
  lemma WriterProgress(n: nat, run: seq<Move>, w: nat, rest: seq<Move>)
    requires Schedulable(Init(n), run)
    requires w < |After(Init(n), run).pcs| && After(Init(n), run).pcs[w].WrWaitWrite?
    requires Schedulable(After(Init(n), run), rest)
    requires forall i :: 0 <= i < |rest| ==> rest[i].p != w
    ensures |rest| <= 12 * (n - 1)
    ensures var s := After(After(Init(n), run), rest);
            && w < |s.pcs| && s.pcs[w].WrWaitWrite?
            && ((forall p :: p != w ==> !Enabled(s, p)) ==> Enabled(s, w))
  {
    InitInv(n);
    InvRun(Init(n), run);
    var s := After(Init(n), run);
    OthersRunOut(s, w, rest);
    StepsLeftBound(s.pcs, w);
    var t := After(s, rest);
    if forall p :: p != w ==> !Enabled(t, p) {
      WriterRunsLast(t, w);
    }
  }

  lemma {:induction false} StepsLeftBound(pcs: seq<Pc>, w: nat)
    requires w < |pcs| && StepsLeft(pcs[w]) == 0
    ensures Sum(pcs, StepsLeft) <= 12 * (|pcs| - 1)
  {
    if w == 0 {
      SumBound(pcs[1..], StepsLeft, 12);
    } else {
      StepsLeftBound(pcs[1..], w - 1);
    }
  }

  // ---- refinement of the abstract lock ----

  function Abstract(s: State): Abs.Lock {
    Abs.Lock(set p | 0 <= p < |s.pcs| && s.pcs[p].Reading?, set p | 0 <= p < |s.pcs| && s.pcs[p].Writing?)
  }

  /** A reader enters at the post of line 39, a writer at the wait of line 54; both leave when
      they start to unlock. */
  function LabelOf(s: State, p: nat): Abs.Label
    requires p < |s.pcs|
  {
    match s.pcs[p]
    case RdPostCount => Abs.EnterRead(p)
    case Reading => Abs.LeaveRead(p)
    case WrWaitWrite => Abs.EnterWrite(p)
    case Writing => Abs.LeaveWrite(p)
    case _ => Abs.Silent
  }

  function Labels(s: State, run: seq<Move>): seq<Abs.Label>
    requires Schedulable(s, run)
    decreases |run|
  {
    if run == [] then [] else [LabelOf(s, run[0].p)] + Labels(Next(s, run[0]), run[1..])
  }

  lemma EntryIsAllowed(s: State, p: nat)
    requires Inv(s) && Enabled(s, p)
    ensures Abs.Allowed(Abstract(s), LabelOf(s, p))
  {
    var l := Abstract(s);
    if s.pcs[p].RdPostCount? {
      SumMember(s.pcs, p, Counted);
      if l.writers != {} {
        var q :| q in l.writers;
        SumMember(s.pcs, q, HoldsWrite);
        if Sum(s.pcs, FirstReaderWaits) > 0 {
          var f := SumWitness(s.pcs, FirstReaderWaits);
          CountHolderUnique(s, p, f);
        }
      }
    } else if s.pcs[p].WrWaitWrite? {
      if l.readers != {} || l.writers != {} {
        var q :| q in l.readers || q in l.writers;
        SumMember(s.pcs, q, HoldsWrite);
        SumMember(s.pcs, q, Counted);
        if Sum(s.pcs, FirstReaderWaits) > 0 {
          var f := SumWitness(s.pcs, FirstReaderWaits);
          assert KnowsCount(s.pcs[f], s.rdcount);
          SumMonotone(s.pcs, FirstReaderWaits, HoldsCount);
          if s.pcs[q].Reading? {
            SumTwoMembers(s.pcs, if f < q then f else q, if f < q then q else f, Counted);
          }
        }
      }
    }
  }

  /** Each step is an allowed step of the abstract lock. */
  lemma StepSimulates(s: State, m: Move)
    requires Inv(s) && Enabled(s, m.p)
    ensures Abs.Allowed(Abstract(s), LabelOf(s, m.p))
    ensures Abstract(Next(s, m)) == Abs.Do(Abstract(s), LabelOf(s, m.p))
  {
    EntryIsAllowed(s, m.p);
  }

  lemma {:induction false} RunSimulates(s: State, run: seq<Move>)
    requires Inv(s) && Schedulable(s, run)
    ensures Abs.Execute(Abstract(s), Labels(s, run)) == Some(Abstract(After(s, run)))
    decreases |run|
  {
    if run != [] {
      StepSimulates(s, run[0]);
      InvStep(s, run[0]);
      RunSimulates(Next(s, run[0]), run[1..]);
      assert Labels(s, run)[1..] == Labels(Next(s, run[0]), run[1..]);
    }
  }

  /** Every run of the three-semaphore lock is a run of the abstract lock. The converse is
      TracesAreThoseOfAbstractLock. */
  lemma RefinesAbstractLock(n: nat, run: seq<Move>)
    requires Schedulable(Init(n), run)
    ensures Abs.Execute(Abs.FREE, Labels(Init(n), run)) == Some(Abstract(After(Init(n), run)))
  {
    InitInv(n);
    RunSimulates(Init(n), run);
    assert Abstract(Init(n)) == Abs.FREE;
  }

  // ---- nothing the abstract lock allows is lost ----

  predicate Settled(pc: Pc) { pc.Idle? || pc.Reading? || pc.Writing? }

  predicate WriteSide(pc: Pc) { pc.WrWaitTurnstile? || pc.WrWaitWrite? || pc.WrPostTurnstile? || pc.WrPostWrite? }

  /** Nobody but `p` is inside a lock function, and nobody holds a lock that `p` has to wait for. */
  ghost predicate WayFree(s: State, p: nat) {
    && Inv(s) && p < |s.pcs|
    && forall q :: 0 <= q < |s.pcs| && q != p ==>
                     s.pcs[q].Idle? || (s.pcs[q].Reading? && !WriteSide(s.pcs[p]))
  }

  lemma FreeToStep(s: State, p: nat)
    requires WayFree(s, p)
    ensures Enabled(s, p)
  {
    if !Enabled(s, p) {
      if s.pcs[p].RdWaitTurnstile? || s.pcs[p].WrWaitTurnstile? {
        var q := SumWitness(s.pcs, HoldsTurnstile);
      } else if s.pcs[p].RdWaitCount? || s.pcs[p].ExWaitCount? {
        var q := SumWitness(s.pcs, HoldsCount);
      } else {
        var q := WriteSemBlocker(s);
        assert KnowsCount(s.pcs[p], s.rdcount);
        if s.pcs[p].RdWaitWrite? {
          SumTwoMembers(s.pcs, if p < q then p else q, if p < q then q else p, Counted);
        }
      }
    }
  }

  function StepsToSettle(pc: Pc): nat {
    match pc
    case RdWaitTurnstile => 8
    case RdPostTurnstile => 7
    case RdWaitCount => 6
    case RdLoad => 5
    case RdStore(_) => 4
    case RdWaitWrite => 3
    case RdPostCount => 2
    case ExWaitCount => 5
    case ExLoad => 4
    case ExStore(_) => 3
    case ExPostWrite => 2
    case ExPostCount => 1
    case WrWaitTurnstile => 2
    case WrWaitWrite => 1
    case WrPostTurnstile => 2
    case WrPostWrite => 1
    case _ => 0
  }

  /** Where a call ends, and the label it still owes. */
  function SettledAs(pc: Pc): Pc {
    if pc.Reading? || pc.Writing? then pc
    else if pc.WrWaitTurnstile? || pc.WrWaitWrite? then Writing
    else if pc.Idle? || WriteSide(pc) || pc.ExWaitCount? || pc.ExLoad? || pc.ExStore? || pc.ExPostWrite?
            || pc.ExPostCount? then Idle
    else Reading
  }

  function Owed(pc: Pc, p: nat): seq<Abs.Label> {
    if Settled(pc) then []
    else if SettledAs(pc).Reading? then [Abs.EnterRead(p)]
    else if SettledAs(pc).Writing? then [Abs.EnterWrite(p)]
    else []
  }

  /** The part of a step that concerns the process itself. */
  lemma OwedStep(s: State, m: Move)
    requires Enabled(s, m.p) && (InCall(s.pcs[m.p]) || s.pcs[m.p].Reading? || s.pcs[m.p].Writing?)
    ensures var pc, pc' := s.pcs[m.p], Next(s, m).pcs[m.p];
            && Abs.Spoken([LabelOf(s, m.p)]) + Owed(pc', m.p)
                 == (if pc.Reading? then [Abs.LeaveRead(m.p)]
                     else if pc.Writing? then [Abs.LeaveWrite(m.p)]
                     else Owed(pc, m.p))
            && SettledAs(pc') == (if pc.Reading? || pc.Writing? then Idle else SettledAs(pc))
            && (InCall(pc) ==> StepsToSettle(pc') < StepsToSettle(pc))
  {
    assert [LabelOf(s, m.p)][1..] == [];
  }

  lemma CallGoesOn(s: State, p: nat)
    requires WayFree(s, p) && InCall(s.pcs[p])
    ensures Enabled(s, p)
    ensures var t := Next(s, Move(p, Call.ReadLock));
            WayFree(t, p) && t.pcs == s.pcs[p := t.pcs[p]]
  {
    FreeToStep(s, p);
    InvStep(s, Move(p, Call.ReadLock));
  }

  lemma Prepend(s: State, m: Move, rest: seq<Move>)
    requires Enabled(s, m.p) && Schedulable(Next(s, m), rest)
    ensures Schedulable(s, [m] + rest) && After(s, [m] + rest) == After(Next(s, m), rest)
    ensures Abs.Spoken(Labels(s, [m] + rest)) == Abs.Spoken([LabelOf(s, m.p)]) + Abs.Spoken(Labels(Next(s, m), rest))
  {
    assert ([m] + rest)[1..] == rest;
    Abs.SpokenAppend([LabelOf(s, m.p)], Labels(Next(s, m), rest));
  }

  lemma {:induction false} FinishCall(s: State, p: nat) returns (run: seq<Move>)
    requires WayFree(s, p)
    ensures Schedulable(s, run) && Abs.Spoken(Labels(s, run)) == Owed(s.pcs[p], p)
    ensures Inv(After(s, run)) && After(s, run).pcs == s.pcs[p := SettledAs(s.pcs[p])]
    decreases StepsToSettle(s.pcs[p])
  {
    run := [];
    if InCall(s.pcs[p]) {
      var m := Move(p, Call.ReadLock);
      CallGoesOn(s, p);
      OwedStep(s, m);
      run := FinishCall(Next(s, m), p);
      Prepend(s, m, run);
      run := [m] + run;
    }
  }

  ghost predicate AllSettled(s: State) { forall q :: 0 <= q < |s.pcs| ==> Settled(s.pcs[q]) }

  function CallFor(a: Abs.Label): Call { if a.EnterWrite? then WriteLock else ReadLock }

  lemma AbstractUpdate(s: State, t: State, p: nat)
    requires p < |s.pcs| == |t.pcs| && t.pcs == s.pcs[p := t.pcs[p]]
    ensures var l, pc := Abstract(s), t.pcs[p];
            Abstract(t) == Abs.Lock(if pc.Reading? then l.readers + {p} else l.readers - {p},
                                    if pc.Writing? then l.writers + {p} else l.writers - {p})
  {
  }

  /** Whom the abstract lock lets do `a` stands where `a` begins, and the others out of the way. */
  lemma AllowedMeansReady(s: State, a: Abs.Label, q: nat)
    requires Inv(s) && AllSettled(s) && !a.Silent? && a.p < |s.pcs| && Abs.Allowed(Abstract(s), a) && q < |s.pcs|
    ensures s.pcs[a.p] == (if a.LeaveRead? then Reading else if a.LeaveWrite? then Writing else Idle)
    ensures q != a.p ==> s.pcs[q].Idle? || (s.pcs[q].Reading? && !a.EnterWrite? && !a.LeaveWrite?)
  {
    var p, l := a.p, Abstract(s);
    assert p in l.writers <==> s.pcs[p].Writing?;
    assert p in l.readers <==> s.pcs[p].Reading?;
    assert q in l.writers <==> s.pcs[q].Writing?;
    assert q in l.readers <==> s.pcs[q].Reading?;
    if q != p && a.LeaveWrite? {
      ExclusionFromInv(s, p, q);
    } else if q != p && a.LeaveRead? && s.pcs[q].Writing? {
      ExclusionFromInv(s, q, p);
    }
  }

  lemma FirstStep(s: State, a: Abs.Label)
    requires Inv(s) && AllSettled(s) && !a.Silent? && a.p < |s.pcs| && Abs.Allowed(Abstract(s), a)
    ensures Enabled(s, a.p)
    ensures var t := Next(s, Move(a.p, CallFor(a)));
            WayFree(t, a.p) && t.pcs == s.pcs[a.p := t.pcs[a.p]]
  {
    InvStep(s, Move(a.p, CallFor(a)));
    AllowedMeansReady(s, a, a.p);
    forall q | 0 <= q < |s.pcs| && q != a.p
      ensures s.pcs[q].Idle? || (s.pcs[q].Reading? && !a.EnterWrite? && !a.LeaveWrite?)
    {
      AllowedMeansReady(s, a, q);
    }
  }

  lemma FirstStepOwes(s: State, a: Abs.Label)
    requires Inv(s) && AllSettled(s) && !a.Silent? && a.p < |s.pcs| && Abs.Allowed(Abstract(s), a) && Enabled(s, a.p)
    ensures var pc := Next(s, Move(a.p, CallFor(a))).pcs[a.p];
            && Abs.Spoken([LabelOf(s, a.p)]) + Owed(pc, a.p) == [a]
            && SettledAs(pc) == if a.EnterRead? then Reading else if a.EnterWrite? then Writing else Idle
  {
    AllowedMeansReady(s, a, a.p);
    if a.LeaveRead? || a.LeaveWrite? {
      OwedStep(s, Move(a.p, CallFor(a)));
    } else {
      assert [LabelOf(s, a.p)][1..] == [];
    }
  }

  lemma SettledAfter(s: State, a: Abs.Label, t: State)
    requires Inv(s) && AllSettled(s) && !a.Silent? && a.p < |s.pcs| && Abs.Allowed(Abstract(s), a)
    requires t.pcs == s.pcs[a.p := if a.EnterRead? then Reading else if a.EnterWrite? then Writing else Idle]
    ensures AllSettled(t) && Abstract(t) == Abs.Do(Abstract(s), a)
  {
    AllowedMeansReady(s, a, a.p);
    AbstractUpdate(s, t, a.p);
    assert a.p in Abstract(s).readers <==> s.pcs[a.p].Reading?;
    assert a.p in Abstract(s).writers <==> s.pcs[a.p].Writing?;
  }

  lemma StepAndFinish(s: State, m: Move) returns (run: seq<Move>)
    requires Enabled(s, m.p) && WayFree(Next(s, m), m.p)
    ensures Schedulable(s, run) && Inv(After(s, run))
    ensures var pc := Next(s, m).pcs[m.p];
            && Abs.Spoken(Labels(s, run)) == Abs.Spoken([LabelOf(s, m.p)]) + Owed(pc, m.p)
            && After(s, run).pcs == Next(s, m).pcs[m.p := SettledAs(pc)]
  {
    run := FinishCall(Next(s, m), m.p);
    Prepend(s, m, run);
    run := [m] + run;
  }

  /** From a state where nobody is inside a lock function, whatever the abstract lock allows can
      be done, by the steps of one process. */
  lemma Perform(s: State, a: Abs.Label) returns (run: seq<Move>)
    requires Inv(s) && AllSettled(s) && !a.Silent? && a.p < |s.pcs| && Abs.Allowed(Abstract(s), a)
    ensures Schedulable(s, run) && Abs.Spoken(Labels(s, run)) == [a]
    ensures var t := After(s, run);
            Inv(t) && AllSettled(t) && |t.pcs| == |s.pcs| && Abstract(t) == Abs.Do(Abstract(s), a)
  {
    FirstStep(s, a);
    FirstStepOwes(s, a);
    run := StepAndFinish(s, Move(a.p, CallFor(a)));
    SettledAfter(s, a, After(s, run));
  }

  lemma {:induction false} RunsJoin(s: State, first: seq<Move>, rest: seq<Move>)
    requires Schedulable(s, first) && Schedulable(After(s, first), rest)
    ensures Schedulable(s, first + rest)
    ensures Labels(s, first + rest) == Labels(s, first) + Labels(After(s, first), rest)
    decreases |first|
  {
    if first == [] {
      assert first + rest == rest;
    } else {
      assert (first + rest)[1..] == first[1..] + rest;
      RunsJoin(Next(s, first[0]), first[1..], rest);
    }
  }

  /** Labels of processes below `n`, without the silent ones. */
  ghost predicate Proper(n: nat, labels: seq<Abs.Label>) {
    forall i :: 0 <= i < |labels| ==> !labels[i].Silent? && labels[i].p < n
  }

  lemma {:induction false} Realize(s: State, labels: seq<Abs.Label>) returns (run: seq<Move>)
    requires Inv(s) && AllSettled(s) && Proper(|s.pcs|, labels) && Abs.Execute(Abstract(s), labels).Some?
    ensures Schedulable(s, run) && Abs.Spoken(Labels(s, run)) == labels
    decreases |labels|
  {
    run := [];
    if labels != [] {
      run := Perform(s, labels[0]);
      var rest := Realize(After(s, run), labels[1..]);
      RunsJoin(s, run, rest);
      Abs.SpokenAppend(Labels(s, run), Labels(After(s, run), rest));
      run := run + rest;
    }
  }

  lemma {:induction false} SpokenProper(s: State, run: seq<Move>)
    requires Schedulable(s, run)
    ensures Proper(|s.pcs|, Abs.Spoken(Labels(s, run)))
    decreases |run|
  {
    if run != [] {
      SpokenProper(Next(s, run[0]), run[1..]);
      assert Labels(s, run)[1..] == Labels(Next(s, run[0]), run[1..]);
    }
  }

  ghost predicate Possible(n: nat, labels: seq<Abs.Label>) {
    exists run :: Schedulable(Init(n), run) && Abs.Spoken(Labels(Init(n), run)) == labels
  }

  /** Both directions: the sequences of entries and exits that `n` processes can produce are
      exactly those of the abstract lock. In particular readers do share. */
  lemma TracesAreThoseOfAbstractLock(n: nat, labels: seq<Abs.Label>)
    ensures Possible(n, labels) <==> Proper(n, labels) && Abs.Execute(Abs.FREE, labels).Some?
  {
    InitInv(n);
    assert Abstract(Init(n)) == Abs.FREE;
    if Proper(n, labels) && Abs.Execute(Abs.FREE, labels).Some? {
      var run := Realize(Init(n), labels);
    } else if Possible(n, labels) {
      var run :| Schedulable(Init(n), run) && Abs.Spoken(Labels(Init(n), run)) == labels;
      RefinesAbstractLock(n, run);
      SpokenProper(Init(n), run);
      Abs.SpokenExecutes(Abs.FREE, Labels(Init(n), run));
    }
  }

  // ---- the shared structure, updated in place ----

  /** `rwlock_t` in shared memory, with the position of every process that uses it. Each method
      runs one statement of the function it is named after, for process `p`. */
  class RwLock {
    var rdcount: nat
    var readSem: nat
    var writeSem: nat
    var rdcountSem: nat
    var pcs: seq<Pc>

    ghost function View(): State
      reads this
    {
      State(pcs, rdcount, readSem, writeSem, rdcountSem)
    }

    constructor (n: nat)
      ensures View() == Init(n) && Inv(View())
    {
      rdcount, readSem, writeSem, rdcountSem := 0, 1, 1, 1;
      pcs := seq(n, _ => Idle);
      new;
      InitInv(n);
    }

    method ReadLock(p: nat)
      requires Inv(View()) && Enabled(View(), p)
      requires pcs[p] in {Idle, RdWaitTurnstile, RdPostTurnstile, RdWaitCount, RdLoad, RdWaitWrite, RdPostCount}
               || pcs[p].RdStore?
      modifies this
      ensures View() == Next(old(View()), Move(p, Call.ReadLock)) && Inv(View())
      ensures rdcount == if old(pcs[p]).RdStore? then old(rdcount) + 1 else old(rdcount)
      ensures pcs[p].Reading? ==> rdcountSem == 1 && ReadersOnly(View())
    {
      InvStep(View(), Move(p, Call.ReadLock));
      assert KnowsCount(pcs[p], rdcount);
      match pcs[p] {
        case Idle => pcs := pcs[p := RdWaitTurnstile];
        case RdWaitTurnstile => readSem := readSem - 1; pcs := pcs[p := RdPostTurnstile];
        case RdPostTurnstile => readSem := readSem + 1; pcs := pcs[p := RdWaitCount];
        case RdWaitCount => rdcountSem := rdcountSem - 1; pcs := pcs[p := RdLoad];
        case RdLoad => pcs := pcs[p := RdStore(rdcount)];
        case RdStore(seen) =>
          rdcount := seen + 1;
          pcs := pcs[p := if seen + 1 == 1 then RdWaitWrite else RdPostCount];
        case RdWaitWrite => writeSem := writeSem - 1; pcs := pcs[p := RdPostCount];
        case RdPostCount =>
          SumMember(pcs, p, HoldsCount);
          rdcountSem := rdcountSem + 1;
          pcs := pcs[p := Reading];
          ReaderSeesReaders(View(), p);
      }
    }

    method ReadUnlock(p: nat)
      requires Inv(View()) && Enabled(View(), p)
      requires pcs[p] in {Reading, ExWaitCount, ExLoad, ExPostWrite, ExPostCount} || pcs[p].ExStore?
      modifies this
      ensures View() == Next(old(View()), Move(p, Call.ReadLock)) && Inv(View())
      ensures rdcount == if old(pcs[p]).ExStore? then old(rdcount) - 1 else old(rdcount)
      ensures old(pcs[p]).ExPostWrite? ==> rdcount == 0 && writeSem == 1
      ensures pcs[p].Idle? ==> rdcountSem == 1
    {
      InvStep(View(), Move(p, Call.ReadLock));
      assert KnowsCount(pcs[p], rdcount);
      match pcs[p] {
        case Reading => pcs := pcs[p := ExWaitCount];
        case ExWaitCount => rdcountSem := rdcountSem - 1; pcs := pcs[p := ExLoad];
        case ExLoad => pcs := pcs[p := ExStore(rdcount)];
        case ExStore(seen) =>
          SumMember(pcs, p, Counted);
          rdcount := Decrement(seen);
          pcs := pcs[p := if rdcount == 0 then ExPostWrite else ExPostCount];
        case ExPostWrite => writeSem := writeSem + 1; pcs := pcs[p := ExPostCount];
        case ExPostCount => rdcountSem := rdcountSem + 1; pcs := pcs[p := Idle];
      }
      SemaphoresAreBinary(View());
    }

    method WriteLock(p: nat)
      requires Inv(View()) && Enabled(View(), p)
      requires pcs[p] in {Idle, WrWaitTurnstile, WrWaitWrite}
      modifies this
      ensures View() == Next(old(View()), Move(p, Call.WriteLock)) && Inv(View())
      ensures pcs[p].Writing? ==> Alone(View(), p)
    {
      InvStep(View(), Move(p, Call.WriteLock));
      match pcs[p] {
        case Idle => pcs := pcs[p := WrWaitTurnstile];
        case WrWaitTurnstile => readSem := readSem - 1; pcs := pcs[p := WrWaitWrite];
        case WrWaitWrite =>
          writeSem := writeSem - 1;
          pcs := pcs[p := Writing];
          WriterIsAlone(View(), p);
      }
    }

    method WriteUnlock(p: nat)
      requires Inv(View()) && Enabled(View(), p)
      requires pcs[p] in {Writing, WrPostTurnstile, WrPostWrite}
      modifies this
      ensures View() == Next(old(View()), Move(p, Call.WriteLock)) && Inv(View())
      ensures old(pcs[p]).WrPostTurnstile? ==> readSem == 1 && writeSem == 0
      ensures pcs[p].Idle? ==> writeSem == 1
    {
      InvStep(View(), Move(p, Call.WriteLock));
      match pcs[p] {
        case Writing => pcs := pcs[p := WrPostTurnstile];
        case WrPostTurnstile => readSem := readSem + 1; pcs := pcs[p := WrPostWrite];
        case WrPostWrite => writeSem := writeSem + 1; pcs := pcs[p := Idle];
      }
      SemaphoresAreBinary(View());
      if pcs[p].WrPostWrite? {
        WriteSemTaken(View(), p);
      }
    }
  }
}
