/** The bounded readers-writer lock built from one System V semaphore set (task09/rwlock.c).
    Each lock call is one `semop` with an array of operations. */
module SysVRwLock {
  import opened Wrappers
  import Abs = AbstractRwLock

  const READ := 0
  const WRITE := 1
  const TURNSTILE := 2
  const BARRIER := 3

  /** The largest semaphore value; the system refuses to go beyond it. */
  const SEMVMX: nat := 32767

  /** The four semaphores of the set, in the order of their numbers. */
  datatype Values = Values(read: nat, write: nat, turnstile: nat, barrier: nat)

  function Get(v: Values, num: nat): nat
    requires num < 4
  {
    if num == READ then v.read else if num == WRITE then v.write
    else if num == TURNSTILE then v.turnstile else v.barrier
  }

  function Put(v: Values, num: nat, value: nat): Values
    requires num < 4
  {
    if num == READ then v.(read := value) else if num == WRITE then v.(write := value)
    else if num == TURNSTILE then v.(turnstile := value) else v.(barrier := value)
  }

  datatype SemBuf = SemBuf(num: nat, op: int)

  /** The outcome of `semop`: all operations performed, the caller sleeps and nothing changed,
      or the call fails because a value would leave its range. */
  datatype Outcome = Done(values: Values) | Sleeps | OutOfRange

  function ApplyOp(v: Values, b: SemBuf): Outcome
    requires b.num < 4
  {
    var value := Get(v, b.num);
    if b.op > 0 then
      if value + b.op > SEMVMX then OutOfRange else Done(Put(v, b.num, value + b.op))
    else if b.op < 0 then
      if value + b.op < 0 then Sleeps else Done(Put(v, b.num, value + b.op))
    else if value == 0 then Done(v) else Sleeps
  }

  predicate Addressable(ops: seq<SemBuf>) {
    forall i :: 0 <= i < |ops| ==> ops[i].num < 4
  }

  /** In array order, all or nothing: each operation sees the effect of those before it. */
  function SemOp(v: Values, ops: seq<SemBuf>): (r: Outcome)
    requires Addressable(ops)
    decreases |ops|
  {
    if ops == [] then Done(v)
    else
      var first := ApplyOp(v, ops[0]);
      if first.Done? then SemOp(first.values, ops[1..]) else first
  }

  /** The operation arrays of the four calls. */
  datatype Protocol = Protocol(readLock: seq<SemBuf>, readUnlock: seq<SemBuf>,
                               writeLock: seq<SemBuf>, writeUnlock: seq<SemBuf>)

  const FULL := Protocol(
    [SemBuf(BARRIER, -1), SemBuf(TURNSTILE, -1), SemBuf(TURNSTILE, 1), SemBuf(WRITE, 0), SemBuf(READ, 1)],
    [SemBuf(BARRIER, 1), SemBuf(READ, -1)],
    [SemBuf(TURNSTILE, -1), SemBuf(READ, 0), SemBuf(WRITE, 0), SemBuf(WRITE, 1)],
    [SemBuf(TURNSTILE, 1), SemBuf(WRITE, -1)])

  function WithoutTurnstile(ops: seq<SemBuf>): (r: seq<SemBuf>)
    ensures Addressable(ops) ==> Addressable(r)
  {
    if ops == [] then []
    else if ops[0].num == TURNSTILE then WithoutTurnstile(ops[1..])
    else [ops[0]] + WithoutTurnstile(ops[1..])
  }

  /** The same arrays with every operation on the turnstile deleted. */
  const NO_TURNSTILE := Protocol(WithoutTurnstile(FULL.readLock), WithoutTurnstile(FULL.readUnlock),
                                 WithoutTurnstile(FULL.writeLock), WithoutTurnstile(FULL.writeUnlock))

  lemma {:induction false} WithoutTurnstileCons(b: SemBuf, ops: seq<SemBuf>)
    ensures WithoutTurnstile([b] + ops) ==
              if b.num == TURNSTILE then WithoutTurnstile(ops) else [b] + WithoutTurnstile(ops)
  {
    assert ([b] + ops)[1..] == ops;
  }

  /** What is left of the read lock without the turnstile. */
  lemma ReducedReadLock()
    ensures NO_TURNSTILE.readLock == [SemBuf(BARRIER, -1)] + ([SemBuf(WRITE, 0)] + [SemBuf(READ, 1)])
  {
    var t1, t2 := SemBuf(TURNSTILE, -1), SemBuf(TURNSTILE, 1);
    var count := [SemBuf(WRITE, 0)] + [SemBuf(READ, 1)];
    WithoutTurnstileCons(SemBuf(READ, 1), []);
    WithoutTurnstileCons(SemBuf(WRITE, 0), [SemBuf(READ, 1)]);
    WithoutTurnstileCons(t2, count);
    WithoutTurnstileCons(t1, [t2] + count);
    WithoutTurnstileCons(SemBuf(BARRIER, -1), [t1] + ([t2] + count));
    assert FULL.readLock == [SemBuf(BARRIER, -1)] + ([t1] + ([t2] + count));
  }

  /** What is left of the write lock without the turnstile. */
  lemma ReducedWriteLock()
    ensures NO_TURNSTILE.writeLock == [SemBuf(READ, 0)] + ([SemBuf(WRITE, 0)] + [SemBuf(WRITE, 1)])
  {
    var t1 := SemBuf(TURNSTILE, -1);
    var enter := [SemBuf(WRITE, 0)] + [SemBuf(WRITE, 1)];
    WithoutTurnstileCons(SemBuf(WRITE, 1), []);
    WithoutTurnstileCons(SemBuf(WRITE, 0), [SemBuf(WRITE, 1)]);
    WithoutTurnstileCons(SemBuf(READ, 0), enter);
    WithoutTurnstileCons(t1, [SemBuf(READ, 0)] + enter);
    assert FULL.writeLock == [t1] + ([SemBuf(READ, 0)] + enter);
  }

  /** What is left of the two unlocks: the read unlock has nothing to lose. */
  lemma ReducedUnlocks()
    ensures NO_TURNSTILE.readUnlock == FULL.readUnlock
    ensures NO_TURNSTILE.writeUnlock == [SemBuf(WRITE, -1)]
  {
    WithoutTurnstileCons(SemBuf(READ, -1), []);
    WithoutTurnstileCons(SemBuf(BARRIER, 1), [SemBuf(READ, -1)]);
    assert FULL.readUnlock == [SemBuf(BARRIER, 1)] + [SemBuf(READ, -1)];
    WithoutTurnstileCons(SemBuf(WRITE, -1), []);
    WithoutTurnstileCons(SemBuf(TURNSTILE, 1), [SemBuf(WRITE, -1)]);
    assert FULL.writeUnlock == [SemBuf(TURNSTILE, 1)] + [SemBuf(WRITE, -1)];
  }

  lemma SemOpCons(v: Values, b: SemBuf, ops: seq<SemBuf>)
    requires b.num < 4 && Addressable(ops)
    ensures SemOp(v, [b] + ops) ==
              if ApplyOp(v, b).Done? then SemOp(ApplyOp(v, b).values, ops) else ApplyOp(v, b)
  {
    assert ([b] + ops)[1..] == ops;
  }

  // ---- what each array does ----

  /** The end of the read lock, with and without turnstile: no writer, then one more reader. */
  lemma CountReaderEffect(v: Values)
    ensures SemOp(v, [SemBuf(WRITE, 0)] + [SemBuf(READ, 1)]) ==
              if v.write != 0 then Sleeps else if v.read >= SEMVMX then OutOfRange
              else Done(v.(read := v.read + 1))
  {
    SemOpCons(v, SemBuf(WRITE, 0), [SemBuf(READ, 1)]);
    assert [SemBuf(READ, 1)] == [SemBuf(READ, 1)] + [];
    SemOpCons(v, SemBuf(READ, 1), []);
  }

  lemma SemOpTwo(v: Values, a: SemBuf, b: SemBuf, rest: seq<SemBuf>)
    requires a.num < 4 && b.num < 4 && Addressable(rest)
    ensures SemOp(v, [a] + ([b] + rest)) ==
              if !ApplyOp(v, a).Done? then ApplyOp(v, a)
              else if !ApplyOp(ApplyOp(v, a).values, b).Done? then ApplyOp(ApplyOp(v, a).values, b)
              else SemOp(ApplyOp(ApplyOp(v, a).values, b).values, rest)
  {
    SemOpCons(v, a, [b] + rest);
    if ApplyOp(v, a).Done? {
      SemOpCons(ApplyOp(v, a).values, b, rest);
    }
  }

  /** Passing the turnstile leaves it as it was. */
  lemma PassTurnstileEffect(v: Values, rest: seq<SemBuf>)
    requires v.turnstile < SEMVMX && Addressable(rest)
    ensures SemOp(v, [SemBuf(TURNSTILE, -1)] + ([SemBuf(TURNSTILE, 1)] + rest)) ==
              if v.turnstile == 0 then Sleeps else SemOp(v, rest)
  {
    var a, b := SemBuf(TURNSTILE, -1), SemBuf(TURNSTILE, 1);
    SemOpTwo(v, a, b, rest);
    assert v.turnstile > 0 ==> ApplyOp(ApplyOp(v, a).values, b) == Done(v);
  }

  lemma ReadLockParts(v: Values)
    requires v.turnstile < SEMVMX
    ensures SemOp(v, [SemBuf(BARRIER, -1)]
                     + ([SemBuf(TURNSTILE, -1)]
                        + ([SemBuf(TURNSTILE, 1)] + ([SemBuf(WRITE, 0)] + [SemBuf(READ, 1)])))) ==
              if v.barrier == 0 || v.turnstile == 0 || v.write != 0 then Sleeps
              else if v.read >= SEMVMX then OutOfRange
              else Done(v.(barrier := v.barrier - 1).(read := v.read + 1))
  {
    var count := [SemBuf(WRITE, 0)] + [SemBuf(READ, 1)];
    SemOpCons(v, SemBuf(BARRIER, -1), [SemBuf(TURNSTILE, -1)] + ([SemBuf(TURNSTILE, 1)] + count));
    if v.barrier > 0 {
      var v1 := v.(barrier := v.barrier - 1);
      PassTurnstileEffect(v1, count);
      CountReaderEffect(v1);
    }
  }

  lemma ReadLockEffect(v: Values)
    requires v.turnstile < SEMVMX
    ensures SemOp(v, FULL.readLock) ==
              if v.barrier == 0 || v.turnstile == 0 || v.write != 0 then Sleeps
              else if v.read >= SEMVMX then OutOfRange
              else Done(v.(barrier := v.barrier - 1).(read := v.read + 1))
  {
    assert FULL.readLock ==
      [SemBuf(BARRIER, -1)]
        + ([SemBuf(TURNSTILE, -1)] + ([SemBuf(TURNSTILE, 1)] + ([SemBuf(WRITE, 0)] + [SemBuf(READ, 1)])));
    ReadLockParts(v);
  }

  lemma ReadUnlockEffect(v: Values)
    ensures SemOp(v, FULL.readUnlock) ==
              if v.barrier >= SEMVMX then OutOfRange else if v.read == 0 then Sleeps
              else Done(v.(barrier := v.barrier + 1).(read := v.read - 1))
  {
    var ops := FULL.readUnlock;
    assert ops == [ops[0]] + ([ops[1]] + []);
    SemOpCons(v, ops[0], [ops[1]] + []);
    if v.barrier < SEMVMX {
      SemOpCons(v.(barrier := v.barrier + 1), ops[1], []);
    }
  }

  /** The end of the write lock: no writer, then one. */
  lemma CountWriterEffect(v: Values)
    ensures SemOp(v, [SemBuf(WRITE, 0)] + [SemBuf(WRITE, 1)]) ==
              if v.write != 0 then Sleeps else Done(v.(write := 1))
  {
    SemOpCons(v, SemBuf(WRITE, 0), [SemBuf(WRITE, 1)]);
    assert [SemBuf(WRITE, 1)] == [SemBuf(WRITE, 1)] + [];
    SemOpCons(v, SemBuf(WRITE, 1), []);
  }

  lemma NobodyInsideEffect(v: Values)
    ensures SemOp(v, [SemBuf(READ, 0)] + ([SemBuf(WRITE, 0)] + [SemBuf(WRITE, 1)])) ==
              if v.read != 0 || v.write != 0 then Sleeps else Done(v.(write := 1))
  {
    SemOpCons(v, SemBuf(READ, 0), [SemBuf(WRITE, 0)] + [SemBuf(WRITE, 1)]);
    CountWriterEffect(v);
  }

  lemma WriteLockParts(v: Values)
    ensures SemOp(v, [SemBuf(TURNSTILE, -1)] + ([SemBuf(READ, 0)] + ([SemBuf(WRITE, 0)] + [SemBuf(WRITE, 1)]))) ==
              if v.turnstile == 0 || v.read != 0 || v.write != 0 then Sleeps
              else Done(v.(turnstile := v.turnstile - 1).(write := 1))
  {
    SemOpCons(v, SemBuf(TURNSTILE, -1), [SemBuf(READ, 0)] + ([SemBuf(WRITE, 0)] + [SemBuf(WRITE, 1)]));
    if v.turnstile > 0 {
      NobodyInsideEffect(v.(turnstile := v.turnstile - 1));
    }
  }

  lemma WriteLockEffect(v: Values)
    ensures SemOp(v, FULL.writeLock) ==
              if v.turnstile == 0 || v.read != 0 || v.write != 0 then Sleeps
              else Done(v.(turnstile := v.turnstile - 1).(write := 1))
  {
    assert FULL.writeLock ==
      [SemBuf(TURNSTILE, -1)] + ([SemBuf(READ, 0)] + ([SemBuf(WRITE, 0)] + [SemBuf(WRITE, 1)]));
    WriteLockParts(v);
  }

  lemma WriteUnlockEffect(v: Values)
    ensures SemOp(v, FULL.writeUnlock) ==
              if v.turnstile >= SEMVMX then OutOfRange else if v.write == 0 then Sleeps
              else Done(v.(turnstile := v.turnstile + 1).(write := v.write - 1))
  {
    var ops := FULL.writeUnlock;
    assert ops == [ops[0]] + ([ops[1]] + []);
    SemOpCons(v, ops[0], [ops[1]] + []);
    if v.turnstile < SEMVMX {
      SemOpCons(v.(turnstile := v.turnstile + 1), ops[1], []);
    }
  }

  lemma ReducedReadLockParts(v: Values)
    ensures SemOp(v, [SemBuf(BARRIER, -1)] + ([SemBuf(WRITE, 0)] + [SemBuf(READ, 1)])) ==
              if v.barrier == 0 || v.write != 0 then Sleeps
              else if v.read >= SEMVMX then OutOfRange
              else Done(v.(barrier := v.barrier - 1).(read := v.read + 1))
  {
    SemOpCons(v, SemBuf(BARRIER, -1), [SemBuf(WRITE, 0)] + [SemBuf(READ, 1)]);
    if v.barrier > 0 {
      CountReaderEffect(v.(barrier := v.barrier - 1));
    }
  }

  lemma ReducedReadLockEffect(v: Values)
    ensures SemOp(v, NO_TURNSTILE.readLock) ==
              if v.barrier == 0 || v.write != 0 then Sleeps
              else if v.read >= SEMVMX then OutOfRange
              else Done(v.(barrier := v.barrier - 1).(read := v.read + 1))
  {
    ReducedReadLock();
    ReducedReadLockParts(v);
  }

  lemma ReducedWriteLockEffect(v: Values)
    ensures SemOp(v, NO_TURNSTILE.writeLock) ==
              if v.read != 0 || v.write != 0 then Sleeps else Done(v.(write := 1))
  {
    ReducedWriteLock();
    NobodyInsideEffect(v);
  }

  lemma ReducedWriteUnlockEffect(v: Values)
    ensures SemOp(v, NO_TURNSTILE.writeUnlock) ==
              if v.write == 0 then Sleeps else Done(v.(write := v.write - 1))
  {
    ReducedUnlocks();
    assert NO_TURNSTILE.writeUnlock == [SemBuf(WRITE, -1)] + [];
    SemOpCons(v, SemBuf(WRITE, -1), []);
  }

  // ---- runs: which processes are inside ----

  /** The semaphore set, and who holds the lock. */
  datatype State = State(values: Values, readers: set<nat>, writers: set<nat>)

  datatype Call = ReadLock(p: nat) | ReadUnlock(p: nat) | WriteLock(p: nat) | WriteUnlock(p: nat)

  function Init(rmax: nat): State {
    State(Values(0, 0, 1, rmax), {}, {})
  }

  function Ops(proto: Protocol, c: Call): seq<SemBuf> {
    match c
    case ReadLock(_) => proto.readLock
    case ReadUnlock(_) => proto.readUnlock
    case WriteLock(_) => proto.writeLock
    case WriteUnlock(_) => proto.writeUnlock
  }

  /** Processes lock when outside and unlock what they hold. */
  predicate Disciplined(s: State, c: Call) {
    match c
    case ReadLock(p) => p !in s.readers && p !in s.writers
    case WriteLock(p) => p !in s.readers && p !in s.writers
    case ReadUnlock(p) => p in s.readers
    case WriteUnlock(p) => p in s.writers
  }

  ghost predicate ValidProtocol(proto: Protocol) { proto == FULL || proto == NO_TURNSTILE }

  function Result(proto: Protocol, s: State, c: Call): (r: Outcome)
    requires ValidProtocol(proto)
  {
    SemOp(s.values, Ops(proto, c))
  }

  function Next(proto: Protocol, s: State, c: Call): (t: State)
    requires ValidProtocol(proto) && Result(proto, s, c).Done?
  {
    var v := Result(proto, s, c).values;
    match c
    case ReadLock(p) => State(v, s.readers + {p}, s.writers)
    case ReadUnlock(p) => State(v, s.readers - {p}, s.writers)
    case WriteLock(p) => State(v, s.readers, s.writers + {p})
    case WriteUnlock(p) => State(v, s.readers, s.writers - {p})
  }

  /** A sequence of calls that all return, in this order. */
  predicate Runs(proto: Protocol, s: State, run: seq<Call>)
    requires ValidProtocol(proto)
    decreases |run|
  {
    run == [] || (Disciplined(s, run[0]) && Result(proto, s, run[0]).Done?
                  && Runs(proto, Next(proto, s, run[0]), run[1..]))
  }

  function After(proto: Protocol, s: State, run: seq<Call>): (t: State)
    requires ValidProtocol(proto) && Runs(proto, s, run)
    decreases |run|
  {
    if run == [] then s else After(proto, Next(proto, s, run[0]), run[1..])
  }

  ghost predicate Inv(rmax: nat, s: State) {
    && |s.readers| <= rmax && |s.writers| <= 1
    && (s.writers != {} ==> s.readers == {})
    && s.values == Values(|s.readers|, |s.writers|, 1 - |s.writers|, rmax - |s.readers|)
  }

  /** Exactly when a call returns at once, in terms of who is inside. */
  predicate Admits(rmax: nat, s: State, c: Call) {
    match c
    case ReadLock(_) => |s.readers| < rmax && s.writers == {}
    case WriteLock(_) => s.readers == {} && s.writers == {}
    case ReadUnlock(_) => true
    case WriteUnlock(_) => true
  }

  lemma SizeOfAtMostOne(ws: set<nat>, p: nat)
    requires |ws| <= 1 && p in ws
    ensures ws == {p} && ws - {p} == {}
  {
    if ws - {p} != {} {
      var q :| q in ws - {p};
      assert {p, q} <= ws;
      SubsetSize({p, q}, ws);
    }
  }

  lemma SubsetSize(a: set<nat>, b: set<nat>)
    requires a <= b
    ensures |a| <= |b|
  {
    assert b == a + (b - a);
  }

  /** Every disciplined call from an invariant state either returns, keeping the invariant, or
      sleeps because the lock does not admit it; it never fails with a value out of range. */
  lemma CallOutcome(rmax: nat, s: State, c: Call)
    requires rmax <= SEMVMX && Inv(rmax, s) && Disciplined(s, c)
    ensures Result(FULL, s, c) != OutOfRange
    ensures Result(FULL, s, c).Done? <==> Admits(rmax, s, c)
    ensures Result(FULL, s, c).Done? ==> Inv(rmax, Next(FULL, s, c))
  {
    match c
    case ReadLock(p) => ReadLockOutcome(rmax, s, p);
    case ReadUnlock(p) => ReadUnlockOutcome(rmax, s, p);
    case WriteLock(p) => WriteLockOutcome(rmax, s, p);
    case WriteUnlock(p) => WriteUnlockOutcome(rmax, s, p);
  }

  lemma ReadLockOutcome(rmax: nat, s: State, p: nat)
    requires rmax <= SEMVMX && Inv(rmax, s) && Disciplined(s, ReadLock(p))
    ensures SemOp(s.values, FULL.readLock) ==
              if Admits(rmax, s, ReadLock(p)) then
                Done(Values(|s.readers| + 1, |s.writers|, 1 - |s.writers|, rmax - |s.readers| - 1))
              else Sleeps
  {
    ReadLockEffect(s.values);
  }

  lemma ReadUnlockOutcome(rmax: nat, s: State, p: nat)
    requires rmax <= SEMVMX && Inv(rmax, s) && Disciplined(s, ReadUnlock(p))
    ensures |s.readers| > 0
    ensures SemOp(s.values, FULL.readUnlock) ==
              Done(Values(|s.readers| - 1, |s.writers|, 1 - |s.writers|, rmax - |s.readers| + 1))
  {
    SubsetSize({p}, s.readers);
    ReadUnlockEffect(s.values);
  }

  lemma WriteLockOutcome(rmax: nat, s: State, p: nat)
    requires rmax <= SEMVMX && Inv(rmax, s) && Disciplined(s, WriteLock(p))
    ensures SemOp(s.values, FULL.writeLock) ==
              if Admits(rmax, s, WriteLock(p)) then Done(Values(0, 1, 0, rmax)) else Sleeps
  {
    WriteLockEffect(s.values);
  }

  lemma WriteUnlockOutcome(rmax: nat, s: State, p: nat)
    requires rmax <= SEMVMX && Inv(rmax, s) && Disciplined(s, WriteUnlock(p))
    ensures SemOp(s.values, FULL.writeUnlock) == Done(Values(0, 0, 1, rmax)) && s.writers - {p} == {}
  {
    SizeOfAtMostOne(s.writers, p);
    WriteUnlockEffect(s.values);
  }

  lemma {:induction false} InvRun(rmax: nat, s: State, run: seq<Call>)
    requires rmax <= SEMVMX && Inv(rmax, s) && Runs(FULL, s, run)
    ensures Inv(rmax, After(FULL, s, run))
    decreases |run|
  {
    if run != [] {
      CallOutcome(rmax, s, run[0]);
      InvRun(rmax, Next(FULL, s, run[0]), run[1..]);
    }
  }

  /** On every run the four semaphores count readers, writers, and their complements; readers
      and writers exclude each other, and at most `rmax` readers are inside. */
  lemma SemaphoresCount(rmax: nat, run: seq<Call>)
    requires rmax <= SEMVMX && Runs(FULL, Init(rmax), run)
    ensures var s := After(FULL, Init(rmax), run);
            && s.values.read == |s.readers| <= rmax
            && s.values.write == |s.writers| <= 1
            && s.values.turnstile == 1 - |s.writers|
            && s.values.barrier == rmax - |s.readers|
            && (s.writers != {} ==> s.readers == {})
  {
    InvRun(rmax, Init(rmax), run);
  }

  /** On every run: unlocking never sleeps, a lock call sleeps exactly when the lock does not
      admit it, and no call fails for want of range. */
  lemma ReturnsExactlyWhenAdmitted(rmax: nat, run: seq<Call>, c: Call)
    requires rmax <= SEMVMX && Runs(FULL, Init(rmax), run)
    requires Disciplined(After(FULL, Init(rmax), run), c)
    ensures var s := After(FULL, Init(rmax), run);
            && Result(FULL, s, c) != OutOfRange
            && (Result(FULL, s, c).Done? <==> Admits(rmax, s, c))
            && (c.ReadUnlock? || c.WriteUnlock? ==> Result(FULL, s, c).Done?)
  {
    InvRun(rmax, Init(rmax), run);
    CallOutcome(rmax, After(FULL, Init(rmax), run), c);
  }

  /** Deadlock freedom: whatever call a process waits in, some disciplined call returns at
      once, by that process or by one inside the lock. It holds if and only if `rmax` admits
      a reader at all. */
  lemma DeadlockFreedom(rmax: nat, run: seq<Call>, c: Call) returns (d: Call)
    requires 1 <= rmax <= SEMVMX && Runs(FULL, Init(rmax), run)
    requires Disciplined(After(FULL, Init(rmax), run), c)
    ensures var s := After(FULL, Init(rmax), run);
            Disciplined(s, d) && Result(FULL, s, d).Done? && (d == c || d.p in s.readers + s.writers)
  {
    InvRun(rmax, Init(rmax), run);
    var s := After(FULL, Init(rmax), run);
    if s.readers != {} {
      var p :| p in s.readers;
      d := ReadUnlock(p);
    } else if s.writers != {} {
      var p :| p in s.writers;
      d := WriteUnlock(p);
    } else {
      d := c;
    }
    CallOutcome(rmax, s, d);
  }

  /** With `rmax` zero a reader sleeps for ever: on no run does any read lock return. */
  lemma NoReaderWithoutRoom(run: seq<Call>, p: nat)
    requires Runs(FULL, Init(0), run)
    requires Disciplined(After(FULL, Init(0), run), ReadLock(p))
    ensures Result(FULL, After(FULL, Init(0), run), ReadLock(p)) == Sleeps
  {
    ReturnsExactlyWhenAdmitted(0, run, ReadLock(p));
    InvRun(0, Init(0), run);
  }

  // ---- the turnstile is redundant ----

  /** The two protocols in step: same holders, same values but for the unused turnstile. */
  ghost predicate Twin(rmax: nat, s: State, t: State) {
    && Inv(rmax, s) && t.readers == s.readers && t.writers == s.writers
    && t.values == s.values.(turnstile := 1)
  }

  lemma TwinStep(rmax: nat, s: State, t: State, c: Call)
    requires rmax <= SEMVMX && Twin(rmax, s, t) && Disciplined(s, c)
    ensures Result(NO_TURNSTILE, t, c).Done? <==> Result(FULL, s, c).Done?
    ensures Result(NO_TURNSTILE, t, c) == Sleeps <==> Result(FULL, s, c) == Sleeps
    ensures Result(FULL, s, c).Done? ==> Twin(rmax, Next(FULL, s, c), Next(NO_TURNSTILE, t, c))
  {
    CallOutcome(rmax, s, c);
    match c
    case ReadLock(p) =>
      ReadLockOutcome(rmax, s, p);
      ReducedReadLockEffect(t.values);
    case ReadUnlock(p) =>
      ReadUnlockOutcome(rmax, s, p);
      ReducedUnlocks();
      ReadUnlockEffect(t.values);
    case WriteLock(p) =>
      WriteLockOutcome(rmax, s, p);
      ReducedWriteLockEffect(t.values);
    case WriteUnlock(p) =>
      WriteUnlockOutcome(rmax, s, p);
      ReducedWriteUnlockEffect(t.values);
  }

  lemma {:induction false} TwinRun(rmax: nat, s: State, t: State, run: seq<Call>)
    requires rmax <= SEMVMX && Twin(rmax, s, t)
    ensures Runs(NO_TURNSTILE, t, run) <==> Runs(FULL, s, run)
    ensures Runs(FULL, s, run) ==> Twin(rmax, After(FULL, s, run), After(NO_TURNSTILE, t, run))
    decreases |run|
  {
    if run != [] && Disciplined(s, run[0]) {
      TwinStep(rmax, s, t, run[0]);
      if Result(FULL, s, run[0]).Done? {
        TwinRun(rmax, Next(FULL, s, run[0]), Next(NO_TURNSTILE, t, run[0]), run[1..]);
      }
    }
  }

  /** Dropping the turnstile operations changes nothing that a caller can see: the same runs
      are possible, and after each of them the same calls return and the same calls sleep. */
  lemma TurnstileRedundant(rmax: nat, run: seq<Call>, c: Call)
    requires rmax <= SEMVMX
    ensures Runs(NO_TURNSTILE, Init(rmax), run) <==> Runs(FULL, Init(rmax), run)
    ensures Runs(FULL, Init(rmax), run) ==>
              var s, t := After(FULL, Init(rmax), run), After(NO_TURNSTILE, Init(rmax), run);
              && t.readers == s.readers && t.writers == s.writers
              && (Disciplined(s, c) ==>
                    && (Result(NO_TURNSTILE, t, c).Done? <==> Result(FULL, s, c).Done?)
                    && (Result(NO_TURNSTILE, t, c) == Sleeps <==> Result(FULL, s, c) == Sleeps))
  {
    TwinRun(rmax, Init(rmax), Init(rmax), run);
    if Runs(FULL, Init(rmax), run) && Disciplined(After(FULL, Init(rmax), run), c) {
      TwinStep(rmax, After(FULL, Init(rmax), run), After(NO_TURNSTILE, Init(rmax), run), c);
    }
  }

  // ---- a waiting writer can be overtaken for ever ----

  /** Readers 0 and 1 hand the lock to each other. */
  const HANDOVER := [ReadLock(1), ReadUnlock(0), ReadLock(0), ReadUnlock(1)]

  function Handovers(k: nat): seq<Call> {
    if k == 0 then [] else HANDOVER + Handovers(k - 1)
  }

  /** Inside a run from `s`, the write lock sleeps before every call and at the end. */
  predicate WriterSleepsThroughout(s: State, run: seq<Call>)
    requires Runs(FULL, s, run)
    decreases |run|
  {
    && SemOp(s.values, FULL.writeLock) == Sleeps
    && (run == [] || WriterSleepsThroughout(Next(FULL, s, run[0]), run[1..]))
  }

  lemma HandoverStep(s: State, run: seq<Call>)
    requires s.values.read > 0 && run != []
    requires Disciplined(s, run[0]) && Result(FULL, s, run[0]).Done?
    requires Runs(FULL, Next(FULL, s, run[0]), run[1..])
    requires WriterSleepsThroughout(Next(FULL, s, run[0]), run[1..])
    ensures Runs(FULL, s, run) && WriterSleepsThroughout(s, run)
  {
    WriteLockEffect(s.values);
  }

  lemma {:induction false} HandoversRun(rmax: nat, s: State, k: nat)
    requires 2 <= rmax <= SEMVMX && Inv(rmax, s) && s.readers == {0} && s.writers == {}
    ensures Runs(FULL, s, Handovers(k)) && WriterSleepsThroughout(s, Handovers(k))
  {
    if k == 0 {
      WriteLockEffect(s.values);
    } else {
      var run := Handovers(k);
      CallOutcome(rmax, s, run[0]);
      var s1 := Next(FULL, s, run[0]);
      assert run[1..][0] == ReadUnlock(0);
      assert s1.readers == {0, 1};
      CallOutcome(rmax, s1, run[1]);
      var s2 := Next(FULL, s1, run[1]);
      assert s2.readers == {1};
      CallOutcome(rmax, s2, run[2]);
      var s3 := Next(FULL, s2, run[2]);
      CallOutcome(rmax, s3, run[3]);
      var s4 := Next(FULL, s3, run[3]);
      assert s4.readers == {0};
      HandoversRun(rmax, s4, k - 1);
      assert run[1..][1..][1..][1..] == Handovers(k - 1);
      HandoverStep(s3, run[1..][1..][1..]);
      HandoverStep(s2, run[1..][1..]);
      HandoverStep(s1, run[1..]);
      HandoverStep(s, run);
    }
  }

  /** Unlike the three-semaphore lock, this one does not protect a waiting writer: with room for
      two readers there are runs of any length throughout which the write lock sleeps, with no
      instant at which the system could let the writer in. */
  lemma WriterCanStarve(rmax: nat, k: nat)
    requires 2 <= rmax <= SEMVMX
    ensures Runs(FULL, Init(rmax), [ReadLock(0)])
    ensures var s := After(FULL, Init(rmax), [ReadLock(0)]);
            Runs(FULL, s, Handovers(k)) && WriterSleepsThroughout(s, Handovers(k))
    ensures |Handovers(k)| == 4 * k
  {
    var s := Init(rmax);
    CallOutcome(rmax, s, ReadLock(0));
    var t := Next(FULL, s, ReadLock(0));
    assert t.readers == {0};
    assert [ReadLock(0)][1..] == [];
    assert After(FULL, s, [ReadLock(0)]) == After(FULL, t, []) == t;
    HandoversRun(rmax, t, k);
    HandoversLength(k);
  }

  lemma {:induction false} HandoversLength(k: nat)
    ensures |Handovers(k)| == 4 * k
  {
    if k > 0 {
      HandoversLength(k - 1);
    }
  }

  /** With room for one reader at most, any call that returns while somebody is inside is an
      unlock that leaves the lock free. */
  lemma OneCallFreesLock(rmax: nat, s: State, more: seq<Call>)
    requires rmax <= 1 && Inv(rmax, s) && more != [] && Runs(FULL, s, more)
    ensures !WriterSleepsThroughout(s, more)
  {
    WriteLockEffect(s.values);
    if s.readers != {} || s.writers != {} {
      CallOutcome(rmax, s, more[0]);
      var t := Next(FULL, s, more[0]);
      if more[0].ReadUnlock? {
        SizeOfAtMostOne(s.readers, more[0].p);
      } else {
        SizeOfAtMostOne(s.writers, more[0].p);
      }
      WriteLockEffect(t.values);
    }
  }

  /** From some reachable state the write lock can be kept asleep for `length` calls or more. */
  ghost predicate WriterKeptOut(rmax: nat, length: nat) {
    exists run: seq<Call>, more: seq<Call> ::
      && Runs(FULL, Init(rmax), run) && length <= |more|
      && Runs(FULL, After(FULL, Init(rmax), run), more)
      && WriterSleepsThroughout(After(FULL, Init(rmax), run), more)
  }

  /** Exactly when a writer can starve: keeping it out over any number of calls, be it one or
      arbitrarily many, is possible if and only if there is room for two readers. With less room
      there are instants at which it can get in; that the system picks it then, and not a reader
      that asks at the same instant, is up to the system. */
  lemma WriterStarvesIffRoomForTwo(rmax: nat, length: nat)
    requires rmax <= SEMVMX && length >= 1
    ensures WriterKeptOut(rmax, length) <==> rmax >= 2
  {
    if rmax >= 2 {
      WriterCanStarve(rmax, length);
      assert Runs(FULL, After(FULL, Init(rmax), [ReadLock(0)]), Handovers(length));
    } else if WriterKeptOut(rmax, length) {
      var run, more :| Runs(FULL, Init(rmax), run) && length <= |more|
                       && Runs(FULL, After(FULL, Init(rmax), run), more)
                       && WriterSleepsThroughout(After(FULL, Init(rmax), run), more);
      InvRun(rmax, Init(rmax), run);
      OneCallFreesLock(rmax, After(FULL, Init(rmax), run), more);
    }
  }

  // ---- refinement of the abstract lock ----

  function LabelOf(c: Call): Abs.Label {
    match c
    case ReadLock(p) => Abs.EnterRead(p)
    case ReadUnlock(p) => Abs.LeaveRead(p)
    case WriteLock(p) => Abs.EnterWrite(p)
    case WriteUnlock(p) => Abs.LeaveWrite(p)
  }

  function Labels(run: seq<Call>): seq<Abs.Label> {
    if run == [] then [] else [LabelOf(run[0])] + Labels(run[1..])
  }

  lemma CallSimulates(rmax: nat, s: State, c: Call)
    requires rmax <= SEMVMX && Inv(rmax, s) && Disciplined(s, c) && Result(FULL, s, c).Done?
    ensures var l, t := Abs.Lock(s.readers, s.writers), Next(FULL, s, c);
            Abs.Allowed(l, LabelOf(c)) && Abs.Do(l, LabelOf(c)) == Abs.Lock(t.readers, t.writers)
  {
    CallOutcome(rmax, s, c);
  }

  lemma {:induction false} RunSimulates(rmax: nat, s: State, run: seq<Call>)
    requires rmax <= SEMVMX && Inv(rmax, s) && Runs(FULL, s, run)
    ensures var t := After(FULL, s, run);
            Abs.Execute(Abs.Lock(s.readers, s.writers), Labels(run)) == Some(Abs.Lock(t.readers, t.writers))
    decreases |run|
  {
    if run != [] {
      CallOutcome(rmax, s, run[0]);
      CallSimulates(rmax, s, run[0]);
      RunSimulates(rmax, Next(FULL, s, run[0]), run[1..]);
      assert Labels(run)[1..] == Labels(run[1..]);
    }
  }

  /** Every run of calls is, call by call, a run of the abstract lock. */
  lemma RefinesAbstractLock(rmax: nat, run: seq<Call>)
    requires rmax <= SEMVMX && Runs(FULL, Init(rmax), run)
    ensures var t := After(FULL, Init(rmax), run);
            Abs.Execute(Abs.FREE, Labels(run)) == Some(Abs.Lock(t.readers, t.writers))
  {
    RunSimulates(rmax, Init(rmax), run);
  }

  /** What the abstract lock allows, with at most `rmax` readers at any time. */
  predicate FitsRoom(rmax: nat, l: Abs.Lock, labels: seq<Abs.Label>)
    decreases |labels|
  {
    labels == [] || (Abs.Allowed(l, labels[0]) && |Abs.Do(l, labels[0]).readers| <= rmax
                     && FitsRoom(rmax, Abs.Do(l, labels[0]), labels[1..]))
  }

  lemma CallIsAllowed(rmax: nat, s: State, c: Call)
    requires rmax <= SEMVMX && Inv(rmax, s)
    ensures var l, a := Abs.Lock(s.readers, s.writers), LabelOf(c);
            Disciplined(s, c) && Result(FULL, s, c).Done? <==> Abs.Allowed(l, a) && |Abs.Do(l, a).readers| <= rmax
  {
    if Disciplined(s, c) {
      CallOutcome(rmax, s, c);
    }
  }

  lemma {:induction false} RunFits(rmax: nat, s: State, run: seq<Call>)
    requires rmax <= SEMVMX && Inv(rmax, s)
    ensures Runs(FULL, s, run) <==> FitsRoom(rmax, Abs.Lock(s.readers, s.writers), Labels(run))
    decreases |run|
  {
    if run != [] {
      assert Labels(run)[1..] == Labels(run[1..]);
      CallIsAllowed(rmax, s, run[0]);
      if Disciplined(s, run[0]) && Result(FULL, s, run[0]).Done? {
        CallOutcome(rmax, s, run[0]);
        CallSimulates(rmax, s, run[0]);
        RunFits(rmax, Next(FULL, s, run[0]), run[1..]);
      }
    }
  }

  /** Both directions: a sequence of calls can all return exactly if the abstract lock allows it
      and never more than `rmax` readers are inside. */
  lemma RunsAreThoseOfAbstractLock(rmax: nat, run: seq<Call>)
    requires rmax <= 32767
    ensures Runs(FULL, Init(rmax), run) <==> FitsRoom(rmax, Abs.FREE, Labels(run))
  {
    RunFits(rmax, Init(rmax), run);
  }

  // ---- the semaphore set, updated in place ----

  class RwLock {
    const rmax: nat
    var values: Values
    ghost var readers: set<nat>
    ghost var writers: set<nat>

    ghost function View(): State
      reads this
    {
      State(values, readers, writers)
    }

    ghost predicate Valid()
      reads this
    {
      rmax <= SEMVMX && Inv(rmax, View())
    }

    /** `semctl` refuses an initial value above SEMVMX, and then the process exits. */
    constructor (rmax: nat)
      requires rmax <= SEMVMX
      ensures this.rmax == rmax && View() == Init(rmax) && Valid()
    {
      this.rmax := rmax;
      values := Values(0, 0, 1, rmax);
      readers, writers := {}, {};
    }

    /** One `semop`: a working copy is changed operation by operation and kept only if none of
        them makes the caller sleep or fail. */
    method DoOps(ops: seq<SemBuf>) returns (r: Outcome)
      requires Addressable(ops)
      modifies this`values
      ensures r == SemOp(old(values), ops)
      ensures values == if r.Done? then r.values else old(values)
    {
      var work := values;
      for i := 0 to |ops|
        invariant values == old(values)
        invariant SemOp(work, ops[i..]) == SemOp(values, ops)
      {
        var one := ApplyOp(work, ops[i]);
        assert ops[i..][1..] == ops[i + 1..];
        if !one.Done? {
          return one;
        }
        work := one.values;
      }
      values := work;
      r := Done(work);
    }

    /** Returns true if process `p` gets the lock, false if it sleeps. */
    method ReadLock(ghost p: nat) returns (entered: bool)
      requires Valid() && p !in readers && p !in writers
      modifies this
      ensures Valid() && entered == (|old(readers)| < rmax && old(writers) == {})
      ensures readers == (if entered then old(readers) + {p} else old(readers)) && writers == old(writers)
    {
      CallOutcome(rmax, View(), Call.ReadLock(p));
      var r := DoOps([SemBuf(BARRIER, -1), SemBuf(TURNSTILE, -1), SemBuf(TURNSTILE, 1),
                      SemBuf(WRITE, 0), SemBuf(READ, 1)]);
      entered := r.Done?;
      if entered {
        readers := readers + {p};
      }
    }

    method ReadUnlock(ghost p: nat)
      requires Valid() && p in readers
      modifies this
      ensures Valid() && readers == old(readers) - {p} && writers == old(writers)
    {
      CallOutcome(rmax, View(), Call.ReadUnlock(p));
      var r := DoOps([SemBuf(BARRIER, 1), SemBuf(READ, -1)]);
      readers := readers - {p};
    }

    method WriteLock(ghost p: nat) returns (entered: bool)
      requires Valid() && p !in readers && p !in writers
      modifies this
      ensures Valid() && entered == (old(readers) == {} && old(writers) == {})
      ensures writers == (if entered then {p} else old(writers)) && readers == old(readers)
    {
      CallOutcome(rmax, View(), Call.WriteLock(p));
      var r := DoOps([SemBuf(TURNSTILE, -1), SemBuf(READ, 0), SemBuf(WRITE, 0), SemBuf(WRITE, 1)]);
      entered := r.Done?;
      if entered {
        writers := writers + {p};
      }
    }

    method WriteUnlock(ghost p: nat)
      requires Valid() && p in writers
      modifies this
      ensures Valid() && writers == {} && readers == old(readers)
    {
      CallOutcome(rmax, View(), Call.WriteUnlock(p));
      SizeOfAtMostOne(writers, p);
      var r := DoOps([SemBuf(TURNSTILE, 1), SemBuf(WRITE, -1)]);
      writers := writers - {p};
    }
  }
}
