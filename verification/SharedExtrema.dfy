/** A parent that generates series of numbers and a child that finds their extrema, sharing one
    memory block guarded by one semaphore (task12/main.c). The flag `calculated` is set before
    the extrema are computed, so everything rests on the semaphore. */
module SharedExtrema {

  const SERIES_SIZE := 16
  const INT_MAX: int := 0x7FFF_FFFF
  const INT_MIN: int := -0x8000_0000

  type Int = x: int | -0x8000_0000 <= x <= 0x7FFF_FFFF

  /** rand() never returns a negative number. */
  type Rand = x: Int | 0 <= x

  /** Next statement of the parent; the numbers are lines of task12/main.c. */
  datatype ParentPc =
    | PLoop            // 78
    | PWait            // 79
    | PCheck           // 106
    | PPrint           // 109-112
    | PClear           // 116
    | PSize            // 117
    | PFill(j: nat)    // 120-121
    | PCount           // 124
    | PPost            // 84
    | PDone

  /** Next statement of the child. */
  datatype ChildPc =
    | CLoop            // 94
    | CWait            // 95
    | CCheck           // 128
    | CMin             // 131
    | CMax             // 132
    | CFlag            // 133
    | CTestMax(j: nat) // 135-137
    | CTestMin(j: nat) // 139-140
    | CPost            // 100
    | CDone

  datatype Line = Line(min: Int, max: Int)

  datatype Process = Generator | Evaluator

  /** The shared block, both processes, and the history of series completed by the parent,
      series evaluated by the child, and lines printed. `stop` is an ordinary global, so each
      process has its own: `stopped` holds those that have seen SIGINT. */
  datatype State = State(
    sem: nat, numbers: seq<Int>, size: nat, max: Int, min: Int, calculated: bool,
    stopped: set<Process>, parent: ParentPc, child: ChildPc, i: nat, firstIter: bool,
    series: seq<seq<Int>>, evaluated: seq<seq<Int>>, printed: seq<Line>)

  /** SIGINT delivered to one process, a step of the parent with the value rand() would return,
      or a step of the child. */
  datatype Move = Interrupt(who: Process) | Parent(r: Rand) | Child

  ghost predicate Initial(s: State) {
    && s.sem == 1 && |s.numbers| == SERIES_SIZE && s.size == 0 && s.calculated && s.stopped == {}
    && s.parent == PLoop && s.child == CLoop && s.i == 0 && s.firstIter
    && s.series == [] && s.evaluated == [] && s.printed == []
  }

  /** Every access to `numbers` that a process is about to make is inside the array. A state
      where this fails has no successors; NeverOutOfBounds shows that none is reached. */
  predicate InBounds(s: State) {
    && s.size <= |s.numbers|
    && (s.child.CTestMin? ==> s.child.j < |s.numbers|)
  }

  predicate Enabled(s: State, m: Move) {
    InBounds(s) &&
    match m
    case Interrupt(_) => true
    case Parent(_) => s.parent != PDone && (s.parent == PWait ==> s.sem > 0)
    case Child => s.child != CDone && (s.child == CWait ==> s.sem > 0)
  }

  function ParentStep(s: State, r: Rand): State
    requires Enabled(s, Parent(r))
  {
    match s.parent
    case PLoop => s.(parent := if Generator in s.stopped then PDone else PWait)
    case PWait => s.(parent := PCheck, sem := s.sem - 1)
    case PCheck => s.(parent := if s.calculated then PPrint else PPost)
    case PPrint =>
      if s.firstIter then s.(parent := PClear, firstIter := false)
      else s.(parent := PClear, printed := s.printed + [Line(s.min, s.max)])
    case PClear => s.(parent := PSize, calculated := false)
    case PSize => s.(parent := PFill(0), size := 1 + r % (SERIES_SIZE - 1))
    case PFill(j) =>
      if j >= s.size then s.(parent := PCount)
      else s.(parent := PFill(j + 1), numbers := s.numbers[j := r])
    case PCount => s.(parent := PPost, i := s.i + 1, series := s.series + [s.numbers[..s.size]])
    case PPost => s.(parent := PLoop, sem := s.sem + 1)
  }

  function ChildStep(s: State): State
    requires Enabled(s, Child)
  {
    match s.child
    case CLoop => s.(child := if Evaluator in s.stopped then CDone else CWait)
    case CWait => s.(child := CCheck, sem := s.sem - 1)
    case CCheck => s.(child := if s.calculated then CPost else CMin)
    case CMin => s.(child := CMax, min := INT_MAX)
    case CMax => s.(child := CFlag, max := INT_MIN)
    case CFlag => s.(child := CTestMax(0), calculated := true)
    case CTestMax(j) =>
      if j >= s.size then s.(child := CPost, evaluated := s.evaluated + [s.numbers[..s.size]])
      else s.(child := CTestMin(j), max := if s.numbers[j] > s.max then s.numbers[j] else s.max)
    case CTestMin(j) => s.(child := CTestMax(j + 1), min := if s.numbers[j] < s.min then s.numbers[j] else s.min)
    case CPost => s.(child := CLoop, sem := s.sem + 1)
  }

  function Step(s: State, m: Move): State
    requires Enabled(s, m)
  {
    match m
    case Interrupt(who) => s.(stopped := s.stopped + {who})
    case Parent(r) => ParentStep(s, r)
    case Child => ChildStep(s)
  }

  // ---- the invariant ----

  /** `m` is the greatest of `xs`, or INT_MIN while there is nothing greater. */
  ghost predicate MaxOf(xs: seq<Int>, m: int) {
    (forall k :: 0 <= k < |xs| ==> xs[k] <= m) && (m == INT_MIN || m in xs)
  }

  ghost predicate MinOf(xs: seq<Int>, m: int) {
    (forall k :: 0 <= k < |xs| ==> m <= xs[k]) && (m == INT_MAX || m in xs)
  }

  ghost predicate Extrema(xs: seq<Int>, min: int, max: int) {
    xs != [] && MinOf(xs, min) && MaxOf(xs, max)
  }

  /** The true minimum and maximum, in plain terms. */
  lemma ExtremaAreTrue(xs: seq<Int>, min: int, max: int)
    ensures Extrema(xs, min, max) <==>
              xs != [] && min in xs && max in xs && forall k :: 0 <= k < |xs| ==> min <= xs[k] <= max
  {
    if Extrema(xs, min, max) {
      assert min <= xs[0] <= max;
      assert xs[0] in xs;
    }
  }

  predicate ParentInside(pc: ParentPc) { pc != PLoop && pc != PWait && pc != PDone }

  predicate ChildInside(pc: ChildPc) { pc != CLoop && pc != CWait && pc != CDone }

  /** The parent has taken the extrema and is replacing the series. */
  predicate Generating(pc: ParentPc) { pc.PClear? || pc.PSize? || pc.PFill? || pc.PCount? }

  predicate Evaluating(pc: ChildPc) { pc.CMin? || pc.CMax? || pc.CFlag? || pc.CTestMax? || pc.CTestMin? }

  /** The last completed series is still in the block and awaits evaluation. */
  ghost predicate Pending(s: State)
    requires s.size <= |s.numbers|
  {
    && s.series != [] && s.evaluated == s.series[..|s.series| - 1]
    && s.size >= 1 && s.numbers[..s.size] == s.series[|s.series| - 1]
  }

  /** Every completed series is evaluated, and the block holds the extrema of the last. */
  ghost predicate Ready(s: State) {
    && s.evaluated == s.series
    && (s.series != [] ==> Extrema(s.series[|s.series| - 1], s.min, s.max))
  }

  ghost predicate PrintedSoFar(s: State) {
    && |s.printed| == (if Generating(s.parent) || s.i == 0 then s.i else s.i - 1)
    && |s.printed| <= |s.series|
    && (forall k :: 0 <= k < |s.printed| ==> Extrema(s.series[k], s.printed[k].min, s.printed[k].max))
  }

  ghost predicate GeneratingInv(s: State) {
    && s.evaluated == s.series
    && (s.parent.PClear? <==> s.calculated)
    && (s.parent.PFill? || s.parent.PCount? ==> s.size >= 1)
  }

  ghost predicate EvaluatingInv(s: State)
    requires s.size <= |s.numbers|
  {
    && Pending(s)
    && (s.calculated <==> s.child.CTestMax? || s.child.CTestMin?)
    && (s.child.CMax? || s.child.CFlag? ==> s.min == INT_MAX)
    && (s.child.CFlag? ==> s.max == INT_MIN)
    && (s.child.CTestMax? ==> s.child.j <= s.size && Scanned(s, s.child.j, s.child.j))
    && (s.child.CTestMin? ==> s.child.j < s.size && Scanned(s, s.child.j + 1, s.child.j))
  }

  /** The maximum covers the first `j` numbers, the minimum the first `k`. */
  ghost predicate Scanned(s: State, j: nat, k: nat)
    requires j <= |s.numbers| && k <= |s.numbers|
  {
    MaxOf(s.numbers[..j], s.max) && MinOf(s.numbers[..k], s.min)
  }

  /** What the processes outside their critical sections find. */
  ghost predicate RestingInv(s: State)
    requires s.size <= |s.numbers|
  {
    && (s.parent == PPrint ==> s.calculated)
    && if s.calculated then Ready(s) else Pending(s)
  }

  ghost predicate Inv(s: State) {
    && |s.numbers| == SERIES_SIZE && s.size < SERIES_SIZE
    && s.sem + (if ParentInside(s.parent) then 1 else 0) + (if ChildInside(s.child) then 1 else 0) == 1
    && s.i == |s.series|
    && (s.firstIter <==> s.i == 0 && !Generating(s.parent))
    && PrintedSoFar(s)
    && (if Generating(s.parent) then GeneratingInv(s)
        else if Evaluating(s.child) then EvaluatingInv(s)
        else RestingInv(s))
  }

  lemma InvPrint(s: State, r: Rand)
    requires Inv(s) && Enabled(s, Parent(r)) && s.parent.PPrint?
    ensures Inv(ParentStep(s, r))
  {
  }

  lemma InvCount(s: State, r: Rand)
    requires Inv(s) && Enabled(s, Parent(r)) && s.parent.PCount?
    ensures Inv(ParentStep(s, r))
  {
    var t := ParentStep(s, r);
    assert t.series[..|t.series| - 1] == s.series;
  }

  lemma InvGenerate(s: State, r: Rand)
    requires Inv(s) && Enabled(s, Parent(r)) && (s.parent.PClear? || s.parent.PSize? || s.parent.PFill?)
    ensures Inv(ParentStep(s, r))
  {
  }

  lemma InvParentGate(s: State, r: Rand)
    requires Inv(s) && Enabled(s, Parent(r)) && (!ParentInside(s.parent) || s.parent.PCheck? || s.parent.PPost?)
    ensures Inv(ParentStep(s, r))
  {
  }

  lemma InvParent(s: State, r: Rand)
    requires Inv(s) && Enabled(s, Parent(r))
    ensures Inv(ParentStep(s, r))
  {
    if s.parent.PPrint? {
      InvPrint(s, r);
    } else if s.parent.PCount? {
      InvCount(s, r);
    } else if Generating(s.parent) {
      InvGenerate(s, r);
    } else {
      InvParentGate(s, r);
    }
  }

  lemma MaxNext(xs: seq<Int>, j: nat, m: Int)
    requires j < |xs| && MaxOf(xs[..j], m)
    ensures MaxOf(xs[..j + 1], if xs[j] > m then xs[j] else m)
  {
    assert xs[..j + 1] == xs[..j] + [xs[j]];
  }

  lemma MinNext(xs: seq<Int>, j: nat, m: Int)
    requires j < |xs| && MinOf(xs[..j], m)
    ensures MinOf(xs[..j + 1], if xs[j] < m then xs[j] else m)
  {
    assert xs[..j + 1] == xs[..j] + [xs[j]];
  }

  lemma InvTestMax(s: State)
    requires Inv(s) && Enabled(s, Child) && s.child.CTestMax? && s.child.j < s.size
    ensures Inv(ChildStep(s))
  {
    MaxNext(s.numbers, s.child.j, s.max);
  }

  lemma InvTestMin(s: State)
    requires Inv(s) && Enabled(s, Child) && s.child.CTestMin?
    ensures Inv(ChildStep(s))
  {
    MinNext(s.numbers, s.child.j, s.min);
  }

  lemma InvEvaluated(s: State)
    requires Inv(s) && Enabled(s, Child) && s.child.CTestMax? && s.child.j >= s.size
    ensures Inv(ChildStep(s))
  {
    assert s.series == s.series[..|s.series| - 1] + [s.series[|s.series| - 1]];
  }

  lemma InvReset(s: State)
    requires Inv(s) && Enabled(s, Child) && (s.child.CMin? || s.child.CMax? || s.child.CFlag?)
    ensures Inv(ChildStep(s))
  {
    assert s.numbers[..0] == [];
  }

  lemma InvChildGate(s: State)
    requires Inv(s) && Enabled(s, Child) && !Evaluating(s.child)
    ensures Inv(ChildStep(s))
  {
  }

  lemma InvChild(s: State)
    requires Inv(s) && Enabled(s, Child)
    ensures Inv(ChildStep(s))
  {
    if !Evaluating(s.child) {
      InvChildGate(s);
    } else if s.child.CTestMin? {
      InvTestMin(s);
    } else if s.child.CTestMax? {
      if s.child.j < s.size { InvTestMax(s); } else { InvEvaluated(s); }
    } else {
      InvReset(s);
    }
  }

  predicate Schedulable(s: State, run: seq<Move>)
    decreases |run|
  {
    run == [] || (Enabled(s, run[0]) && Schedulable(Step(s, run[0]), run[1..]))
  }

  function After(s: State, run: seq<Move>): State
    requires Schedulable(s, run)
    decreases |run|
  {
    if run == [] then s else After(Step(s, run[0]), run[1..])
  }

  lemma InvStep(s: State, m: Move)
    requires Inv(s) && Enabled(s, m)
    ensures Inv(Step(s, m))
  {
    match m
    case Interrupt(_) =>
    case Parent(r) => InvParent(s, r);
    case Child => InvChild(s);
  }

  lemma {:induction false} InvRun(s: State, run: seq<Move>)
    requires Inv(s) && Schedulable(s, run)
    ensures Inv(After(s, run))
    decreases |run|
  {
    if run != [] {
      InvStep(s, run[0]);
      InvRun(Step(s, run[0]), run[1..]);
    }
  }

  /** No interleaving leads out of the bounds of `numbers`. */
  lemma NeverOutOfBounds(s: State, run: seq<Move>)
    requires Initial(s) && Schedulable(s, run)
    ensures InBounds(After(s, run))
  {
    InvRun(s, run);
  }

  /** Over every interleaving: the k-th line printed holds the true minimum and maximum of the
      k-th series, and between two generations all series but the last have been printed. */
  lemma PrintedLinesAreExtrema(s: State, run: seq<Move>, k: nat)
    requires Initial(s) && Schedulable(s, run)
    ensures var t := After(s, run);
            && t.i == |t.series|
            && |t.printed| == (if Generating(t.parent) || t.i == 0 then t.i else t.i - 1)
            && (k < |t.printed| ==>
                  var xs, line := t.series[k], t.printed[k];
                  line.min in xs && line.max in xs && forall x :: x in xs ==> line.min <= x <= line.max)
  {
    InvRun(s, run);
    var t := After(s, run);
    if k < |t.printed| {
      ExtremaAreTrue(t.series[k], t.printed[k].min, t.printed[k].max);
    }
  }

  /** Every series is evaluated as it was generated, once, in order, and before the next one
      overwrites it: the evaluated series are the completed ones, or all but the last. */
  lemma NothingLostOrEvaluatedTwice(s: State, run: seq<Move>)
    requires Initial(s) && Schedulable(s, run)
    ensures var t := After(s, run);
            && (t.evaluated == t.series || (t.series != [] && t.evaluated == t.series[..|t.series| - 1]))
            && (Generating(t.parent) ==> t.evaluated == t.series)
            && !(ParentInside(t.parent) && ChildInside(t.child))
  {
    InvRun(s, run);
  }

  /** Steps the process in its critical section still has to take, at most 36. */
  function Remaining(s: State): nat
    requires s.size < SERIES_SIZE
  {
    match s.parent
    case PCheck => 22
    case PPrint => 21
    case PClear => 20
    case PSize => 19
    case PFill(j) => if j < s.size then 3 + s.size - j else 3
    case PCount => 2
    case PPost => 1
    case _ =>
      match s.child
      case CCheck => 36
      case CMin => 35
      case CMax => 34
      case CFlag => 33
      case CTestMax(j) => if j < s.size then 2 + 2 * (s.size - j) else 2
      case CTestMin(j) => if j < s.size then 1 + 2 * (s.size - j) else 3
      case CPost => 1
      case _ => 0
  }

  lemma ParentSectionShrinks(s: State, m: Move)
    requires Inv(s) && ParentInside(s.parent) && Enabled(s, m)
    ensures Step(s, m).size < SERIES_SIZE
    ensures if m.Parent? then Remaining(Step(s, m)) < Remaining(s) else Remaining(Step(s, m)) == Remaining(s)
  {
  }

  lemma ChildSectionShrinks(s: State, m: Move)
    requires Inv(s) && ChildInside(s.child) && Enabled(s, m)
    ensures Step(s, m).size < SERIES_SIZE
    ensures if m.Child? then Remaining(Step(s, m)) < Remaining(s) else Remaining(Step(s, m)) == Remaining(s)
  {
  }

  /** The semaphore always comes back. On every run, while it is taken its holder can step and
      each of its steps uses up one of at most 36, which nothing else gives back; and while it is
      free, every process that is not done can step. Whether a waiting process is ever the one to
      get it is a different matter: see OvertakenExactlyWhen. */
  lemma SemaphoreComesBack(s: State, run: seq<Move>, r: Rand, m: Move)
    requires Initial(s) && Schedulable(s, run) && Enabled(After(s, run), m)
    ensures var t := After(s, run);
            && t.size < SERIES_SIZE && Remaining(t) <= 36
            && (t.sem > 0 ==> (t.parent == PDone || Enabled(t, Parent(r))) && (t.child == CDone || Enabled(t, Child)))
            && (t.sem == 0 ==>
                  var holder := if ParentInside(t.parent) then Parent(r) else Child;
                  && Enabled(t, holder)
                  && Step(t, m).size < SERIES_SIZE
                  && if m.Parent? == holder.Parent? && m.Child? == holder.Child?
                     then Remaining(Step(t, m)) < Remaining(t) else Remaining(Step(t, m)) == Remaining(t))
  {
    InvRun(s, run);
    var t := After(s, run);
    if ParentInside(t.parent) {
      ParentSectionShrinks(t, m);
    } else if ChildInside(t.child) {
      ChildSectionShrinks(t, m);
    }
  }

  lemma Prepend(s: State, m: Move, rest: seq<Move>)
    requires Enabled(s, m) && Schedulable(Step(s, m), rest)
    ensures Schedulable(s, [m] + rest) && After(s, [m] + rest) == After(Step(s, m), rest)
  {
    assert ([m] + rest)[1..] == rest;
  }

  // ---- whether a waiting process gets its turn ----

  function Other(who: Process): Process { if who.Generator? then Evaluator else Generator }

  /** A move of the process; what rand() returns does not matter to its scheduling. */
  function Turn(who: Process): Move { if who.Generator? then Parent(0) else Child }

  predicate Of(who: Process, m: Move) { if who.Generator? then m.Parent? else m.Child? }

  predicate AtWait(s: State, who: Process) { if who.Generator? then s.parent == PWait else s.child == CWait }

  predicate IsDone(s: State, who: Process) { if who.Generator? then s.parent == PDone else s.child == CDone }

  ghost predicate OnlyBy(who: Process, run: seq<Move>) { forall k :: 0 <= k < |run| ==> Of(who, run[k]) }

  /** The process can go on for `length` steps or more while the other one is left where it is. */
  ghost predicate CanRunAlone(s: State, who: Process, length: nat) {
    exists more :: OnlyBy(who, more) && |more| >= length && Schedulable(s, more)
  }

  lemma UnstoppedStep(s: State, who: Process)
    requires Inv(s) && AtWait(s, Other(who)) && !IsDone(s, who) && who !in s.stopped
    ensures Enabled(s, Turn(who))
    ensures var t := Step(s, Turn(who));
            Inv(t) && AtWait(t, Other(who)) && !IsDone(t, who) && who !in t.stopped
  {
    InvStep(s, Turn(who));
  }

  /** A process that has not seen SIGINT never stops while the other stands at its wait. */
  lemma {:induction false} UnstoppedGoesOn(s: State, who: Process, length: nat) returns (more: seq<Move>)
    requires Inv(s) && AtWait(s, Other(who)) && !IsDone(s, who) && who !in s.stopped
    ensures OnlyBy(who, more) && |more| == length && Schedulable(s, more)
    decreases length
  {
    more := [];
    if length > 0 {
      UnstoppedStep(s, who);
      more := UnstoppedGoesOn(Step(s, Turn(who)), who, length - 1);
      Prepend(s, Turn(who), more);
      more := [Turn(who)] + more;
    }
  }

  /** Steps a process that has seen SIGINT can still take while the other stands at its wait: it
      tests its flag once more after its section. */
  function Budget(s: State, who: Process): (n: nat)
    requires s.size < SERIES_SIZE
    ensures Inv(s) ==> n <= 38
  {
    match who
    case Generator =>
      (match s.parent
       case PDone => 0
       case PLoop => 1
       case PWait => 24
       case _ => 1 + Remaining(s))
    case Evaluator =>
      (match s.child
       case CDone => 0
       case CLoop => 1
       case CWait => 38
       case _ => 1 + Remaining(s))
  }

  lemma BudgetShrinks(s: State, who: Process, m: Move)
    requires Inv(s) && AtWait(s, Other(who)) && (IsDone(s, who) || who in s.stopped)
    requires Of(who, m) && Enabled(s, m)
    ensures var t := Step(s, m);
            && t.size < SERIES_SIZE && Budget(t, who) < Budget(s, who)
            && AtWait(t, Other(who)) && (IsDone(t, who) || who in t.stopped)
  {
    if ParentInside(s.parent) {
      ParentSectionShrinks(s, m);
    } else if ChildInside(s.child) {
      ChildSectionShrinks(s, m);
    }
  }

  lemma {:induction false} StoppedRunsOut(s: State, who: Process, more: seq<Move>)
    requires Inv(s) && AtWait(s, Other(who)) && (IsDone(s, who) || who in s.stopped)
    requires OnlyBy(who, more) && Schedulable(s, more)
    ensures |more| <= Budget(s, who)
    decreases |more|
  {
    if more != [] {
      BudgetShrinks(s, who, more[0]);
      InvStep(s, more[0]);
      StoppedRunsOut(Step(s, more[0]), who, more[1..]);
    }
  }

  /** When one process is left waiting, in any reachable state: the other can overtake it for
      ever if and only if it is not done and has not seen SIGINT, which its loop tests before
      each round. Otherwise 38 steps are the most it can still take. */
  lemma OvertakenExactlyWhen(s: State, run: seq<Move>, who: Process, length: nat)
    requires Initial(s) && Schedulable(s, run) && AtWait(After(s, run), Other(who)) && length > 38
    ensures var t := After(s, run);
            CanRunAlone(t, who, length) <==> !IsDone(t, who) && who !in t.stopped
  {
    InvRun(s, run);
    var t := After(s, run);
    if !IsDone(t, who) && who !in t.stopped {
      var more := UnstoppedGoesOn(t, who, length);
    } else if CanRunAlone(t, who, length) {
      var more :| OnlyBy(who, more) && |more| >= length && Schedulable(t, more);
      StoppedRunsOut(t, who, more);
    }
  }

  lemma {:induction false} WaiterStays(s: State, who: Process, more: seq<Move>)
    requires AtWait(s, Other(who)) && OnlyBy(who, more) && Schedulable(s, more)
    ensures AtWait(After(s, more), Other(who))
    decreases |more|
  {
    if more != [] {
      WaiterStays(Step(s, more[0]), who, more[1..]);
    }
  }

  /** And whenever the other process cannot step any more, the waiting one gets in. */
  lemma WaiterGetsIn(s: State, run: seq<Move>, who: Process, more: seq<Move>)
    requires Initial(s) && Schedulable(s, run) && AtWait(After(s, run), Other(who))
    requires OnlyBy(who, more) && Schedulable(After(s, run), more)
    ensures var t := After(After(s, run), more);
            AtWait(t, Other(who)) && (Enabled(t, Turn(who)) || Enabled(t, Turn(Other(who))))
  {
    InvRun(s, run);
    InvRun(After(s, run), more);
    WaiterStays(After(s, run), who, more);
  }

  // ---- the critical sections, each taken as a whole ----

  datatype Block = Block(numbers: seq<Int>, size: nat, max: Int, min: Int, calculated: bool)

  function BlockOf(s: State): Block {
    Block(s.numbers, s.size, s.max, s.min, s.calculated)
  }

  /** rand() has been called for the size and for every number. */
  predicate Supply(b: Block, rands: seq<Rand>) {
    b.calculated ==> rands != [] && 1 + rands[0] % (SERIES_SIZE - 1) < |rands|
  }

  /** What generate_series makes of the block; `rands` are the values rand() returns. */
  function Generated(b: Block, rands: seq<Rand>): Block
    requires |b.numbers| == SERIES_SIZE && Supply(b, rands)
  {
    if !b.calculated then b
    else
      var n := 1 + rands[0] % (SERIES_SIZE - 1);
      b.(calculated := false, size := n, numbers := rands[1..n + 1] + b.numbers[n..])
  }

  function LinePrinted(b: Block, firstIter: bool): seq<Line> {
    if b.calculated && !firstIter then [Line(b.min, b.max)] else []
  }

  /** What calc_extrema makes of the block. */
  ghost predicate Evaluated(b: Block, t: Block)
    requires b.size <= |b.numbers|
  {
    if b.calculated then t == b
    else
      && t == b.(max := t.max, min := t.min, calculated := true)
      && MaxOf(b.numbers[..b.size], t.max) && MinOf(b.numbers[..b.size], t.min)
  }

  /** Only the process inside its section touches the block or the parent's counters. */
  lemma SectionUndisturbed(s: State, m: Move)
    requires Inv(s) && Enabled(s, m)
    requires if ParentInside(s.parent) then !m.Parent? else ChildInside(s.child) && !m.Child?
    ensures var t := Step(s, m);
            && BlockOf(t) == BlockOf(s) && t.i == s.i && t.firstIter == s.firstIter && t.printed == s.printed
            && (ParentInside(s.parent) ==> t.parent == s.parent)
            && (ChildInside(s.child) ==> t.child == s.child)
  {
  }

  predicate AtPost(s: State, who: Process) { if who.Generator? then s.parent == PPost else s.child == CPost }

  /** The process does not reach its post before the end of the run. */
  predicate UpToPost(s: State, run: seq<Move>, who: Process)
    requires Schedulable(s, run)
    decreases |run|
  {
    run == [] || (!AtPost(s, who) && UpToPost(Step(s, run[0]), run[1..], who))
  }

  /** The value that rand() returns in this step, if the step calls it. */
  function Draw(s: State, m: Move): seq<Rand> {
    if m.Parent? && (s.parent.PSize? || (s.parent.PFill? && s.parent.j < s.size)) then [m.r] else []
  }

  function Drawn(s: State, run: seq<Move>): seq<Rand>
    requires Schedulable(s, run)
    decreases |run|
  {
    if run == [] then [] else Draw(s, run[0]) + Drawn(Step(s, run[0]), run[1..])
  }

  /** How far generate_series, entered in state `e`, has come when it has drawn `d`. */
  ghost predicate GeneratingFrom(e: State, d: seq<Rand>, s: State)
    requires |e.numbers| == SERIES_SIZE
  {
    var b, t := BlockOf(e), BlockOf(s);
    && s.i == (if s.parent == PPost && e.calculated then e.i + 1 else e.i)
    && (if s.parent == PCheck || s.parent == PPrint then s.firstIter == e.firstIter && s.printed == e.printed
        else && s.firstIter == (e.firstIter && !e.calculated)
             && s.printed == e.printed + LinePrinted(b, e.firstIter))
    && match s.parent
       case PCheck => t == b && d == []
       case PPrint => t == b && d == [] && b.calculated
       case PClear => t == b && d == [] && b.calculated
       case PSize => t == b.(calculated := false) && d == [] && b.calculated
       case PFill(j) =>
         && b.calculated && |d| == j + 1 && j <= s.size == 1 + d[0] % (SERIES_SIZE - 1)
         && t == b.(calculated := false, size := s.size, numbers := d[1..] + b.numbers[j..])
       case PCount => b.calculated && Supply(b, d) && |d| == 1 + s.size && t == Generated(b, d)
       case PPost => Supply(b, d) && |d| == (if b.calculated then 1 + s.size else 0) && t == Generated(b, d)
       case _ => false
  }

  lemma FillGoesOn(e: State, d: seq<Rand>, s: State, r: Rand)
    requires Inv(s) && |e.numbers| == SERIES_SIZE && GeneratingFrom(e, d, s) && Enabled(s, Parent(r)) && s.parent.PFill?
    ensures GeneratingFrom(e, d + Draw(s, Parent(r)), ParentStep(s, r))
  {
    var j := s.parent.j;
    if j < s.size {
      assert (d + [r])[1..] == d[1..] + [r];
      assert (d[1..] + e.numbers[j..])[j := r] == d[1..] + [r] + e.numbers[j + 1..];
    } else {
      assert d[1..s.size + 1] == d[1..];
    }
  }

  lemma OpeningGoesOn(e: State, d: seq<Rand>, s: State, r: Rand)
    requires Inv(s) && |e.numbers| == SERIES_SIZE && GeneratingFrom(e, d, s) && Enabled(s, Parent(r))
    requires s.parent.PCheck? || s.parent.PPrint? || s.parent.PClear?
    ensures GeneratingFrom(e, d, ParentStep(s, r))
  {
  }

  lemma SizeGoesOn(e: State, d: seq<Rand>, s: State, r: Rand)
    requires Inv(s) && |e.numbers| == SERIES_SIZE && GeneratingFrom(e, d, s) && Enabled(s, Parent(r)) && s.parent.PSize?
    ensures GeneratingFrom(e, d + [r], ParentStep(s, r))
  {
    assert d + [r] == [r] && [r][1..] + e.numbers[0..] == e.numbers;
  }

  lemma OthersStep(e: State, d: seq<Rand>, s: State, m: Move)
    requires Inv(s) && |e.numbers| == SERIES_SIZE && GeneratingFrom(e, d, s) && Enabled(s, m) && !m.Parent?
    ensures GeneratingFrom(e, d, Step(s, m))
  {
    SectionUndisturbed(s, m);
  }

  lemma GenerationGoesOn(e: State, d: seq<Rand>, s: State, m: Move)
    requires Inv(s) && |e.numbers| == SERIES_SIZE && GeneratingFrom(e, d, s) && Enabled(s, m) && s.parent != PPost
    ensures GeneratingFrom(e, d + Draw(s, m), Step(s, m))
  {
    if !m.Parent? {
      OthersStep(e, d, s, m);
      assert d + [] == d;
    } else if s.parent.PFill? {
      FillGoesOn(e, d, s, m.r);
    } else if s.parent.PSize? {
      SizeGoesOn(e, d, s, m.r);
    } else if s.parent.PCount? {
      assert d + [] == d;
    } else {
      OpeningGoesOn(e, d, s, m.r);
      assert d + [] == d;
    }
  }

  lemma DrawnCons(d: seq<Rand>, s: State, run: seq<Move>)
    requires run != [] && Schedulable(s, run)
    ensures d + Draw(s, run[0]) + Drawn(Step(s, run[0]), run[1..]) == d + Drawn(s, run)
  {
  }

  lemma {:induction false} GenerationRun(e: State, d: seq<Rand>, s: State, run: seq<Move>)
    requires Inv(s) && |e.numbers| == SERIES_SIZE && GeneratingFrom(e, d, s)
    requires Schedulable(s, run) && UpToPost(s, run, Generator)
    ensures GeneratingFrom(e, d + Drawn(s, run), After(s, run))
    decreases |run|
  {
    if run == [] {
      assert d + [] == d;
    } else {
      GenerationGoesOn(e, d, s, run[0]);
      InvStep(s, run[0]);
      GenerationRun(e, d + Draw(s, run[0]), Step(s, run[0]), run[1..]);
      DrawnCons(d, s, run);
    }
  }

  /** Over every interleaving: from the parent's line 106 to its next post, block, line printed
      and counters change as generate_series as a whole changes them, with the values drawn. */
  lemma ParentSection(s: State, run: seq<Move>)
    requires Inv(s) && s.parent == PCheck && Schedulable(s, run) && UpToPost(s, run, Generator)
    requires After(s, run).parent == PPost
    ensures var t, rands := After(s, run), Drawn(s, run);
            && Supply(BlockOf(s), rands) && |rands| == (if s.calculated then 1 + t.size else 0)
            && BlockOf(t) == Generated(BlockOf(s), rands)
            && (s.calculated ==> t.size == 1 + rands[0] % 15 && t.numbers[..t.size] == rands[1..])
            && t.printed == s.printed + LinePrinted(BlockOf(s), s.firstIter)
            && t.i == (if s.calculated then s.i + 1 else s.i)
            && t.firstIter == (s.firstIter && !s.calculated)
  {
    GenerationRun(s, [], s, run);
    assert [] + Drawn(s, run) == Drawn(s, run);
  }

  /** How far calc_extrema, entered with block `b`, has come; what the loop has found is known
      from the invariant. */
  ghost predicate EvaluatingFrom(b: Block, s: State)
    requires b.size <= |b.numbers|
  {
    if s.child == CCheck then BlockOf(s) == b
    else if s.child == CPost then Evaluated(b, BlockOf(s))
    else Evaluating(s.child) && !b.calculated
         && BlockOf(s) == b.(max := s.max, min := s.min, calculated := s.calculated)
  }

  lemma EvaluationGoesOn(b: Block, s: State, m: Move)
    requires Inv(s) && b.size <= |b.numbers| && EvaluatingFrom(b, s) && Enabled(s, m) && s.child != CPost
    ensures EvaluatingFrom(b, Step(s, m))
  {
    if !m.Child? {
      SectionUndisturbed(s, m);
    }
  }

  lemma {:induction false} EvaluationRun(b: Block, s: State, run: seq<Move>)
    requires Inv(s) && b.size <= |b.numbers| && EvaluatingFrom(b, s)
    requires Schedulable(s, run) && UpToPost(s, run, Evaluator)
    ensures EvaluatingFrom(b, After(s, run))
    decreases |run|
  {
    if run != [] {
      EvaluationGoesOn(b, s, run[0]);
      InvStep(s, run[0]);
      EvaluationRun(b, Step(s, run[0]), run[1..]);
    }
  }

  /** Over every interleaving: from the child's line 128 to its next post, the block changes as
      calc_extrema as a whole changes it. */
  lemma ChildSection(s: State, run: seq<Move>)
    requires Inv(s) && s.child == CCheck && Schedulable(s, run) && UpToPost(s, run, Evaluator)
    requires After(s, run).child == CPost
    ensures Evaluated(BlockOf(s), BlockOf(After(s, run)))
  {
    EvaluationRun(BlockOf(s), s, run);
  }

  predicate Inside(s: State, who: Process) {
    if who.Generator? then ParentInside(s.parent) else ChildInside(s.child)
  }

  /** And every section does come to its post. */
  lemma {:induction false} SectionEnds(s: State, who: Process) returns (run: seq<Move>)
    requires Inv(s) && Inside(s, who)
    ensures OnlyBy(who, run) && Schedulable(s, run) && UpToPost(s, run, who) && AtPost(After(s, run), who)
    decreases Remaining(s)
  {
    run := [];
    if !AtPost(s, who) {
      var m := Turn(who);
      InvStep(s, m);
      if who.Generator? {
        ParentSectionShrinks(s, m);
      } else {
        ChildSectionShrinks(s, m);
      }
      run := SectionEnds(Step(s, m), who);
      Prepend(s, m, run);
      assert ([m] + run)[1..] == run;
      run := [m] + run;
    }
  }

  // ---- the series that occur ----

  ghost predicate SeriesFit(s: State) { forall k :: 0 <= k < |s.series| ==> 1 <= |s.series[k]| <= 15 }

  lemma {:induction false} SeriesFitRun(s: State, run: seq<Move>)
    requires Inv(s) && SeriesFit(s) && Schedulable(s, run)
    ensures SeriesFit(After(s, run))
    decreases |run|
  {
    if run != [] {
      SeriesFitStep(s, run[0]);
      InvStep(s, run[0]);
      SeriesFitRun(Step(s, run[0]), run[1..]);
    }
  }

  lemma SeriesFitStep(s: State, m: Move)
    requires Inv(s) && SeriesFit(s) && Enabled(s, m)
    ensures SeriesFit(Step(s, m))
  {
  }

  /** The parent's way from the loop of line 120 to its post. */
  lemma {:induction false} FinishSeries(s: State) returns (run: seq<Move>)
    requires Inv(s) && (s.parent.PFill? || s.parent.PCount? || s.parent.PPost?) && !s.calculated
    ensures Schedulable(s, run) && Inv(After(s, run))
    ensures var t := After(s, run);
            t.parent.PPost? && t.size == s.size && !t.calculated
    decreases Remaining(s)
  {
    run := [];
    if s.parent != PPost {
      var m := Turn(Generator);
      InvStep(s, m);
      ParentSectionShrinks(s, m);
      run := FinishSeries(Step(s, m));
      Prepend(s, m, run);
      run := [m] + run;
    }
  }

  /** The parent's first steps, with the length chosen by what rand() returns at line 117. */
  lemma ReachSize(s: State, r: Rand) returns (run: seq<Move>)
    requires Initial(s)
    ensures Schedulable(s, run) && Inv(After(s, run))
    ensures var t := After(s, run);
            t.parent == PFill(0) && t.size == 1 + r % (SERIES_SIZE - 1) && !t.calculated
  {
    var m := Parent(r);
    var s1 := Step(s, m);
    var s2 := Step(s1, m);
    var s3 := Step(s2, m);
    var s4 := Step(s3, m);
    var s5 := Step(s4, m);
    Prepend(s5, m, []);
    Prepend(s4, m, [m]);
    Prepend(s3, m, [m] + [m]);
    Prepend(s2, m, [m] + ([m] + [m]));
    Prepend(s1, m, [m] + ([m] + ([m] + [m])));
    Prepend(s, m, [m] + ([m] + ([m] + ([m] + [m]))));
    run := [m] + ([m] + ([m] + ([m] + ([m] + [m]))));
    assert [m] + [] == [m];
    InvRun(s, run);
  }

  lemma {:induction false} AfterBoth(s: State, first: seq<Move>, rest: seq<Move>)
    requires Schedulable(s, first) && Schedulable(After(s, first), rest)
    ensures Schedulable(s, first + rest) && After(s, first + rest) == After(After(s, first), rest)
    decreases |first|
  {
    if first == [] {
      assert first + rest == rest;
    } else {
      assert (first + rest)[1..] == first[1..] + rest;
      AfterBoth(Step(s, first[0]), first[1..], rest);
    }
  }

  ghost predicate Occurs(s: State, length: nat) {
    exists run, k: nat :: Schedulable(s, run) && k < |After(s, run).series| && |After(s, run).series[k]| == length
  }

  /** The lengths of the series that occur are exactly those from 1 to 15. */
  lemma SeriesLengths(s: State, length: nat)
    requires Initial(s)
    ensures Occurs(s, length) <==> 1 <= length <= 15
  {
    if 1 <= length <= 15 {
      var r: Rand := length - 1;
      var first := ReachSize(s, r);
      var rest := FinishSeries(After(s, first));
      AfterBoth(s, first, rest);
      var t := After(s, first + rest);
      assert Pending(t);
      assert |t.series[|t.series| - 1]| == length;
    } else if Occurs(s, length) {
      var run, k: nat :| Schedulable(s, run) && k < |After(s, run).series| && |After(s, run).series[k]| == length;
      SeriesFitRun(s, run);
    }
  }

  // ---- the same sections, on the shared block itself ----

  class ShmBuf {
    const numbers: array<Int>
    var size: nat
    var max: Int
    var min: Int
    var calculated: bool

    ghost predicate Valid()
      reads this
    {
      numbers.Length == SERIES_SIZE && size < SERIES_SIZE
    }

    ghost function Contents(): Block
      reads this, numbers
    {
      Block(numbers[..], size, max, min, calculated)
    }

    /** main, lines 49-52. */
    constructor ()
      ensures Valid() && calculated && size == 0 && fresh(numbers)
    {
      numbers := new Int[SERIES_SIZE];
      size, max, min, calculated := 0, 0, 0, true;
    }

    /** generate_series, with the parent's two counters returned. The first of `rands`, the values
        rand() returns, gives the size. */
    method GenerateSeries(i: nat, firstIter: bool, rands: seq<Rand>)
      returns (i': nat, firstIter': bool, lines: seq<Line>)
      requires Valid() && Supply(Contents(), rands)
      modifies this`size, this`calculated, numbers
      ensures Valid() && Contents() == Generated(old(Contents()), rands)
      ensures lines == LinePrinted(old(Contents()), firstIter)
      ensures i' == if old(calculated) then i + 1 else i
      ensures firstIter' == (firstIter && !old(calculated))
      ensures old(calculated) ==>
                && !calculated && size == 1 + rands[0] % 15
                && numbers[..size] == rands[1..size + 1] && numbers[size..] == old(numbers[..])[size..]
                && lines == (if firstIter then [] else [Line(old(min), old(max))])
      ensures !old(calculated) ==> Contents() == old(Contents()) && lines == []
    {
      i', firstIter', lines := i, firstIter, [];
      if !calculated {
        return;
      }
      if firstIter' {
        firstIter' := false;
      } else {
        lines := [Line(min, max)];
      }
      calculated := false;
      size := 1 + rands[0] % (SERIES_SIZE - 1);
      for j := 0 to size
        invariant Valid() && !calculated && size == 1 + rands[0] % (SERIES_SIZE - 1)
        invariant numbers[..j] == rands[1..j + 1]
        invariant numbers[j..] == old(numbers[..])[j..]
      {
        numbers[j] := rands[j + 1];
      }
      assert numbers[..] == rands[1..size + 1] + old(numbers[..])[size..];
      i' := i' + 1;
    }

    /** calc_extrema. */
    method CalcExtrema()
      requires Valid()
      modifies this`max, this`min, this`calculated
      ensures Valid() && calculated && Evaluated(old(Contents()), Contents())
      ensures old(calculated) ==> Contents() == old(Contents())
      ensures !old(calculated) && size > 0 ==>
                && min in numbers[..size] && max in numbers[..size]
                && forall k :: 0 <= k < size ==> min <= numbers[k] <= max
    {
      if calculated {
        return;
      }
      min := INT_MAX;
      max := INT_MIN;
      calculated := true;
      for j := 0 to size
        invariant MaxOf(numbers[..j], max) && MinOf(numbers[..j], min) && calculated
      {
        assert numbers[..j + 1] == numbers[..j] + [numbers[j]];
        if numbers[j] > max {
          max := numbers[j];
        }
        if numbers[j] < min {
          min := numbers[j];
        }
      }
      assert numbers[..size] == numbers[..][..size];
      if size > 0 {
        ExtremaAreTrue(numbers[..size], min, max);
      }
    }
  }
}
