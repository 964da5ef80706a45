/** One connection of the non-blocking calculator server (task18/conn.c). Every system call may
    be refused with EAGAIN; the connection then returns and resumes at the same call later. */
module CalcConnection {

  /** Doubles with uninterpreted arithmetic: results are kept as terms over the operands. */
  datatype Double =
    | NaN
    | Literal(bits: int)
    | Sum(l: Double, r: Double)
    | Difference(l: Double, r: Double)
    | Quotient(l: Double, r: Double)
    | Product(l: Double, r: Double)

  datatype Kind = ReqArg | ReqOp | RetRes | ErrInvalidReply | Other(code: int)

  /** What the server writes: a whole msg_t, or the bare error kind of line 124. */
  datatype Packet = Msg(kind: Kind, data: Double) | ErrReport(kind: Kind)

  /** The three readings of the reply union. */
  datatype Data = Data(arg: Double, op: int, cont: int)

  datatype Reply = Reply(recvMsg: Kind, data: Data)

  /** The four uses of the MSG macro, in source order. */
  datatype Slot = LhsArg | RhsArg | Op | Res

  /** enum CONN_STATE: a _MSG and a _REPLY state for each use of the macro, END_MSG and ERROR. */
  datatype ConnState = AtMsg(slot: Slot) | AtReply(slot: Slot) | EndMsg | Error

  /** The value of CONN_STATE_END_MSG in the enumeration. */
  const CONN_STATE_END_MSG := 8

  datatype Conn = Conn(state: ConnState, lhs: Double, rhs: Double, op: int, cont: int, errMsg: Kind)

  datatype Event = Sent(packet: Packet) | Took(reply: Reply)

  /** A connection and everything it has sent and taken so far. */
  datatype Link = Link(conn: Conn, log: seq<Event>)

  /** The result of one read or write: EAGAIN, zero bytes, or a whole struct. A write ignores
      the reply. */
  datatype Outcome = Again | Zero | Full(reply: Reply)

  function KindOf(slot: Slot): Kind {
    match slot
    case LhsArg => ReqArg
    case RhsArg => ReqArg
    case Op => ReqOp
    case Res => RetRes
  }

  function Following(slot: Slot): ConnState {
    match slot
    case LhsArg => AtMsg(RhsArg)
    case RhsArg => AtMsg(Op)
    case Op => AtMsg(Res)
    case Res => EndMsg
  }

  function Store(c: Conn, slot: Slot, d: Data): Conn {
    match slot
    case LhsArg => c.(lhs := d.arg)
    case RhsArg => c.(rhs := d.arg)
    case Op => c.(op := d.op)
    case Res => c.(cont := d.cont)
  }

  function Compute(op: int, lhs: Double, rhs: Double): Double {
    if op == 1 then Sum(lhs, rhs)
    else if op == 2 then Difference(lhs, rhs)
    else if op == 3 then Quotient(lhs, rhs)
    else if op == 4 then Product(lhs, rhs)
    else NaN
  }

  function Times(x: real, y: real): real { x * y }

  function Over(x: real, y: real): (z: real)
    ensures y != 0.0 ==> Times(z, y) == x
  {
    if y == 0.0 then 0.0 else x / y
  }

  /** The value of a term over the reals, for any reading of the literals. Division by zero and
      NaN have none; they are given one so that the function is total. */
  function Value(d: Double, literal: int -> real): real {
    match d
    case NaN => 0.0
    case Literal(bits) => literal(bits)
    case Sum(l, r) => Value(l, literal) + Value(r, literal)
    case Difference(l, r) => Value(l, literal) - Value(r, literal)
    case Quotient(l, r) => Over(Value(l, literal), Value(r, literal))
    case Product(l, r) => Times(Value(l, literal), Value(r, literal))
  }

  /** `z` is what operator `op` makes of `x` and `y`: 1 adds, 2 undoes addition, 3 undoes
      multiplication, 4 multiplies. */
  predicate Solves(op: int, x: real, y: real, z: real) {
    && (op == 1 ==> z == x + y)
    && (op == 2 ==> z + y == x)
    && (op == 3 && y != 0.0 ==> Times(z, y) == x)
    && (op == 4 ==> z == Times(x, y))
  }

  /** `d` is what operator `op` makes of the operands, whatever the literals stand for, and no
      number if there is no such operator. */
  ghost predicate IsAnswer(op: int, lhs: Double, rhs: Double, d: Double) {
    && (forall literal: int -> real :: Solves(op, Value(lhs, literal), Value(rhs, literal), Value(d, literal)))
    && (op < 1 || op > 4 <==> d.NaN?)
  }

  lemma ComputeSolves(op: int, lhs: Double, rhs: Double, literal: int -> real)
    ensures Solves(op, Value(lhs, literal), Value(rhs, literal), Value(Compute(op, lhs, rhs), literal))
  {
  }

  lemma ComputeIsAnswer(op: int, lhs: Double, rhs: Double)
    ensures IsAnswer(op, lhs, rhs, Compute(op, lhs, rhs))
  {
    forall literal: int -> real
      ensures Solves(op, Value(lhs, literal), Value(rhs, literal), Value(Compute(op, lhs, rhs), literal))
    {
      ComputeSolves(op, lhs, rhs, literal);
    }
  }

  function MessageData(c: Conn): Double {
    if c.state != AtMsg(Res) then NaN else Compute(c.op, c.lhs, c.rhs)
  }

  ghost predicate Fresh(l: Link) {
    l.conn.state == AtMsg(LhsArg) && l.conn.cont == 1 && l.log == []
  }

  predicate Closed(l: Link) { l.conn.state == EndMsg }

  // ---- the connection as a machine that makes one system call per step ----

  function Goto(l: Link, state: ConnState): Link { l.(conn := l.conn.(state := state)) }

  function Logged(l: Link, e: Event): Link { l.(log := l.log + [e]) }

  function SendMsg(l: Link, slot: Slot): Link {
    Goto(Logged(l, Sent(Msg(KindOf(slot), MessageData(l.conn)))), AtReply(slot))
  }

  function Accept(l: Link, slot: Slot, r: Reply): Link {
    var l' := Logged(l, Took(r));
    if r.recvMsg != KindOf(slot) then l'.(conn := l.conn.(state := Error, errMsg := ErrInvalidReply))
    else Goto(l'.(conn := Store(l.conn, slot, r.data)), Following(slot))
  }

  function ReportError(l: Link, o: Outcome): Link {
    Goto(if o.Full? then Logged(l, Sent(ErrReport(l.conn.errMsg))) else l, EndMsg)
  }

  /** A finished round starts the next one unless the peer asked to stop. */
  function Settle(l: Link): Link {
    if l.conn.state == EndMsg && l.conn.cont != 0 then Goto(l, AtMsg(LhsArg)) else l
  }

  function Io(l: Link, o: Outcome): Link
    requires !Closed(l)
  {
    if o.Again? then l else
      match l.conn.state
      case AtMsg(slot) => if o.Zero? then Goto(l, EndMsg) else SendMsg(l, slot)
      case AtReply(slot) => if o.Zero? then Goto(l, EndMsg) else Settle(Accept(l, slot, o.reply))
      case Error => Settle(ReportError(l, o))
  }

  function Head(tape: seq<Outcome>): Outcome { if tape == [] then Again else tape[0] }

  function Tail(tape: seq<Outcome>): seq<Outcome> { if tape == [] then [] else tape[1..] }

  /** One call of handle_conn_inner: system calls until one is refused or the session ends. When
      the tape of outcomes runs out, every further call is refused. */
  function Inner(l: Link, tape: seq<Outcome>): (r: (Link, seq<Outcome>))
    ensures |r.1| <= |tape|
    decreases |tape|
  {
    if Closed(l) then (l, tape)
    else if Head(tape).Again? then (l, Tail(tape))
    else Inner(Io(l, tape[0]), tape[1..])
  }

  // ---- schedule independence ----

  function Erase(tape: seq<Outcome>): seq<Outcome> {
    if tape == [] then []
    else if tape[0].Again? then Erase(tape[1..])
    else [tape[0]] + Erase(tape[1..])
  }

  /** `k` calls of handle_conn_inner, one per epoll event, as long as the connection lives. */
  function Calls(l: Link, tape: seq<Outcome>, k: nat): (r: (Link, seq<Outcome>))
    ensures |r.1| <= |tape|
    decreases k
  {
    if k == 0 || Closed(l) then (l, tape)
    else
      var r := Inner(l, tape);
      Calls(r.0, r.1, k - 1)
  }

  function Feed(l: Link, tape: seq<Outcome>): Link
    decreases |tape|
  {
    if tape == [] || Closed(l) then l else Feed(Io(l, tape[0]), tape[1..])
  }

  ghost predicate Suffix(rest: seq<Outcome>, tape: seq<Outcome>) {
    |rest| <= |tape| && rest == tape[|tape| - |rest|..]
  }

  lemma {:induction false} InnerSuffix(l: Link, tape: seq<Outcome>)
    ensures Suffix(Inner(l, tape).1, tape)
    decreases |tape|
  {
    if !Closed(l) && !Head(tape).Again? {
      InnerSuffix(Io(l, tape[0]), tape[1..]);
    }
  }

  lemma {:induction false} CallsSuffix(l: Link, tape: seq<Outcome>, k: nat)
    ensures Suffix(Calls(l, tape, k).1, tape)
    decreases k
  {
    if k != 0 && !Closed(l) {
      var r := Inner(l, tape);
      InnerSuffix(l, tape);
      CallsSuffix(r.0, r.1, k - 1);
    }
  }

  lemma {:induction false} FeedAppend(l: Link, a: seq<Outcome>, b: seq<Outcome>)
    ensures Feed(l, a + b) == Feed(Feed(l, a), b)
    decreases |a|
  {
    if a == [] {
      assert a + b == b;
    } else if !Closed(l) {
      assert (a + b)[1..] == a[1..] + b;
      FeedAppend(Io(l, a[0]), a[1..], b);
    }
  }

  lemma {:induction false} FeedErase(l: Link, tape: seq<Outcome>)
    ensures Feed(l, Erase(tape)) == Feed(l, tape)
    decreases |tape|
  {
    if tape != [] && !Closed(l) {
      FeedErase(Io(l, tape[0]), tape[1..]);
      assert !tape[0].Again? ==> Erase(tape)[1..] == Erase(tape[1..]);
    }
  }

  lemma {:induction false} InnerFeeds(l: Link, tape: seq<Outcome>)
    ensures Inner(l, tape).0 == Feed(l, tape[..|tape| - |Inner(l, tape).1|])
    decreases |tape|
  {
    if !Closed(l) && tape != [] {
      var n := |tape| - |Inner(l, tape).1|;
      if tape[0].Again? {
        assert n == 1 && tape[..1] == [tape[0]];
        assert Feed(l, [tape[0]]) == Feed(l, [tape[0]][1..]);
      } else {
        InnerFeeds(Io(l, tape[0]), tape[1..]);
        assert n > 0 && tape[..n][1..] == tape[1..][..n - 1];
      }
    }
  }

  lemma FeedTwice(l: Link, tape: seq<Outcome>, rest: seq<Outcome>, rest': seq<Outcome>)
    requires |rest'| <= |rest| && Suffix(rest, tape)
    ensures Feed(Feed(l, tape[..|tape| - |rest|]), rest[..|rest| - |rest'|]) == Feed(l, tape[..|tape| - |rest'|])
  {
    var n := |tape| - |rest|;
    assert tape[..|tape| - |rest'|] == tape[..n] + rest[..|rest| - |rest'|];
    FeedAppend(l, tape[..n], rest[..|rest| - |rest'|]);
  }

  lemma {:induction false} CallsFeed(l: Link, tape: seq<Outcome>, k: nat)
    ensures Calls(l, tape, k).0 == Feed(l, tape[..|tape| - |Calls(l, tape, k).1|])
    decreases k
  {
    if k != 0 && !Closed(l) {
      var r := Inner(l, tape);
      InnerFeeds(l, tape);
      InnerSuffix(l, tape);
      CallsFeed(r.0, r.1, k - 1);
      FeedTwice(l, tape, r.1, Calls(r.0, r.1, k - 1).1);
    }
  }

  /** A run without refusals is a single call. */
  lemma {:induction false} BlockingFeeds(l: Link, tape: seq<Outcome>)
    ensures Inner(l, Erase(tape)).0 == Feed(l, Erase(tape))
    decreases |tape|
  {
    if tape != [] && !Closed(l) {
      if tape[0].Again? {
        BlockingFeeds(l, tape[1..]);
      } else {
        BlockingFeeds(Io(l, tape[0]), tape[1..]);
        assert Erase(tape)[1..] == Erase(tape[1..]);
      }
    }
  }

  /** Wherever EAGAIN strikes and over however many calls of the handler the session is spread,
      the messages sent, the replies taken and the resulting connection are those of one
      uninterrupted call on the same outcomes with every EAGAIN erased. */
  lemma ScheduleIndependence(l: Link, tape: seq<Outcome>, k: nat)
    ensures var (l', rest) := Calls(l, tape, k);
            l' == Inner(l, Erase(tape[..|tape| - |rest|])).0
  {
    var used := tape[..|tape| - |Calls(l, tape, k).1|];
    CallsFeed(l, tape, k);
    FeedErase(l, used);
    BlockingFeeds(l, used);
  }

  /** Each call of a live connection uses up outcomes, so enough calls use the whole tape. */
  lemma {:induction false} EnoughCalls(l: Link, tape: seq<Outcome>, k: nat)
    requires k >= |tape|
    ensures Calls(l, tape, k).0 == Inner(l, Erase(tape)).0
    decreases |tape|, k
  {
    ScheduleIndependence(l, tape, k);
    var (l', rest) := Calls(l, tape, k);
    CallsUseTape(l, tape, k);
    CallsSuffix(l, tape, k);
    if rest == [] {
      assert tape[..|tape|] == tape;
    } else {
      CallsFeed(l, tape, k);
      var used := tape[..|tape| - |rest|];
      assert tape == used + rest;
      FeedAppend(l, used, rest);
      FeedErase(l, tape);
      BlockingFeeds(l, tape);
    }
  }

  lemma {:induction false} CallsUseTape(l: Link, tape: seq<Outcome>, k: nat)
    requires k >= |tape|
    ensures Calls(l, tape, k).1 == [] || Closed(Calls(l, tape, k).0)
    decreases k
  {
    if !Closed(l) && k != 0 {
      var (l', rest) := Inner(l, tape);
      if tape != [] {
        InnerUsesTape(l, tape);
        CallsUseTape(l', rest, k - 1);
      } else {
        CallsUseTape(l', rest, k - 1);
      }
    }
  }

  lemma InnerUsesTape(l: Link, tape: seq<Outcome>)
    requires !Closed(l) && tape != []
    ensures |Inner(l, tape).1| < |tape|
  {
    if !tape[0].Again? {
      var r := Inner(Io(l, tape[0]), tape[1..]);
      assert Inner(l, tape) == r;
    }
  }

  /** The handler returns with a live connection only when the system refused a call: the last
      outcome it consumed was EAGAIN, or there was none left. */
  lemma {:induction false} ReturnsLiveOnlyOnAgain(l: Link, tape: seq<Outcome>)
    ensures var (l', rest) := Inner(l, tape);
            Closed(l') || rest == [] || (|tape| > |rest| && tape[|tape| - |rest| - 1].Again?)
    decreases |tape|
  {
    if !Closed(l) && !Head(tape).Again? {
      ReturnsLiveOnlyOnAgain(Io(l, tape[0]), tape[1..]);
      assert Inner(l, tape) == Inner(Io(l, tape[0]), tape[1..]);
    }
  }

  // ---- what the log can contain ----

  /** A request of the given kind carrying no number, answered in kind. */
  predicate Exchange(log: seq<Event>, i: int, kind: Kind) {
    && 0 <= i && i + 1 < |log|
    && log[i] == Sent(Msg(kind, NaN))
    && log[i + 1].Took? && log[i + 1].reply.recvMsg == kind
  }

  /** The events just before position `i` are the first `stage` exchanges of a round, and the
      connection's operands are what they delivered. */
  predicate Gathered(c: Conn, log: seq<Event>, i: int, stage: nat)
    requires stage <= 3
  {
    && 2 * stage <= i <= |log|
    && (stage >= 1 ==> Exchange(log, i - 2 * stage, ReqArg)
                       && c.lhs == log[i - 2 * stage + 1].reply.data.arg)
    && (stage >= 2 ==> Exchange(log, i - 2 * stage + 2, ReqArg)
                       && c.rhs == log[i - 2 * stage + 3].reply.data.arg)
    && (stage >= 3 ==> Exchange(log, i - 2, ReqOp) && c.op == log[i - 1].reply.data.op)
  }

  function Stage(slot: Slot): nat {
    match slot
    case LhsArg => 0
    case RhsArg => 1
    case Op => 2
    case Res => 3
  }

  /** Position `i` of the log may carry this packet: a result is computed from the three replies
      of the six events before it; any other message carries NaN. */
  predicate Justified(log: seq<Event>, i: int)
    requires 0 <= i < |log|
  {
    log[i].Sent? && log[i].packet.Msg? ==>
      if log[i].packet.kind == RetRes then
        && i >= 6
        && Exchange(log, i - 6, ReqArg) && Exchange(log, i - 4, ReqArg) && Exchange(log, i - 2, ReqOp)
        && log[i].packet.data == Compute(log[i - 1].reply.data.op, log[i - 5].reply.data.arg, log[i - 3].reply.data.arg)
      else log[i].packet.data == NaN
  }

  ghost predicate Inv(l: Link) {
    && (forall i :: 0 <= i < |l.log| ==> Justified(l.log, i))
    && (!Closed(l) ==> l.conn.cont != 0)
    && match l.conn.state
       case AtMsg(slot) => Gathered(l.conn, l.log, |l.log|, Stage(slot))
       case AtReply(slot) =>
         && Gathered(l.conn, l.log, |l.log| - 1, Stage(slot))
         && (slot != Res ==> l.log[|l.log| - 1] == Sent(Msg(KindOf(slot), NaN)))
       case Error => l.conn.errMsg == ErrInvalidReply
       case EndMsg => true
  }

  lemma JustifiedAppend(log: seq<Event>, e: Event)
    requires forall i :: 0 <= i < |log| ==> Justified(log, i)
    requires Justified(log + [e], |log|)
    ensures forall i :: 0 <= i < |log| + 1 ==> Justified(log + [e], i)
  {
    forall i | 0 <= i < |log|
      ensures Justified(log + [e], i)
    {
      assert Justified(log, i);
      assert (log + [e])[i] == log[i];
    }
  }

  lemma GatheredAppend(c: Conn, log: seq<Event>, i: int, stage: nat, e: Event)
    requires stage <= 3 && Gathered(c, log, i, stage)
    ensures Gathered(c, log + [e], i, stage)
  {
  }

  lemma SendKeepsInv(l: Link, slot: Slot)
    requires Inv(l) && l.conn.state == AtMsg(slot)
    ensures Inv(SendMsg(l, slot))
  {
    var e := Sent(Msg(KindOf(slot), MessageData(l.conn)));
    JustifiedAppend(l.log, e);
    GatheredAppend(l.conn, l.log, |l.log|, Stage(slot), e);
  }

  lemma AcceptKeepsInv(l: Link, slot: Slot, r: Reply)
    requires Inv(l) && l.conn.state == AtReply(slot)
    ensures Inv(Settle(Accept(l, slot, r)))
  {
    JustifiedAppend(l.log, Took(r));
    GatheredAppend(l.conn, l.log, |l.log| - 1, Stage(slot), Took(r));
    var l' := Accept(l, slot, r);
    if r.recvMsg == KindOf(slot) && slot != Res {
      assert Exchange(l'.log, |l.log| - 1, KindOf(slot));
    }
  }

  lemma IoKeepsInv(l: Link, o: Outcome)
    requires Inv(l) && !Closed(l)
    ensures Inv(Io(l, o))
  {
    match l.conn.state
    case AtMsg(slot) => SendKeepsInv(l, slot);
    case AtReply(slot) => if o.Full? { AcceptKeepsInv(l, slot, o.reply); }
    case Error => JustifiedAppend(l.log, Sent(ErrReport(l.conn.errMsg)));
  }

  lemma {:induction false} FeedKeepsInv(l: Link, tape: seq<Outcome>)
    requires Inv(l)
    ensures Inv(Feed(l, tape))
    decreases |tape|
  {
    if tape != [] && !Closed(l) {
      IoKeepsInv(l, tape[0]);
      FeedKeepsInv(Io(l, tape[0]), tape[1..]);
    }
  }

  /** Whatever the peer sends, over any number of calls: every result ever sent is computed from
      the three replies just before it, all accepted in this round; every other message of the
      macro carries NaN; and `cont` is non-zero as long as the connection lives. */
  lemma ResultsAreJustified(l: Link, tape: seq<Outcome>, k: nat, i: nat)
    requires Fresh(l) && i < |Calls(l, tape, k).0.log|
    ensures Justified(Calls(l, tape, k).0.log, i)
  {
    CallsFeed(l, tape, k);
    FeedKeepsInv(l, tape[..|tape| - |Calls(l, tape, k).1|]);
  }

  /** And so each result sent is the number that the operator asked for makes of the two operands
      received before it. */
  lemma ResultsAreRight(l: Link, tape: seq<Outcome>, k: nat, i: nat)
    requires Fresh(l) && i < |Calls(l, tape, k).0.log|
    ensures var log := Calls(l, tape, k).0.log;
            log[i].Sent? && log[i].packet.Msg? && log[i].packet.kind == RetRes ==>
              && i >= 6 && log[i - 5].Took? && log[i - 3].Took? && log[i - 1].Took?
              && IsAnswer(log[i - 1].reply.data.op, log[i - 5].reply.data.arg, log[i - 3].reply.data.arg,
                          log[i].packet.data)
  {
    ResultsAreJustified(l, tape, k, i);
    var log := Calls(l, tape, k).0.log;
    if log[i].Sent? && log[i].packet.Msg? && log[i].packet.kind == RetRes {
      assert Exchange(log, i - 6, ReqArg) && Exchange(log, i - 4, ReqArg) && Exchange(log, i - 2, ReqOp);
      ComputeIsAnswer(log[i - 1].reply.data.op, log[i - 5].reply.data.arg, log[i - 3].reply.data.arg);
    }
  }

  lemma LiveMeansContinue(l: Link, tape: seq<Outcome>, k: nat)
    requires Fresh(l) && !Closed(Calls(l, tape, k).0)
    ensures Calls(l, tape, k).0.conn.cont != 0
  {
    CallsFeed(l, tape, k);
    FeedKeepsInv(l, tape[..|tape| - |Calls(l, tape, k).1|]);
  }

  /** In every reachable state a live connection is ended by exactly two things: zero bytes from
      a call outside the error state, and an accepted answer not to continue. */
  lemma ClosesExactlyWhen(l: Link, tape: seq<Outcome>, o: Outcome)
    requires Fresh(l) && !Closed(Feed(l, tape))
    ensures var p := Feed(l, tape);
            Closed(Feed(l, tape + [o])) <==>
              || (o.Zero? && p.conn.state != Error)
              || (o.Full? && p.conn.state == AtReply(Res) && o.reply.recvMsg == RetRes && o.reply.data.cont == 0)
  {
    FeedKeepsInv(l, tape);
    FeedAppend(l, tape, [o]);
    assert Feed(Feed(l, tape), [o]) == Feed(Io(Feed(l, tape), o), [o][1..]);
  }

  /** An invalid reply does not end the session: it is reported once, and a new round starts. */
  lemma InvalidReplyRestartsRound(l: Link, tape: seq<Outcome>, slot: Slot, r: Reply, o: Outcome)
    requires Fresh(l) && Feed(l, tape).conn.state == AtReply(slot) && r.recvMsg != KindOf(slot) && o.Full?
    ensures var p, q := Feed(l, tape), Feed(l, tape + [Full(r)] + [o]);
            q.conn.state == AtMsg(LhsArg) && q.log == p.log + [Took(r)] + [Sent(ErrReport(ErrInvalidReply))]
  {
    var p := Feed(l, tape);
    FeedKeepsInv(l, tape);
    FeedAppend(l, tape, [Full(r)]);
    FeedAppend(l, tape + [Full(r)], [o]);
    assert Feed(p, [Full(r)]) == Feed(Io(p, Full(r)), [Full(r)][1..]);
    assert Feed(Io(p, Full(r)), [o]) == Feed(Io(Io(p, Full(r)), o), [o][1..]);
  }

  // ---- writes are bounded by replies ----

  function Messages(log: seq<Event>): nat {
    if log == [] then 0
    else Messages(log[..|log| - 1]) + (if log[|log| - 1].Sent? && log[|log| - 1].packet.Msg? then 1 else 0)
  }

  function Reports(log: seq<Event>): nat {
    if log == [] then 0
    else Reports(log[..|log| - 1]) + (if log[|log| - 1].Sent? && log[|log| - 1].packet.ErrReport? then 1 else 0)
  }

  function Taken(log: seq<Event>): nat {
    if log == [] then 0
    else Taken(log[..|log| - 1]) + (if log[|log| - 1].Took? then 1 else 0)
  }

  /** Every message but the last has been answered, and every report answers a reply. */
  ghost predicate Lockstep(l: Link) {
    && Taken(l.log) <= Messages(l.log) <= Taken(l.log) + 1
    && (l.conn.state.AtMsg? || l.conn.state == Error ==> Messages(l.log) == Taken(l.log))
    && (l.conn.state.AtReply? ==> Messages(l.log) == Taken(l.log) + 1)
    && Reports(l.log) + (if l.conn.state == Error then 1 else 0) <= Taken(l.log)
  }

  lemma IoKeepsLockstep(l: Link, o: Outcome)
    requires Lockstep(l) && !Closed(l)
    ensures Lockstep(Io(l, o))
  {
    var l' := Io(l, o);
    if l'.log != l.log {
      assert l'.log[..|l'.log| - 1] == l.log;
    }
  }

  lemma {:induction false} FeedKeepsLockstep(l: Link, tape: seq<Outcome>)
    requires Lockstep(l)
    ensures Lockstep(Feed(l, tape))
    decreases |tape|
  {
    if tape != [] && !Closed(l) {
      IoKeepsLockstep(l, tape[0]);
      FeedKeepsLockstep(Io(l, tape[0]), tape[1..]);
    }
  }

  /** Over any number of calls: at most one message more than replies, and at most one error
      report per reply. */
  lemma WritesBoundedByReplies(l: Link, tape: seq<Outcome>, k: nat)
    requires Fresh(l)
    ensures var log := Calls(l, tape, k).0.log;
            Messages(log) <= Taken(log) + 1 && Reports(log) <= Taken(log)
  {
    CallsFeed(l, tape, k);
    FeedKeepsLockstep(l, tape[..|tape| - |Calls(l, tape, k).1|]);
  }

  // ---- a finite supply of replies means a finite call ----

  /** How far a state is through the exchange that leads to the next reply. */
  function Advance(state: ConnState): nat {
    match state
    case Error => 0
    case AtMsg(_) => 1
    case AtReply(_) => 2
    case EndMsg => 2
  }

  /** System calls are paid for by replies: a call that is not refused takes a reply or moves on
      towards one, or ends the session. */
  lemma IoAdvances(l: Link, o: Outcome)
    requires !Closed(l) && !o.Again?
    ensures var l' := Io(l, o);
            3 * Taken(l.log) + Advance(l.conn.state) + (if Closed(l') then 0 else 1)
              <= 3 * Taken(l'.log) + Advance(l'.conn.state)
  {
    var l' := Io(l, o);
    TakenAppend(l, o);
  }

  lemma TakenAppend(l: Link, o: Outcome)
    requires !Closed(l)
    ensures Taken(Io(l, o).log) == Taken(l.log) + (if l.conn.state.AtReply? && o.Full? then 1 else 0)
  {
    var log := Io(l, o).log;
    if log != l.log {
      assert log[..|log| - 1] == l.log;
    }
  }

  /** From every state, the number of system calls that one call of handle_conn_inner makes is
      bounded by the replies it takes, whether or not a write is ever refused and whether or not
      what is written appears in the log. */
  lemma {:induction false} CallsBoundedByReplies(l: Link, tape: seq<Outcome>)
    ensures var (l', rest) := Inner(l, tape);
            |tape| - |rest| + 3 * Taken(l.log) + Advance(l.conn.state)
              <= 3 * Taken(l'.log) + Advance(l'.conn.state) + 1
    decreases |tape|
  {
    if !Closed(l) && !Head(tape).Again? {
      IoAdvances(l, tape[0]);
      CallsBoundedByReplies(Io(l, tape[0]), tape[1..]);
    }
  }

  function StateRank(state: ConnState): nat {
    match state
    case Error => 3
    case AtMsg(_) => 2
    case AtReply(_) => 1
    case EndMsg => 0
  }

  /** One call on a finite supply of replies, after which a read finds the end of the stream or
      is refused, and with an outcome for every write, however many there are. It returns the
      connection and the outcomes used. The measure is the unread replies, then the state rank. */
  function Drain(l: Link, replies: seq<Reply>, eof: bool, writes: nat -> Outcome, n: nat): (Link, seq<Outcome>)
    decreases |replies|, StateRank(l.conn.state)
  {
    if Closed(l) then (l, [])
    else if l.conn.state.AtReply? then
      if replies == [] then
        if eof then (Io(l, Zero), [Zero]) else (l, [Again])
      else
        var r := Drain(Io(l, Full(replies[0])), replies[1..], eof, writes, n);
        (r.0, [Full(replies[0])] + r.1)
    else if writes(n).Again? then (l, [Again])
    else
      var r := Drain(Io(l, writes(n)), replies, eof, writes, n + 1);
      (r.0, [writes(n)] + r.1)
  }

  lemma InnerCons(l: Link, o: Outcome, tape: seq<Outcome>)
    requires !Closed(l)
    ensures Inner(l, [o] + tape) == if o.Again? then (l, tape) else Inner(Io(l, o), tape)
  {
    assert ([o] + tape)[1..] == tape;
  }

  /** handle_conn_inner terminates on every finite supply of replies: with nothing assumed about
      the writes but that each has an outcome, the call comes to its end after finitely many
      system calls, at most three for each reply in the supply and three more. */
  lemma {:induction false} FiniteRepliesFiniteCall(l: Link, replies: seq<Reply>, eof: bool,
                                                   writes: nat -> Outcome, n: nat)
    ensures var (l', used) := Drain(l, replies, eof, writes, n);
            && Inner(l, used) == (l', [])
            && Taken(l.log) <= Taken(l'.log) <= Taken(l.log) + |replies|
            && |used| <= 3 * |replies| + 3
    decreases |replies|, StateRank(l.conn.state)
  {
    if !Closed(l) {
      if l.conn.state.AtReply? {
        if replies == [] {
          InnerCons(l, if eof then Zero else Again, []);
          TakenAppend(l, Zero);
        } else {
          var o := Full(replies[0]);
          FiniteRepliesFiniteCall(Io(l, o), replies[1..], eof, writes, n);
          InnerCons(l, o, Drain(Io(l, o), replies[1..], eof, writes, n).1);
          TakenAppend(l, o);
        }
      } else if writes(n).Again? {
        InnerCons(l, Again, []);
      } else {
        FiniteRepliesFiniteCall(Io(l, writes(n)), replies, eof, writes, n + 1);
        InnerCons(l, writes(n), Drain(Io(l, writes(n)), replies, eof, writes, n + 1).1);
        TakenAppend(l, writes(n));
      }
    }
    CallsBoundedByReplies(l, Drain(l, replies, eof, writes, n).1);
  }

  // ---- the code as written: the expanded macro, block by block ----

  /** A block of the loop body either returns from the function or falls through. */
  datatype Flow = Return(link: Link, tape: seq<Outcome>) | Fall(link: Link, tape: seq<Outcome>)

  /** Lines 41-66. */
  function ReplyBlock(slot: Slot, l: Link, tape: seq<Outcome>): Flow {
    if l.conn.state != AtReply(slot) then Fall(l, tape)
    else
      match Head(tape)
      case Again => Return(l, Tail(tape))
      case Zero => Return(Goto(l, EndMsg), Tail(tape))
      case Full(r) => Fall(Accept(l, slot, r), Tail(tape))
  }

  /** The whole macro, lines 20-66. */
  function MsgBlock(slot: Slot, l: Link, tape: seq<Outcome>): Flow {
    if l.conn.state != AtMsg(slot) then ReplyBlock(slot, l, tape)
    else
      match Head(tape)
      case Again => Return(l, Tail(tape))
      case Zero => Return(Goto(l, EndMsg), Tail(tape))
      case Full(_) => ReplyBlock(slot, SendMsg(l, slot), Tail(tape))
  }

  /** Lines 119-135. */
  function ErrorBlock(l: Link, tape: seq<Outcome>): Flow {
    if l.conn.state != Error then Fall(l, tape)
    else if Head(tape).Again? then Return(l, Tail(tape))
    else Fall(ReportError(l, Head(tape)), Tail(tape))
  }

  function Then(f: Flow, slot: Slot): Flow {
    if f.Return? then f else MsgBlock(slot, f.link, f.tape)
  }

  /** The loop body up to line 136. */
  function Body(l: Link, tape: seq<Outcome>): Flow {
    var f := Then(Then(Then(MsgBlock(LhsArg, l, tape), RhsArg), Op), Res);
    if f.Return? then f else ErrorBlock(f.link, f.tape)
  }

  /** The order in which the loop body handles the states. */
  function Order(state: ConnState): nat {
    match state
    case AtMsg(slot) => Stage(slot)
    case AtReply(slot) => Stage(slot)
    case EndMsg => 4
    case Error => 4
  }

  /** If control falls through, the states below `n` are behind it, and an outcome was consumed
      unless nothing happened at all. */
  ghost predicate Past(f: Flow, n: nat, l: Link, tape: seq<Outcome>) {
    f.Fall? ==> Order(f.link.conn.state) >= n && (|f.tape| < |tape| || (f.link == l && f.tape == tape))
  }

  lemma ThenMovesOn(f: Flow, slot: Slot, l: Link, tape: seq<Outcome>)
    requires Past(f, Stage(slot), l, tape)
    ensures Past(Then(f, slot), Stage(slot) + 1, l, tape)
  {
  }

  /** From every entry state, line 137 is reached only in state END_MSG: testing the constant
      there decides as testing `conn->state` would. A live entry has consumed an outcome. */
  lemma Line137OnlyAtEnd(l: Link, tape: seq<Outcome>)
    ensures var f := Body(l, tape);
            f.Fall? ==> Closed(f.link) && (Closed(l) || |f.tape| < |tape|)
  {
    var f0 := Fall(l, tape);
    ThenMovesOn(f0, LhsArg, l, tape);
    var f1 := Then(f0, LhsArg);
    ThenMovesOn(f1, RhsArg, l, tape);
    ThenMovesOn(Then(f1, RhsArg), Op, l, tape);
    ThenMovesOn(Then(Then(f1, RhsArg), Op), Res, l, tape);
  }

  /** A block that returns has done what the machine does; one that falls through leaves it the
      rest to do. */
  ghost predicate Agrees(f: Flow, l: Link, tape: seq<Outcome>) {
    Inner(Settle(l), tape) == if f.Return? then (f.link, f.tape) else Inner(Settle(f.link), f.tape)
  }

  lemma MsgBlockAgrees(slot: Slot, l: Link, tape: seq<Outcome>)
    ensures Agrees(MsgBlock(slot, l, tape), l, tape)
  {
    if l.conn.state == AtMsg(slot) && Head(tape).Full? {
      ReplyBlockAgrees(slot, SendMsg(l, slot), Tail(tape));
    } else if l.conn.state == AtReply(slot) {
      ReplyBlockAgrees(slot, l, tape);
    }
  }

  lemma ReplyBlockAgrees(slot: Slot, l: Link, tape: seq<Outcome>)
    ensures Agrees(ReplyBlock(slot, l, tape), l, tape)
  {
  }

  lemma ErrorBlockAgrees(l: Link, tape: seq<Outcome>)
    ensures Agrees(ErrorBlock(l, tape), l, tape)
  {
  }

  /** The socket: a tape of future outcomes, and a record of past traffic. */
  class Socket {
    var tape: seq<Outcome>
    ghost var log: seq<Event>

    constructor (tape: seq<Outcome>)
      ensures this.tape == tape && log == []
    {
      this.tape, log := tape, [];
    }

    method Write(p: Packet) returns (o: Outcome)
      modifies this
      ensures o == Head(old(tape)) && tape == Tail(old(tape))
      ensures log == if o.Full? then old(log) + [Sent(p)] else old(log)
    {
      o, tape := Head(tape), Tail(tape);
      if o.Full? {
        log := log + [Sent(p)];
      }
    }

    method Read() returns (o: Outcome)
      modifies this
      ensures o == Head(old(tape)) && tape == Tail(old(tape))
      ensures log == if o.Full? then old(log) + [Took(o.reply)] else old(log)
    {
      o, tape := Head(tape), Tail(tape);
      if o.Full? {
        log := log + [Took(o.reply)];
      }
    }
  }

  /** `struct conn_inner`. */
  class Connection {
    const fd: Socket
    var state: ConnState
    var lhs: Double
    var rhs: Double
    var op: int
    var cont: int
    var errMsg: Kind
    var open: bool  // not yet closed and freed

    ghost function View(): Link
      reads this, fd
    {
      Link(Conn(state, lhs, rhs, op, cont, errMsg), fd.log)
    }

    /** init_conn; the operands start with whatever malloc returned. */
    constructor (fd: Socket, lhs: Double, rhs: Double, op: int, errMsg: Kind)
      requires fd.log == []
      ensures this.fd == fd && open && Fresh(View())
    {
      this.fd := fd;
      state, cont, open := AtMsg(LhsArg), 1, true;
      this.lhs, this.rhs, this.op, this.errMsg := lhs, rhs, op, errMsg;
    }

    method CalcResult() returns (d: Double)
      ensures d == MessageData(View().conn)
      ensures if state == AtMsg(Res) then IsAnswer(op, lhs, rhs, d) else d.NaN?
    {
      ComputeIsAnswer(op, lhs, rhs);
      if state != AtMsg(Res) {
        return NaN;
      }
      match op {
        case 1 => d := Sum(lhs, rhs);
        case 2 => d := Difference(lhs, rhs);
        case 3 => d := Quotient(lhs, rhs);
        case 4 => d := Product(lhs, rhs);
        case _ => d := NaN;
      }
    }

    /** The macro MSG; `returned` tells whether its expansion executed a return statement. */
    method Msg(slot: Slot) returns (returned: bool)
      modifies this, fd
      ensures open == old(open)
      ensures MsgBlock(slot, old(View()), old(fd.tape)) ==
                if returned then Return(View(), fd.tape) else Fall(View(), fd.tape)
    {
      if state == AtMsg(slot) {
        var data := CalcResult();
        var bytes := fd.Write(Packet.Msg(KindOf(slot), data));
        if bytes.Again? {
          return true;
        }
        if bytes.Zero? {
          state := EndMsg;
          return true;
        }
        state := AtReply(slot);
      }
      if state == AtReply(slot) {
        var bytes := fd.Read();
        if bytes.Again? {
          return true;
        }
        if bytes.Zero? {
          state := EndMsg;
          return true;
        }
        var reply := bytes.reply;
        if reply.recvMsg != KindOf(slot) {
          state := Error;
          errMsg := ErrInvalidReply;
        } else {
          match slot {
            case LhsArg => lhs := reply.data.arg;
            case RhsArg => rhs := reply.data.arg;
            case Op => op := reply.data.op;
            case Res => cont := reply.data.cont;
          }
          state := Following(slot);
        }
      }
      return false;
    }

    /** handle_conn_inner: the loop over four macro expansions and the error report does what
        the one-call-at-a-time machine does. */
    method HandleConnInner()
      requires state != EndMsg
      modifies this, fd
      ensures (View(), fd.tape) == Inner(old(View()), old(fd.tape)) && open == old(open)
    {
      ghost var goal := Inner(View(), fd.tape);
      while true
        invariant state != EndMsg && open == old(open)
        invariant Inner(View(), fd.tape) == goal
        decreases |fd.tape|
      {
        Line137OnlyAtEnd(View(), fd.tape);
        MsgBlockAgrees(LhsArg, View(), fd.tape);
        var returned := Msg(LhsArg);
        if returned { return; }
        MsgBlockAgrees(RhsArg, View(), fd.tape);
        returned := Msg(RhsArg);
        if returned { return; }
        MsgBlockAgrees(Op, View(), fd.tape);
        returned := Msg(Op);
        if returned { return; }
        MsgBlockAgrees(Res, View(), fd.tape);
        returned := Msg(Res);
        if returned { return; }
        ErrorBlockAgrees(View(), fd.tape);
        if state == Error {
          var bytes := fd.Write(ErrReport(errMsg));
          if bytes.Again? {
            return;
          }
          state := EndMsg;
        }
        if CONN_STATE_END_MSG != 0 {
          if cont != 0 {
            state := AtMsg(LhsArg);
            continue;
          }
        }
        return;
      }
    }

    /** handle_conn for one epoll event. */
    method HandleConn(hangup: bool)
      requires open && state != EndMsg
      modifies this, fd
      ensures hangup ==> !open && View() == old(View()) && fd.tape == old(fd.tape)
      ensures !hangup ==> (View(), fd.tape) == Inner(old(View()), old(fd.tape)) && open == !Closed(View())
    {
      if hangup {
        open := false;
        return;
      }
      HandleConnInner();
      if state == EndMsg {
        open := false;
      }
    }

    /** The part of the server's event loop that concerns this connection: one call per event
        while it is open; an event may report a hang-up. All events count up to the first
        hang-up, or to the end if there is none. */
    method ServeEvents(hangups: seq<bool>)
      requires open && state != EndMsg
      modifies this, fd
      ensures forall k :: 0 <= k <= |hangups| && true !in hangups[..k] && (k == |hangups| || hangups[k]) ==>
                            (View(), fd.tape) == Calls(old(View()), old(fd.tape), k)
      ensures open == (!Closed(View()) && true !in hangups)
    {
      ghost var n := 0; // events before the first hang-up
      for i := 0 to |hangups|
        invariant 0 <= n <= i && true !in hangups[..n] && (n == i || hangups[n])
        invariant (View(), fd.tape) == Calls(old(View()), old(fd.tape), n)
        invariant open == (!Closed(View()) && n == i)
      {
        if n == i && !hangups[i] {
          assert hangups[..i + 1] == hangups[..i] + [hangups[i]];
          CallsNext(old(View()), old(fd.tape), n);
          n := n + 1;
        }
        if open {
          HandleConn(hangups[i]);
        }
      }
      assert hangups[..|hangups|] == hangups;
    }
  }

  lemma {:induction false} CallsNext(l: Link, tape: seq<Outcome>, k: nat)
    ensures var (l', rest) := Calls(l, tape, k);
            Calls(l, tape, k + 1) == if Closed(l') then (l', rest) else Inner(l', rest)
    decreases k
  {
    if k > 0 && !Closed(l) {
      var (l', rest) := Inner(l, tape);
      CallsNext(l', rest, k - 1);
    } else if !Closed(l) {
      var (l', rest) := Inner(l, tape);
      assert Calls(l', rest, 0) == (l', rest);
    }
  }
}
