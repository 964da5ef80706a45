/** The calculator server's connection together with its client (task18/client.c), over socket
    buffers and edge-triggered events, without connection failures. */
module CalcSession {
  import opened CalcConnection
  import E = EdgeTriggered

  /** Where the client's loop stands: reading a message, answering it, out of the loop after the
      user chose not to continue, or exited with a failure. */
  datatype Phase = Reading | Replying(msg: Packet) | Finished | Aborted

  /** A result line: what the user had entered in the round, and the number shown. */
  datatype Line = Line(entered: seq<Data>, shown: Double)

  datatype Client = Client(phase: Phase, entered: seq<Data>, printed: seq<Line>)

  datatype Session = Session(w: E.World, c: Client)

  datatype Act =
    | Wake
    | Serve
    | ClientRead(extra: bool)
    | ClientReply(input: Data, extra: bool)
    | ClientClose

  ghost predicate Start(s: Session) {
    E.Registered(s.w) && s.c == Client(Reading, [], [])
  }

  /** The user's entry makes the client give up: an operator outside 1..4, or an error message. */
  predicate GivesUp(m: Packet, input: Data) {
    m.ErrReport? || m.kind == ErrInvalidReply || (m.kind == ReqOp && !(1 <= input.op <= 4))
  }

  predicate Possible(s: Session, a: Act) {
    match a
    case Wake => E.Possible(s.w, E.Wake)
    case Serve => E.Possible(s.w, E.Serve)
    case ClientRead(e) => s.c.phase.Reading? && E.Possible(s.w, E.PeerTake(e))
    case ClientReply(_, _) => s.c.phase.Replying? && !s.w.peerClosed
    case ClientClose => s.c.phase.Finished? && !s.w.peerClosed
  }

  function Do(cap: nat, s: Session, a: Act): Session
    requires Possible(s, a)
  {
    match a
    case Wake => s.(w := E.Do(cap, s.w, E.Wake))
    case Serve => s.(w := E.Do(cap, s.w, E.Serve))
    case ClientRead(e) =>
      var m := s.w.tx[0];
      var printed := if m.Msg? && m.kind == RetRes then s.c.printed + [Line(s.c.entered, m.data)] else s.c.printed;
      Session(E.Do(cap, s.w, E.PeerTake(e)), s.c.(phase := Replying(m), printed := printed))
    case ClientReply(input, e) =>
      var m := s.c.phase.msg;
      if GivesUp(m, input) then
        Session(E.Do(cap, s.w, E.PeerClose), s.c.(phase := Aborted))
      else
        var w := E.Do(cap, s.w, E.PeerSend(Reply(m.kind, input), e));
        if m.kind == RetRes then
          Session(w, s.c.(phase := if input.cont == 0 then Finished else Reading, entered := []))
        else
          Session(w, s.c.(phase := Reading, entered := s.c.entered + [input]))
    case ClientClose => s.(w := E.Do(cap, s.w, E.PeerClose))
  }

  predicate Possibles(cap: nat, s: Session, acts: seq<Act>)
    decreases |acts|
  {
    acts == [] || (Possible(s, acts[0]) && Possibles(cap, Do(cap, s, acts[0]), acts[1..]))
  }

  function DoAll(cap: nat, s: Session, acts: seq<Act>): Session
    requires Possibles(cap, s, acts)
    decreases |acts|
  {
    if acts == [] then s else DoAll(cap, Do(cap, s, acts[0]), acts[1..])
  }

  // ---- agreement ----

  /** The server's operands are the user's entries so far. */
  predicate SameOperands(c: Conn, entered: seq<Data>) {
    && (|entered| >= 1 ==> c.lhs == entered[0].arg)
    && (|entered| >= 2 ==> c.rhs == entered[1].arg)
    && (|entered| >= 3 ==> c.op == entered[2].op)
  }

  predicate IsResult(entered: seq<Data>, shown: Double) {
    && |entered| == 3 && 1 <= entered[2].op <= 4
    && shown == Compute(entered[2].op, entered[0].arg, entered[1].arg)
  }

  /** A message of the right kind; a result message carries the result of the entries. */
  predicate RightMessage(m: Packet, slot: Slot, entered: seq<Data>) {
    m.Msg? && m.kind == KindOf(slot) && (slot == Res ==> IsResult(entered, m.data))
  }

  /** The message of `slot` is in flight, being answered, answered, or will never be. */
  predicate Awaiting(s: Session, slot: Slot) {
    var w, c := s.w, s.c;
    || (c.phase.Reading? && !w.peerClosed && w.rx == [] && |w.tx| == 1 && RightMessage(w.tx[0], slot, c.entered)
        && |c.entered| == Stage(slot) && SameOperands(w.link.conn, c.entered))
    || (c.phase.Replying? && !w.peerClosed && w.rx == [] && w.tx == [] && RightMessage(c.phase.msg, slot, c.entered)
        && |c.entered| == Stage(slot) && SameOperands(w.link.conn, c.entered))
    || (|w.rx| == 1 && w.tx == [] && w.rx[0].recvMsg == KindOf(slot)
        && if slot == Res then
             c.entered == [] && c.phase == (if w.rx[0].data.cont == 0 then Finished else Reading)
             && (w.peerClosed ==> c.phase.Finished?)
           else
             c.phase.Reading? && !w.peerClosed && |c.entered| == Stage(slot) + 1
             && c.entered[Stage(slot)] == w.rx[0].data
             && SameOperands(w.link.conn, c.entered[..Stage(slot)]))
    || (c.phase.Aborted? && slot == Op && w.rx == [] && w.tx == [] && w.peerClosed)
  }

  predicate Agreed(s: Session) {
    match s.w.link.conn.state
    case AtMsg(slot) =>
      s.c.phase.Reading? && !s.w.peerClosed && s.w.rx == [] && s.w.tx == []
      && |s.c.entered| == Stage(slot) && SameOperands(s.w.link.conn, s.c.entered)
    case AtReply(slot) => Awaiting(s, slot)
    case EndMsg => s.w.rx == [] && s.w.tx == [] && (s.c.phase.Finished? || (s.c.phase.Aborted? && s.w.peerClosed))
    case Error => false
  }

  ghost predicate Inv(cap: nat, s: Session) {
    && E.Inv(cap, s.w)
    && Agreed(s)
    && (|s.c.entered| >= 3 ==> 1 <= s.c.entered[2].op <= 4)
    && (forall i :: 0 <= i < |s.c.printed| ==> IsResult(s.c.printed[i].entered, s.c.printed[i].shown))
  }

  lemma SendAgrees(cap: nat, s: Session)
    requires Inv(cap, s) && Possible(s, Serve) && s.w.link.conn.state.AtMsg?
    ensures Agreed(Do(cap, s, Serve))
  {
  }

  lemma TakeAgrees(cap: nat, s: Session, slot: Slot)
    requires Inv(cap, s) && Possible(s, Serve) && s.w.link.conn.state == AtReply(slot) && slot != Res
    ensures Agreed(Do(cap, s, Serve))
  {
    if |s.w.rx| == 1 {
      assert s.c.entered == s.c.entered[..Stage(slot)] + [s.w.rx[0].data];
    }
  }

  lemma RoundEndAgrees(cap: nat, s: Session)
    requires Inv(cap, s) && Possible(s, Serve) && s.w.link.conn.state == AtReply(Res)
    ensures Agreed(Do(cap, s, Serve))
  {
  }

  lemma ServeAgrees(cap: nat, s: Session)
    requires Inv(cap, s) && Possible(s, Serve)
    ensures Agreed(Do(cap, s, Serve))
  {
    match s.w.link.conn.state
    case AtMsg(_) => SendAgrees(cap, s);
    case AtReply(slot) => if slot == Res { RoundEndAgrees(cap, s); } else { TakeAgrees(cap, s, slot); }
  }

  lemma ReplyAgrees(cap: nat, s: Session, a: Act)
    requires Inv(cap, s) && Possible(s, a) && a.ClientReply?
    ensures Agreed(Do(cap, s, a))
  {
    assert (s.c.entered + [a.input])[..|s.c.entered|] == s.c.entered;
  }

  lemma InvStep(cap: nat, s: Session, a: Act)
    requires Inv(cap, s) && Possible(s, a)
    ensures Inv(cap, Do(cap, s, a))
  {
    match a
    case Wake => E.InvStep(cap, s.w, E.Wake);
    case Serve =>
      E.InvStep(cap, s.w, E.Serve);
      ServeAgrees(cap, s);
    case ClientRead(e) => E.InvStep(cap, s.w, E.PeerTake(e));
    case ClientReply(input, e) =>
      ReplyAgrees(cap, s, a);
      if GivesUp(s.c.phase.msg, input) {
        E.InvStep(cap, s.w, E.PeerClose);
      } else {
        E.InvStep(cap, s.w, E.PeerSend(Reply(s.c.phase.msg.kind, input), e));
      }
    case ClientClose => E.InvStep(cap, s.w, E.PeerClose);
  }

  lemma {:induction false} InvRun(cap: nat, s: Session, acts: seq<Act>)
    requires Inv(cap, s) && Possibles(cap, s, acts)
    ensures Inv(cap, DoAll(cap, s, acts))
    decreases |acts|
  {
    if acts != [] {
      InvStep(cap, s, acts[0]);
      InvRun(cap, Do(cap, s, acts[0]), acts[1..]);
    }
  }

  // ---- nothing shown but what was sent, and all of it ----

  /** The numbers of the result messages in a sequence of packets. */
  function Results(ps: seq<Packet>): seq<Double> {
    if ps == [] then []
    else Results(ps[..|ps| - 1]) + ResultIn(ps[|ps| - 1])
  }

  function ResultIn(p: Packet): seq<Double> { if p.Msg? && p.kind == RetRes then [p.data] else [] }

  function SentIn(log: seq<Event>): seq<Packet> {
    if log == [] then []
    else SentIn(log[..|log| - 1]) + (if log[|log| - 1].Sent? then [log[|log| - 1].packet] else [])
  }

  function Shown(lines: seq<Line>): seq<Double> {
    if lines == [] then [] else Shown(lines[..|lines| - 1]) + [lines[|lines| - 1].shown]
  }

  /** What the server has sent is on the client's screen or on its way there. */
  ghost predicate AllShown(s: Session) {
    Results(SentIn(s.w.link.log)) == Shown(s.c.printed) + Results(s.w.tx)
  }

  lemma {:induction false} ResultsAppend(ps: seq<Packet>, p: Packet)
    ensures Results(ps + [p]) == Results(ps) + ResultIn(p)
  {
    assert (ps + [p])[..|ps|] == ps;
  }

  lemma {:induction false} SentAppend(log: seq<Event>, e: Event)
    ensures SentIn(log + [e]) == SentIn(log) + (if e.Sent? then [e.packet] else [])
  {
    assert (log + [e])[..|log|] == log;
  }

  lemma {:induction false} ShownAppend(lines: seq<Line>, l: Line)
    ensures Shown(lines + [l]) == Shown(lines) + [l.shown]
  {
    assert (lines + [l])[..|lines|] == lines;
  }

  lemma LogAfterIo(l: Link, o: Outcome)
    requires !Closed(l) && !o.Again?
    ensures Io(l, o).log ==
              if !o.Full? then l.log
              else if l.conn.state.AtReply? then l.log + [Took(o.reply)]
              else l.log + [Sent(E.PacketNow(l.conn))]
  {
  }

  /** Each step of the server leaves log and send buffer alone, logs a reply, or logs and buffers
      the same packet. */
  lemma ServeLogs(cap: nat, w: E.World)
    requires E.Possible(w, E.Serve)
    ensures var t, o := E.Do(cap, w, E.Serve), E.OutcomeNow(cap, w);
            if !o.Full? then t.link.log == w.link.log && t.tx == w.tx
            else if w.link.conn.state.AtReply? then t.link.log == w.link.log + [Took(o.reply)] && t.tx == w.tx
            else t.link.log == w.link.log + [Sent(E.PacketNow(w.link.conn))]
                 && t.tx == w.tx + [E.PacketNow(w.link.conn)]
  {
    var o := E.OutcomeNow(cap, w);
    if !o.Again? {
      LogAfterIo(w.link, o);
    }
  }

  lemma Regroup(a: seq<Double>, b: seq<Double>, c: seq<Double>)
    ensures a + b + c == a + (b + c)
  {
  }

  lemma {:induction false} SentKeepsAllShown(log: seq<Event>, tx: seq<Packet>, shown: seq<Double>, m: Packet)
    requires Results(SentIn(log)) == shown + Results(tx)
    ensures Results(SentIn(log + [Sent(m)])) == shown + Results(tx + [m])
  {
    SentAppend(log, Sent(m));
    ResultsAppend(SentIn(log), m);
    ResultsAppend(tx, m);
    Regroup(shown, Results(tx), ResultIn(m));
  }

  lemma {:induction false} TookKeepsSent(log: seq<Event>, r: Reply)
    ensures SentIn(log + [Took(r)]) == SentIn(log)
  {
    SentAppend(log, Took(r));
    assert SentIn(log) + [] == SentIn(log);
  }

  lemma {:induction false} ReadKeepsAllShown(sent: seq<Double>, lines: seq<Line>, m: Packet, entered: seq<Data>)
    requires sent == Shown(lines) + Results([m])
    ensures sent == (if ResultIn(m) != [] then Shown(lines + [Line(entered, m.data)]) else Shown(lines)) + Results([])
  {
    assert [] + [m] == [m];
    ResultsAppend([], m);
    if ResultIn(m) != [] {
      ShownAppend(lines, Line(entered, m.data));
    }
  }

  lemma {:induction false} ServeKeepsAllShown(cap: nat, s: Session)
    requires AllShown(s) && Possible(s, Serve)
    ensures AllShown(Do(cap, s, Serve))
  {
    ServeLogs(cap, s.w);
    var o := E.OutcomeNow(cap, s.w);
    if o.Full? && s.w.link.conn.state.AtReply? {
      TookKeepsSent(s.w.link.log, o.reply);
    } else if o.Full? {
      SentKeepsAllShown(s.w.link.log, s.w.tx, Shown(s.c.printed), E.PacketNow(s.w.link.conn));
    }
  }

  lemma {:induction false} ClientReadKeepsAllShown(cap: nat, s: Session, extra: bool)
    requires AllShown(s) && Possible(s, ClientRead(extra)) && |s.w.tx| == 1
    ensures AllShown(Do(cap, s, ClientRead(extra)))
  {
    assert s.w.tx == [s.w.tx[0]] && s.w.tx[1..] == [];
    ReadKeepsAllShown(Results(SentIn(s.w.link.log)), s.c.printed, s.w.tx[0], s.c.entered);
  }

  lemma QuietStep(cap: nat, s: Session, a: Act)
    requires Possible(s, a) && !a.Serve? && !a.ClientRead?
    ensures var t := Do(cap, s, a);
            t.w.link.log == s.w.link.log && t.w.tx == s.w.tx && t.c.printed == s.c.printed
  {
  }

  lemma {:induction false} AllShownStep(cap: nat, s: Session, a: Act)
    requires AllShown(s) && Possible(s, a) && (a.ClientRead? ==> |s.w.tx| == 1)
    ensures AllShown(Do(cap, s, a))
  {
    if a.Serve? {
      ServeKeepsAllShown(cap, s);
    } else if a.ClientRead? {
      ClientReadKeepsAllShown(cap, s, a.extra);
    } else {
      QuietStep(cap, s, a);
    }
  }

  lemma {:induction false} AllShownRun(cap: nat, s: Session, acts: seq<Act>)
    requires AllShown(s) && Inv(cap, s) && Possibles(cap, s, acts)
    ensures AllShown(DoAll(cap, s, acts))
    decreases |acts|
  {
    if acts != [] {
      AllShownStep(cap, s, acts[0]);
      InvStep(cap, s, acts[0]);
      AllShownRun(cap, Do(cap, s, acts[0]), acts[1..]);
    }
  }

  /** Client and server agree in every reachable state: at most one message or reply is in
      flight, the server never sees an invalid reply, every number shown is the answer to the
      operator and operands entered in that round, what the server has sent is shown in that
      order without loss, and the server has ended the session only
      if the user chose to stop or the client gave up. Once the user has chosen to stop, the
      server has ended the session or has that answer before it. */
  lemma ClientAndServerAgree(cap: nat, s: Session, acts: seq<Act>)
    requires Start(s) && Possibles(cap, s, acts)
    ensures var t := DoAll(cap, s, acts);
            && |t.w.rx| + |t.w.tx| <= 1
            && t.w.link.conn.state != Error
            && (forall i :: 0 <= i < |t.c.printed| ==>
                  var l := t.c.printed[i];
                  && |l.entered| == 3 && 1 <= l.entered[2].op <= 4
                  && IsAnswer(l.entered[2].op, l.entered[0].arg, l.entered[1].arg, l.shown))
            && Results(SentIn(t.w.link.log)) == Shown(t.c.printed) + Results(t.w.tx)
            && (Closed(t.w.link) ==> t.c.phase.Finished? || t.c.phase.Aborted?)
            && (t.c.phase.Finished? ==>
                  Closed(t.w.link) || (|t.w.rx| == 1 && t.w.rx[0].recvMsg == RetRes && t.w.rx[0].data.cont == 0))
  {
    InvRun(cap, s, acts);
    AllShownRun(cap, s, acts);
    var t := DoAll(cap, s, acts);
    forall i | 0 <= i < |t.c.printed|
      ensures var l := t.c.printed[i];
              && |l.entered| == 3 && 1 <= l.entered[2].op <= 4
              && IsAnswer(l.entered[2].op, l.entered[0].arg, l.entered[1].arg, l.shown)
    {
      var l := t.c.printed[i];
      assert IsResult(l.entered, l.shown);
      ComputeIsAnswer(l.entered[2].op, l.entered[0].arg, l.entered[1].arg);
    }
  }

  /** In every reachable state an entry makes the client give up exactly if it was asked for an
      operator and the entry is none of 1 to 4. */
  lemma GivesUpExactlyWhen(cap: nat, s: Session, acts: seq<Act>, input: Data, extra: bool)
    requires Start(s) && Possibles(cap, s, acts) && Possible(DoAll(cap, s, acts), ClientReply(input, extra))
    ensures var t := DoAll(cap, s, acts);
            Do(cap, t, ClientReply(input, extra)).c.phase.Aborted? <==>
              t.c.phase.msg.Msg? && t.c.phase.msg.kind == ReqOp && (input.op < 1 || input.op > 4)
  {
    InvRun(cap, s, acts);
  }

  /** The whole system never gets stuck: if one packet fits in the send buffer, then in every
      reachable state the session is over on both sides or some part can act usefully. When it is
      the server's turn an event is pending, and the call it leads to will not be refused. */
  lemma SystemProgress(cap: nat, s: Session, acts: seq<Act>) returns (a: Act)
    requires cap >= 1 && Start(s) && Possibles(cap, s, acts)
    ensures var t := DoAll(cap, s, acts);
            || (Possible(t, a) && (a.Wake? || a.Serve? ==> !E.OutcomeNow(cap, t.w).Again?))
            || (Closed(t.w.link) && t.w.peerClosed && (t.c.phase.Finished? || t.c.phase.Aborted?))
  {
    InvRun(cap, s, acts);
    var t := DoAll(cap, s, acts);
    if t.c.phase.Replying? {
      a := ClientReply(Data(NaN, 1, 0), false);
    } else if t.c.phase.Reading? && t.w.tx != [] {
      a := ClientRead(false);
    } else if t.w.running {
      a := Serve;
    } else if t.c.phase.Finished? && !t.w.peerClosed {
      a := ClientClose;
    } else {
      a := Wake;
    }
  }
}
