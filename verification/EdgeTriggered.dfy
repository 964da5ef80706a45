/** A calculator connection driven by edge-triggered epoll (task18/server.c, task18/conn.c),
    facing an arbitrary peer over two queues. Each system call of the handler is one step, so
    the peer can act in the middle of a handler activation. */
module EdgeTriggered {
  import opened CalcConnection

  /** `rx` and `tx` are the socket buffers seen from the server; `edge` is a pending event;
      `entry` and `tape` record where the latest activation of the handler started and the
      outcomes of its system calls so far. */
  datatype World = World(link: Link, rx: seq<Reply>, tx: seq<Packet>, peerClosed: bool,
                         edge: bool, running: bool, entry: Link, tape: seq<Outcome>)

  /** The flag of a peer action tells whether epoll reports an event that it need not. */
  datatype Act =
    | PeerSend(reply: Reply, extra: bool)
    | PeerTake(extra: bool)
    | PeerClose
    | Wake
    | Serve

  const IGNORED := Reply(ReqArg, Data(NaN, 0, 0))

  /** Registration reports initial readiness: the first event is pending. */
  ghost predicate Registered(w: World) {
    && Fresh(w.link) && w.rx == [] && w.tx == [] && !w.peerClosed && w.edge && !w.running
    && w.entry == w.link && w.tape == []
  }

  /** The result of the system call the connection would make now; `cap` packets fit in `tx`. */
  function OutcomeNow(cap: nat, w: World): Outcome {
    if w.link.conn.state.AtReply? then
      if w.rx != [] then Full(w.rx[0]) else if w.peerClosed then Zero else Again
    else if |w.tx| < cap then Full(IGNORED) else Again
  }

  function PacketNow(c: Conn): Packet
    requires c.state.AtMsg? || c.state.Error?
  {
    if c.state.AtMsg? then Msg(KindOf(c.state.slot), MessageData(c)) else ErrReport(c.errMsg)
  }

  predicate Possible(w: World, a: Act) {
    match a
    case PeerSend(_, _) => !w.peerClosed
    case PeerTake(_) => !w.peerClosed && w.tx != []
    case PeerClose => !w.peerClosed
    case Wake => !w.running && w.edge && !Closed(w.link)
    case Serve => w.running && !Closed(w.link)
  }

  /** epoll must report a change from not ready to ready; it may report more. */
  function Do(cap: nat, w: World, a: Act): World
    requires Possible(w, a)
  {
    match a
    case PeerSend(r, extra) => w.(rx := w.rx + [r], edge := w.edge || w.rx == [] || extra)
    case PeerTake(extra) => w.(tx := w.tx[1..], edge := w.edge || |w.tx| >= cap || extra)
    case PeerClose => w.(peerClosed := true, edge := true)
    case Wake => w.(running := true, edge := false, entry := w.link, tape := [])
    case Serve =>
      var o := OutcomeNow(cap, w);
      if o.Again? then w.(running := false)
      else
        var link := Io(w.link, o);
        var w' := w.(link := link, running := !Closed(link), tape := w.tape + [o]);
        if !w.link.conn.state.AtReply? then w'.(tx := w.tx + [PacketNow(w.link.conn)])
        else if o.Full? then w'.(rx := w.rx[1..])
        else w'
  }

  predicate Possibles(cap: nat, w: World, acts: seq<Act>)
    decreases |acts|
  {
    acts == [] || (Possible(w, acts[0]) && Possibles(cap, Do(cap, w, acts[0]), acts[1..]))
  }

  function DoAll(cap: nat, w: World, acts: seq<Act>): World
    requires Possibles(cap, w, acts)
    decreases |acts|
  {
    if acts == [] then w else DoAll(cap, Do(cap, w, acts[0]), acts[1..])
  }

  ghost predicate Inv(cap: nat, w: World) {
    && |w.tx| <= cap
    && (!w.running && !Closed(w.link) && !OutcomeNow(cap, w).Again? ==> w.edge)
    && (w.running ==> !Closed(w.link))
    && Erase(w.tape) == w.tape && Feed(w.entry, w.tape) == w.link
  }

  lemma {:induction false} EraseAppend(tape: seq<Outcome>, o: Outcome)
    requires !o.Again?
    ensures Erase(tape + [o]) == Erase(tape) + [o]
    decreases |tape|
  {
    if tape == [] {
      assert tape + [o] == [o];
      assert Erase([o]) == [o] + Erase([o][1..]);
    } else {
      assert (tape + [o])[1..] == tape[1..] + [o];
      EraseAppend(tape[1..], o);
    }
  }

  lemma InvStep(cap: nat, w: World, a: Act)
    requires Inv(cap, w) && Possible(w, a)
    ensures Inv(cap, Do(cap, w, a))
  {
    if a.Serve? {
      var o := OutcomeNow(cap, w);
      if !o.Again? {
        EraseAppend(w.tape, o);
        FeedAppend(w.entry, w.tape, [o]);
        assert Feed(w.link, [o]) == Feed(Io(w.link, o), [o][1..]);
      }
    }
  }

  lemma {:induction false} InvRun(cap: nat, w: World, acts: seq<Act>)
    requires Inv(cap, w) && Possibles(cap, w, acts)
    ensures Inv(cap, DoAll(cap, w, acts))
    decreases |acts|
  {
    if acts != [] {
      InvStep(cap, w, acts[0]);
      InvRun(cap, Do(cap, w, acts[0]), acts[1..]);
    }
  }

  /** No lost wakeup: whatever the peer does and whenever it does it, if the handler is not
      running, the connection lives and its next read or write could succeed, then an event is
      pending and the handler will be called. */
  lemma NoLostWakeup(cap: nat, w: World, acts: seq<Act>)
    requires Registered(w) && Possibles(cap, w, acts)
    ensures var w' := DoAll(cap, w, acts);
            !w'.running && !Closed(w'.link) && !OutcomeNow(cap, w').Again? ==> Possible(w', Wake)
  {
    InvRun(cap, w, acts);
  }

  /** The steps of an activation, in progress or finished, are exactly those of one call of
      handle_conn_inner: on the outcomes seen since the last event it leaves the connection where
      it stands. */
  lemma ActivationIsOneCall(cap: nat, w: World, acts: seq<Act>)
    requires Registered(w) && Possibles(cap, w, acts)
    ensures var w' := DoAll(cap, w, acts);
            Inner(w'.entry, w'.tape).0 == w'.link
  {
    InvRun(cap, w, acts);
    var w' := DoAll(cap, w, acts);
    BlockingFeeds(w'.entry, w'.tape);
  }
}
