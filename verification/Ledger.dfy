/** What becomes of the data a link accepts, over any number of connections. */
module Ledger {
  import opened LinkSpec
  import opened LinkProps
  import opened LinkRuns

  /** Acknowledged by the peer, reported lost by a disconnect, or dropped from the out queue. */
  datatype Fate = Acked(asdu: Asdu) | Lost(asdu: Asdu) | Dropped(asdu: Asdu)

  /** All data accepted so far, and the fates settled when connections ended. */
  datatype Book = Book(entered: seq<Asdu>, settled: seq<Fate>)

  function Acks(q: seq<Asdu>): (r: seq<Fate>) { seq(|q|, i requires 0 <= i < |q| => Acked(q[i])) }

  function Losses(q: seq<Asdu>): (r: seq<Fate>) { seq(|q|, i requires 0 <= i < |q| => Lost(q[i])) }

  function Drops(q: seq<Asdu>): (r: seq<Fate>) { seq(|q|, i requires 0 <= i < |q| => Dropped(q[i])) }

  function Data(fs: seq<Fate>): (r: seq<Asdu>) { seq(|fs|, i requires 0 <= i < |fs| => fs[i].asdu) }

  /** The data reported lost. */
  function LostOf(fs: seq<Fate>): seq<Asdu>
  {
    if fs == [] then []
    else LostOf(fs[..|fs| - 1]) + if fs[|fs| - 1].Lost? then [fs[|fs| - 1].asdu] else []
  }

  /** The end of a connection: the acknowledged data first, then the ack queue, then the out queue
      unless the link keeps it. */
  function Settle(l: Link): seq<Fate>
  {
    Acks(l.log.acked) + Losses(Payloads(l.ackq)) + if l.cfg.FullReset() then Drops(l.outq) else []
  }

  function Enter(b: Book, l: Link, op: Op, now: int): Book
    requires InRange(l) && Enabled(l, op)
  {
    if op.OpPut? && l.ssp.Started? then b.(entered := b.entered + [op.asdu])
    else if op.OpDisconnect? || (l.conn && !Apply(l, op, now).link.conn) then b.(settled := b.settled + Settle(l))
    else b
  }

  /** A run from a fresh link, with its book. */
  ghost predicate Booked(cfg: Config, run: seq<Timed>, l: Link, b: Book)
  {
    if run == [] then l == Fresh(cfg) && b == Book([], [])
    else
      var m := |run| - 1;
      exists p, c :: Booked(cfg, run[..m], p, c) && StepTo(p, run[m], l) && b == Enter(c, p, run[m].op, run[m].now)
  }

  predicate Balanced(l: Link, b: Book)
  {
    && b.entered == Data(b.settled) + l.log.accepted
    && LostOf(b.settled) == l.log.lost
    && (!l.cfg.FullReset() ==> forall i :: 0 <= i < |b.settled| ==> !b.settled[i].Dropped?)
  }

  // ---- one step ----

  lemma {:induction false} LostOfConcat(a: seq<Fate>, b: seq<Fate>)
    ensures LostOf(a + b) == LostOf(a) + LostOf(b)
  {
    if b == [] {
      assert a + b == a;
    } else {
      var m := |b| - 1;
      assert (a + b)[..|a + b| - 1] == a + b[..m];
      LostOfConcat(a, b[..m]);
    }
  }

  lemma {:induction false} LostOfLosses(q: seq<Asdu>)
    ensures LostOf(Losses(q)) == q
  {
    if q != [] {
      var m := |q| - 1;
      assert Losses(q)[..m] == Losses(q[..m]);
      LostOfLosses(q[..m]);
      assert q == q[..m] + [q[m]];
    }
  }

  lemma {:induction false} NoneLost(fs: seq<Fate>)
    requires forall i :: 0 <= i < |fs| ==> !fs[i].Lost?
    ensures LostOf(fs) == []
  {
    if fs != [] { NoneLost(fs[..|fs| - 1]); }
  }

  lemma SettleLosses(l: Link)
    ensures LostOf(Settle(l)) == Payloads(l.ackq)
  {
    var a, b, c := Acks(l.log.acked), Losses(Payloads(l.ackq)), if l.cfg.FullReset() then Drops(l.outq) else [];
    LostOfConcat(a + b, c);
    LostOfConcat(a, b);
    NoneLost(a);
    NoneLost(c);
    LostOfLosses(Payloads(l.ackq));
  }

  /** A disconnect settles exactly what it takes away. */
  lemma SettleBalances(l: Link)
    requires Inv(l)
    ensures l.log.accepted == Data(Settle(l)) + Disconnect(l).log.accepted
  {
    var a, q, o := l.log.acked, Payloads(l.ackq), l.outq;
    assert Data(Settle(l)) == a + q + if l.cfg.FullReset() then o else [];
  }

  /** Everything else leaves the data accepted as it was, but for an accepted put. */
  lemma AcceptedStays(l: Link, op: Op, now: int)
    requires Inv(l) && Enabled(l, op)
    ensures var l' := Apply(l, op, now).link;
            (op.OpPut? ==> l'.conn == l.conn)
            && if op.OpDisconnect? || (l.conn && !l'.conn) then l' == Disconnect(l)
            else l'.log.lost == l.log.lost
                 && l'.log.accepted == if op.OpPut? && l.ssp.Started? then l.log.accepted + [op.asdu] else l.log.accepted
  {
    match op
    case OpReceive(f) => ReceiveKeepsAccepted(l, f, now);
    case OpRequest(t) => MasterSlaveFrame(l, Request(t), now);
    case OpConnect => MasterSlaveFrame(l.(conn := true, mode := PollIn), TcpUp, now);
    case _ =>
  }

  lemma ReceiveKeepsAccepted(l: Link, f: Frame, now: int)
    requires Inv(l) && l.conn && (f.U? || f.nr < l.cfg.n)
    ensures var l' := Receive(l, f, now).link;
            l'.conn && l'.log.lost == l.log.lost && l'.log.accepted == l.log.accepted
  {
    var l1 := RestartT3(l, now);
    match f
    case U(t) => MasterSlaveFrame(if t.IsAct() then l1 else StopT1(l1), Indication(t), now);
    case S(_, nr) => MasterSlaveFrame(Acknowledge(l1, nr), IndicationS, now);
    case I(_, nr, _) => MasterSlaveFrame(TakeI(WakeWriter(Acknowledge(l1, nr)), now).link, IndicationI, now);
  }

  lemma DataConcat(a: seq<Fate>, b: seq<Fate>)
    ensures Data(a + b) == Data(a) + Data(b)
  {
  }

  lemma DisconnectLog(l: Link)
    ensures Disconnect(l).cfg == l.cfg && Disconnect(l).log.lost == l.log.lost + Payloads(l.ackq)
    ensures !l.cfg.FullReset() ==> forall i :: 0 <= i < |Settle(l)| ==> !Settle(l)[i].Dropped?
  {
  }

  lemma DisconnectBalances(b: Book, l: Link)
    requires Inv(l) && Balanced(l, b)
    ensures Balanced(Disconnect(l), b.(settled := b.settled + Settle(l)))
  {
    hide Inv, Settle, LostOf, Data, Disconnect;
    SettleBalances(l);
    SettleLosses(l);
    LostOfConcat(b.settled, Settle(l));
    DataConcat(b.settled, Settle(l));
    DisconnectLog(l);
    assert b.entered == Data(b.settled) + Data(Settle(l)) + Disconnect(l).log.accepted;
  }

  lemma EnterBalances(b: Book, l: Link, op: Op, now: int)
    requires Inv(l) && Enabled(l, op) && Balanced(l, b)
    ensures Balanced(Apply(l, op, now).link, Enter(b, l, op, now))
  {
    hide Inv, Settle, LostOf, Data, Disconnect, Apply, Enabled;
    InvInRange(l);
    var l' := Apply(l, op, now).link;
    AcceptedStays(l, op, now);
    ApplyKeepsInv(l, op, now);
    DisconnectBalances(b, l);
    if op.OpPut? && l.ssp.Started? {
      assert b.entered + [op.asdu] == Data(b.settled) + l'.log.accepted;
    }
  }

  /** Conservation over all connections: what was accepted is, in the order in which it was
      accepted, settled data followed by the acknowledged data, the ack queue and the out queue of
      the present connection. Each disconnect reported as lost exactly what was in its ack queue,
      in order, and a link without full reset never drops anything. */
  lemma {:induction false} AcceptedIsAccountedFor(cfg: Config, run: seq<Timed>, l: Link, b: Book)
    requires cfg.Valid() && Booked(cfg, run, l, b)
    ensures l.cfg == cfg && Inv(l) && Balanced(l, b)
    ensures b.entered == Data(b.settled) + (l.log.acked + Payloads(l.ackq) + l.outq)
  {
    if run == [] {
      FreshInv(cfg);
    } else {
      var m := |run| - 1;
      var p, c :| Booked(cfg, run[..m], p, c) && StepTo(p, run[m], l) && b == Enter(c, p, run[m].op, run[m].now);
      AcceptedIsAccountedFor(cfg, run[..m], p, c);
      StepKeepsInv(p, run[m], l);
      EnterBalances(c, p, run[m].op, run[m].now);
    }
  }
}
