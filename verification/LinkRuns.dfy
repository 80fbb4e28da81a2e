/** Runs of one link: any sequence of user calls, socket events, received frames and timer
    ticks, with a clock that never goes back. */
module LinkRuns {
  import opened SeqNum
  import opened LinkSpec
  import opened LinkProps

  datatype Op =
    | OpConnect | OpDisconnect
    | OpPut(asdu: Asdu) | OpRunOut(budget: nat)
    | OpReceive(f: Frame) | OpRequest(t: UType)
    | OpTimer | OpAckTimer

  datatype Timed = Timed(op: Op, now: int)

  /** A link as it is added to a context. */
  function Fresh(cfg: Config): Link
  {
    Link(cfg, false, Init, PollOut, Counters(0, 0, 0, 0), Timers(0, 0, 0, 0), Errors(0, 0), [], [], Log([], [], [], [], []))
  }

  /** The peer numbers its acknowledgements modulo n, as both ends of this code do. */
  predicate Enabled(l: Link, op: Op)
  {
    match op
    case OpConnect => !l.conn
    case OpReceive(f) => l.conn && (f.U? || f.nr < l.cfg.n)
    case _ => true
  }

  function Apply(l: Link, op: Op, now: int): Effect
    requires InRange(l) && Enabled(l, op)
  {
    match op
    case OpConnect => Connect(l, now)
    case OpDisconnect => Effect(Disconnect(l), [])
    case OpPut(asdu) => Effect(Put(l, asdu), [])
    case OpRunOut(budget) => RunOut(l, budget, now)
    case OpReceive(f) => Receive(l, f, now)
    case OpRequest(t) => MasterSlave(l, Request(t), now)
    case OpTimer => Timer(l, now)
    case OpAckTimer => Effect(AckTimer(l, now), [])
  }

  lemma ApplyKeepsInv(l: Link, op: Op, now: int)
    requires Inv(l) && Enabled(l, op)
    ensures Inv(Apply(l, op, now).link) && Apply(l, op, now).link.cfg == l.cfg
  {
    hide Inv, Connect, Disconnect, Put, RunOut, Receive, MasterSlave, Timer;
    match op
    case OpConnect => InvConnect(l, now);
    case OpDisconnect => InvDisconnect(l);
    case OpPut(asdu) => InvPut(l, asdu);
    case OpRunOut(budget) => InvRunOut(l, budget, now);
    case OpReceive(f) => InvReceive(l, f, now);
    case OpRequest(t) => InvMasterSlave(l, Request(t), now);
    case OpTimer => InvTimer(l, now);
    case OpAckTimer => InvDisconnect(l);
  }

  /** `l` can be reached from a fresh link by the steps of `run`. */
  ghost predicate Reaches(cfg: Config, run: seq<Timed>, l: Link)
  {
    if run == [] then l == Fresh(cfg)
    else
      var m := |run| - 1;
      exists p :: Reaches(cfg, run[..m], p) && StepTo(p, run[m], l)
  }

  ghost predicate StepTo(p: Link, s: Timed, l: Link)
  {
    InRange(p) && Enabled(p, s.op) && l == Apply(p, s.op, s.now).link
  }

  lemma FreshInv(cfg: Config)
    requires cfg.Valid()
    ensures Inv(Fresh(cfg))
  {
    ModUnique(0, 0, 0, cfg.n);
    DistExact(0, 0, cfg.n);
  }

  lemma StepKeepsInv(p: Link, s: Timed, l: Link)
    requires Inv(p) && StepTo(p, s, l)
    ensures Inv(l) && l.cfg == p.cfg
  {
    ApplyKeepsInv(p, s.op, s.now);
  }

  /** Every reachable link satisfies the window, numbering and conservation invariant. */
  lemma {:induction false} ReachableInv(cfg: Config, run: seq<Timed>, l: Link)
    requires cfg.Valid() && Reaches(cfg, run, l)
    ensures Inv(l) && l.cfg == cfg
  {
    if run == [] {
      FreshInv(cfg);
    } else {
      var m := |run| - 1;
      var p :| Reaches(cfg, run[..m], p) && StepTo(p, run[m], l);
      ReachableInv(cfg, run[..m], p);
      StepKeepsInv(p, run[m], l);
    }
  }

  /** From any other peer: a received N(R) breaks the invariant exactly when it is not reduced and
      stands, modulo n, for a number of the window. */
  lemma ReceiveKeepsInvExactly(l: Link, f: Frame, now: int)
    requires Inv(l) && l.conn && !f.U?
    ensures Inv(Receive(l, f, now).link) <==>
            f.nr < l.cfg.n || !InWindow(l.num.va, l.num.vs, f.nr % l.cfg.n, l.cfg.n)
  {
    var l0 := RestartT3(l, now);
    OkNrReads(l.num.va, l.num.vs, f.nr, l.cfg.n);
    hide InWindow;
    if f.nr < l.cfg.n {
      InvReceive(l, f, now);
    } else if !OkNr(l.num.va, l.num.vs, f.nr, l.cfg.n) {
      InvReject(l0);
    } else {
      MasterSlaveFrame(Acknowledge(l0, f.nr), IndicationS, now);
      assert Receive(l, f, now).link.num.va == f.nr;
    }
  }

  // ---- No lost wake-up ----

  /** POLLOUT is requested whenever a connected link has data and an open window. */
  predicate Awake(l: Link)
    requires 0 < l.cfg.n
  {
    l.conn && l.outq != [] && l.num.vs != WindowEnd(l) ==> l.mode.Writes()
  }

  predicate WakeInv(l: Link)
    requires 0 < l.cfg.n
  {
    Awake(l) && (!l.conn ==> l.outq == [])
  }

  lemma ApplyKeepsAwake(l: Link, op: Op, now: int)
    requires Inv(l) && Enabled(l, op) && WakeInv(l) && l.cfg.FullReset()
    ensures WakeInv(Apply(l, op, now).link)
  {
    match op
    case OpReceive(f) => ReceiveKeepsAwake(l, f, now);
    case OpRunOut(budget) => InvRunOut(l, budget, now);
    case OpConnect =>
    case OpDisconnect =>
    case OpPut(asdu) =>
    case OpRequest(t) => MasterSlaveFrame(l, Request(t), now);
    case OpTimer =>
    case OpAckTimer =>
  }

  /** Whether a link is awake depends on its queue, window and mode only. */
  lemma AwakeSame(l: Link, l': Link)
    requires 0 < l.cfg.n && l'.cfg == l.cfg && l'.conn == l.conn && l'.outq == l.outq && l'.mode == l.mode
    requires l'.num.va == l.num.va && l'.num.vs == l.num.vs
    ensures Awake(l') <==> Awake(l)
  {
  }

  lemma ReceiveDataKeepsAwake(l: Link, ns: nat, asdu: Asdu, now: int)
    requires 0 < l.cfg.n && l.num.vapeer < l.cfg.n && l.conn && Awake(l)
    ensures var l' := ReceiveData(l, ns, asdu, now).link; Awake(l') && l'.conn
  {
    hide Awake, MasterSlave;
    AwakeSame(l, SendS(CountBadNs(l)).link);
    var e := TakeI(l, now);
    MasterSlaveFrame(e.link, IndicationI, now);
    AwakeSame(l, HandUp(MasterSlave(e.link, IndicationI, now).link, asdu, now));
  }

  lemma ReceiveKeepsAwake(l: Link, f: Frame, now: int)
    requires Inv(l) && l.conn && (f.U? || f.nr < l.cfg.n) && Awake(l)
    ensures Awake(Receive(l, f, now).link)
    ensures Receive(l, f, now).link.conn
  {
    var l1 := RestartT3(l, now);
    var nr := if f.U? then 0 else f.nr;
    AwakeSame(l, RejectNr(l1).link);
    var w := WakeWriter(Acknowledge(l1, nr));
    assert Awake(w);
    hide Inv, OkNr, Acknowledge, Awake, MasterSlave, RejectNr, TakeI;
    match f
    case U(t) =>
      var l2 := if t.IsAct() then l1 else StopT1(l1);
      MasterSlaveFrame(l2, Indication(t), now);
      AwakeSame(l, MasterSlave(l2, Indication(t), now).link);
    case S(_, _) =>
      MasterSlaveFrame(Acknowledge(l1, nr), IndicationS, now);
      AwakeSame(w, WakeWriter(MasterSlave(Acknowledge(l1, nr), IndicationS, now).link));
    case I(ns, _, asdu) =>
      if OkNr(l1.num.va, l1.num.vs, nr, l1.cfg.n) {
        ReceiveDataKeepsAwake(w, ns, asdu, now);
      }
  }

  lemma StepKeepsAwake(p: Link, s: Timed, l: Link)
    requires Inv(p) && StepTo(p, s, l) && WakeInv(p) && p.cfg.FullReset()
    ensures WakeInv(l)
  {
    ApplyKeepsAwake(p, s.op, s.now);
  }

  /** No lost wake-up: in every reachable state of a link that is reset in full on disconnect,
      the mode kept by lib/elap.c has POLLOUT whenever there is data to send, so it covers
      every POLLOUT that lib/xlap.c would compute. */
  lemma {:induction false} NoLostWakeup(cfg: Config, run: seq<Timed>, l: Link)
    requires cfg.Valid() && cfg.FullReset() && Reaches(cfg, run, l)
    ensures l.cfg == cfg && WakeInv(l)
    ensures l.conn && RecomputedMode(l).Writes() ==> l.mode.Writes()
  {
    ReachableInv(cfg, run, l);
    if run != [] {
      var m := |run| - 1;
      var p :| Reaches(cfg, run[..m], p) && StepTo(p, run[m], l);
      ReachableInv(cfg, run[..m], p);
      NoLostWakeup(cfg, run[..m], p);
      StepKeepsAwake(p, run[m], l);
    }
  }

  // ---- Bounded acknowledgement delay ----

  /** Every data frame not yet confirmed by an S frame arrived after the T2 timer was armed. */
  predicate T2Armed(l: Link, last: int)
    requires l.num.vapeer < l.cfg.n && |l.log.upAt| == |l.log.up|
    requires Unconfirmed(l) <= |l.log.up|
  {
    && 0 <= l.tm.iRcvAt <= last
    && forall i :: |l.log.up| - Unconfirmed(l) <= i < |l.log.up| ==> 0 < l.tm.iRcvAt <= l.log.upAt[i] <= last
  }

  lemma ConfirmedArmed(l: Link, last: int)
    requires Inv(l) && l.conn && 0 <= l.tm.iRcvAt <= last
    ensures var l' := SendS(l).link; Inv(l') && Unconfirmed(l') == 0 && T2Armed(l', last)
  {
    InvSendS(l);
    DistExact(TotalTaken(l), TotalTaken(l), l.cfg.n);
  }

  /** Counting one more frame leaves at most one more unconfirmed. */
  lemma TakenUnconfirmed(l: Link, now: int)
    requires Inv(l)
    ensures var l' := TakeI(l, now).link;
            l'.num.vapeer < l.cfg.n && Unconfirmed(l') <= Unconfirmed(l) + 1 && Unconfirmed(l) <= |l.log.up| == |l.log.upAt|
  {
    var n, c := l.cfg.n, Unconfirmed(l);
    DistBack(TotalTaken(l), l.num.vapeer, n);
    SuccWraps(TotalTaken(l), n);
    DistExact(TotalTaken(l) + 1, TotalTaken(l) - c, n);
    DistExact(TotalTaken(l) + 1, TotalTaken(l) + 1, n);
  }

  lemma TakenArmed(l: Link, asdu: Asdu, last: int, now: int)
    requires Inv(l) && T2Armed(l, last) && last <= now && 0 < now
    ensures var l' := HandUp(TakeI(l, now).link, asdu, now);
            l'.num.vapeer < l'.cfg.n && |l'.log.upAt| == |l'.log.up| && Unconfirmed(l') <= |l'.log.up| && T2Armed(l', now)
  {
    TakenUnconfirmed(l, now);
    var l' := HandUp(TakeI(l, now).link, asdu, now);
    assert Unconfirmed(l') == Unconfirmed(TakeI(l, now).link);
    assert l'.log.up == l.log.up + [asdu] && l'.log.upAt == l.log.upAt + [now];
    hide Dist, Inv;
  }

  lemma DataArmed(l: Link, ns: nat, asdu: Asdu, last: int, now: int)
    requires Inv(l) && l.conn && T2Armed(l, last) && last <= now && 0 < now
    ensures var l' := ReceiveData(l, ns, asdu, now).link; Inv(l') && T2Armed(l', now)
  {
    hide Inv, T2Armed, TakeI, MasterSlave;
    InvReceiveData(l, ns, asdu, now);
    InvInRange(l);
    if ns != l.num.vr {
      InvSame(l, CountBadNs(l));
      RefusedArmed(l, last, now);
    } else {
      TakenArmed(l, asdu, last, now);
      InvTakeI(l, now, asdu);
      var e := TakeI(l, now).link;
      MasterSlaveFrame(e, IndicationI, now);
      ArmedSame(HandUp(e, asdu, now), ReceiveData(l, ns, asdu, now).link, now, now);
    }
  }

  lemma RefusedArmed(l: Link, last: int, now: int)
    requires Inv(l) && l.conn && T2Armed(l, last) && last <= now
    ensures var l' := SendS(CountBadNs(l)).link; Inv(l') && T2Armed(l', now)
  {
    ConfirmedArmed(CountBadNs(l), now);
  }

  /** The same frames taken and confirmed, the same timer: still armed. */
  lemma ArmedSame(l: Link, l': Link, last: int, now: int)
    requires Inv(l) && Inv(l') && T2Armed(l, last) && last <= now
    requires l'.cfg == l.cfg && l'.num == l.num.(va := l'.num.va, vs := l'.num.vs)
    requires l'.log.up == l.log.up && l'.log.upAt == l.log.upAt && l'.tm.iRcvAt == l.tm.iRcvAt
    ensures T2Armed(l', now)
  {
    forall i | |l.log.up| - Unconfirmed(l) <= i < |l.log.up|
      ensures 0 < l.tm.iRcvAt <= l'.log.upAt[i] <= now
    {
      assert l.log.upAt[i] <= last;
    }
  }

  lemma RejectArmed(l: Link, last: int)
    requires Inv(l) && l.conn && T2Armed(l, last)
    ensures Inv(RejectNr(l).link) && T2Armed(RejectNr(l).link, last)
  {
    ConfirmedArmed(CountBadNr(l), last);
  }

  lemma ReceiveIArmed(l: Link, ns: nat, nr: nat, asdu: Asdu, last: int, now: int)
    requires Inv(l) && l.conn && nr < l.cfg.n && T2Armed(l, last) && last <= now && 0 < now
    ensures Inv(ReceiveI(l, ns, nr, asdu, now).link) && T2Armed(ReceiveI(l, ns, nr, asdu, now).link, now)
  {
    hide Inv, T2Armed, ReceiveData, FirstNs, OkNr;
    InvInRange(l);
    if OkNr(l.num.va, l.num.vs, nr, l.cfg.n) {
      var l1 := Acknowledge(l, nr);
      InvAcknowledge(l, nr);
      InvSame(l1, WakeWriter(l1));
      ArmedSame(l, WakeWriter(l1), last, last);
      DataArmed(WakeWriter(l1), ns, asdu, last, now);
    } else {
      RejectArmed(l, last);
      ArmedSame(RejectNr(l).link, RejectNr(l).link, last, now);
    }
  }

  lemma ReceiveSArmed(l: Link, nr: nat, last: int, now: int)
    requires Inv(l) && l.conn && nr < l.cfg.n && T2Armed(l, last) && last <= now
    ensures Inv(ReceiveS(l, nr, now).link) && T2Armed(ReceiveS(l, nr, now).link, now)
  {
    InvReceiveS(l, nr, now);
    if OkNr(l.num.va, l.num.vs, nr, l.cfg.n) {
      MasterSlaveFrame(Acknowledge(l, nr), IndicationS, now);
      hide Inv, T2Armed, MasterSlave;
      ArmedSame(l, ReceiveS(l, nr, now).link, last, now);
    } else {
      RejectArmed(l, last);
    }
  }

  lemma ReceiveUArmed(l: Link, t: UType, last: int, now: int)
    requires Inv(l) && l.conn && T2Armed(l, last) && last <= now
    ensures Inv(ReceiveU(l, t, now).link) && T2Armed(ReceiveU(l, t, now).link, now)
  {
    hide Inv, T2Armed, MasterSlave;
    InvInRange(l);
    InvReceiveU(l, t, now);
    MasterSlaveFrame(if t.IsAct() then l else StopT1(l), Indication(t), now);
    ArmedSame(l, ReceiveU(l, t, now).link, last, now);
  }

  lemma ReceiveArmed(l: Link, f: Frame, last: int, now: int)
    requires Inv(l) && Enabled(l, OpReceive(f)) && T2Armed(l, last) && last <= now && 0 < now
    ensures Inv(Receive(l, f, now).link) && T2Armed(Receive(l, f, now).link, now)
  {
    hide Inv, T2Armed, ReceiveU, ReceiveS, ReceiveI;
    var l0 := RestartT3(l, now);
    InvInRange(l);
    InvSame(l, l0);
    ArmedSame(l, l0, last, last);
    match f
    case U(t) => ReceiveUArmed(l0, t, last, now);
    case S(_, nr) => ReceiveSArmed(l0, nr, last, now);
    case I(ns, nr, asdu) => ReceiveIArmed(l0, ns, nr, asdu, last, now);
  }

  lemma ApplyArmed(l: Link, op: Op, last: int, now: int)
    requires Inv(l) && Enabled(l, op) && T2Armed(l, last) && last <= now && 0 < now
    ensures Inv(Apply(l, op, now).link) && T2Armed(Apply(l, op, now).link, now)
  {
    hide Inv, T2Armed, Receive, Timer, Connect, Disconnect, MasterSlave;
    InvInRange(l);
    ApplyKeepsInv(l, op, now);
    match op
    case OpReceive(f) => ReceiveArmed(l, f, last, now);
    case OpTimer => TimerArmed(l, last, now);
    case OpConnect => ConnectArmed(l, last, now);
    case OpDisconnect => DisconnectArmed(l, now);
    case OpAckTimer =>
      DisconnectArmed(l, now);
      ArmedSame(l, l, last, now);
    case OpRequest(t) =>
      MasterSlaveFrame(l, Request(t), now);
      ArmedSame(l, MasterSlave(l, Request(t), now).link, last, now);
    case OpPut(asdu) => ArmedSame(l, Put(l, asdu), last, now);
    case OpRunOut(budget) => ArmedSame(l, RunOut(l, budget, now).link, last, now);
  }

  lemma DisconnectArmed(l: Link, now: int)
    requires Inv(l) && 0 < now
    ensures Inv(Disconnect(l)) && T2Armed(Disconnect(l), now)
  {
    InvDisconnect(l);
    DistExact(0, 0, l.cfg.n);
  }

  lemma ConnectArmed(l: Link, last: int, now: int)
    requires Inv(l) && !l.conn && T2Armed(l, last) && last <= now
    ensures Inv(Connect(l, now).link) && T2Armed(Connect(l, now).link, now)
  {
    InvConnect(l, now);
    MasterSlaveFrame(l.(conn := true, mode := PollIn), TcpUp, now);
    hide Inv, T2Armed, MasterSlave;
    ArmedSame(l, Connect(l, now).link, last, now);
  }

  lemma TimerArmed(l: Link, last: int, now: int)
    requires Inv(l) && T2Armed(l, last) && last <= now && 0 < now
    ensures Inv(Timer(l, now).link) && T2Armed(Timer(l, now).link, now)
  {
    InvTimer(l, now);
    if l.conn && l.tm.uSndAt != 0 && Abs(now - l.tm.uSndAt) > l.cfg.t1 {
      DisconnectArmed(l, now);
    } else if l.conn && l.tm.iRcvAt != 0 && Abs(now - l.tm.iRcvAt) > l.cfg.t2 {
      InvSame(l, StopT2(l));
      ConfirmedArmed(StopT2(l), now);
    } else {
      hide Inv, T2Armed;
      ArmedSame(l, Timer(l, now).link, last, now);
    }
  }

  /** Positive times that never go back. */
  ghost predicate Clock(run: seq<Timed>)
  {
    && (forall i :: 0 <= i < |run| ==> 0 < run[i].now)
    && (forall i, j :: 0 <= i <= j < |run| ==> run[i].now <= run[j].now)
  }

  function LastTime(run: seq<Timed>): int { if run == [] then 0 else run[|run| - 1].now }

  lemma {:induction false} ReachableArmed(cfg: Config, run: seq<Timed>, l: Link)
    requires cfg.Valid() && Reaches(cfg, run, l) && Clock(run)
    ensures Inv(l) && l.cfg == cfg && T2Armed(l, LastTime(run))
  {
    ReachableInv(cfg, run, l);
    if run == [] {
      DistExact(0, 0, cfg.n);
    } else {
      var m := |run| - 1;
      var p :| Reaches(cfg, run[..m], p) && StepTo(p, run[m], l);
      ReachableArmed(cfg, run[..m], p);
      ApplyArmed(p, run[m].op, LastTime(run[..m]), run[m].now);
    }
  }

  lemma TickBounds(l: Link, last: int, now: int)
    requires Inv(l) && l.conn && T2Armed(l, last) && last <= now && 0 < now
    requires Timer(l, now).link.conn
    ensures Inv(Timer(l, now).link)
    ensures var l' := Timer(l, now).link;
            forall i :: |l'.log.up| - Unconfirmed(l') <= i < |l'.log.up| ==> now - l'.log.upAt[i] <= l.cfg.t2
  {
    InvTimer(l, now);
    var l' := Timer(l, now).link;
    if l.tm.iRcvAt != 0 && Abs(now - l.tm.iRcvAt) > l.cfg.t2 {
      InvSame(l, StopT2(l));
      ConfirmedArmed(StopT2(l), now);
    } else {
      assert l'.log == l.log && l'.num == l.num;
    }
  }

  /** Bounded acknowledgement delay: a timer tick that keeps the link leaves no data frame
      without confirmation for more than T2 since that frame arrived. */
  lemma AckDelayBounded(cfg: Config, run: seq<Timed>, l: Link, now: int)
    requires cfg.Valid() && Reaches(cfg, run, l) && Clock(run) && l.conn && LastTime(run) <= now && 0 < now
    requires Timer(l, now).link.conn
    ensures Inv(Timer(l, now).link)
    ensures var l' := Timer(l, now).link;
            forall i :: |l'.log.up| - Unconfirmed(l') <= i < |l'.log.up| ==> now - l'.log.upAt[i] <= cfg.t2
  {
    ReachableArmed(cfg, run, l);
    TickBounds(l, LastTime(run), now);
  }
}
