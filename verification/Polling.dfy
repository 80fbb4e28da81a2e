/** When POLLOUT is no longer asked for: a started link is woken in vain at most once, one that is not
    started may be woken for ever. */
module Polling {
  import opened SeqNum
  import opened LinkSpec
  import opened LinkProps
  import opened LinkRuns
  import opened Restart

  /** Sending leaves POLLOUT requested exactly if data is left, and so never without need but when
      the window has closed in front of it. */
  lemma ModeAfterSending(l: Link, budget: nat, now: int)
    requires Inv(l) && l.conn && l.ssp.Started? && l.num.vs != WindowEnd(l)
    ensures var e := RunOut(l, budget, now).link;
            Inv(e) && e.mode == (if e.outq == [] then PollIn else PollInOut)
            && (RecomputedMode(e).Writes() ==> e.mode.Writes())
            && (e.mode.Writes() && !RecomputedMode(e).Writes() ==> e.num.vs == WindowEnd(e))
  {
    InvRunOut(l, budget, now);
    WindowClosed(l);
  }

  /** Where lib/xlap.c would not ask for POLLOUT, a link that is woken to write writes nothing and
      stops asking for it. */
  lemma StopsAsking(l: Link, budget: nat, now: int)
    requires Inv(l) && l.conn && l.ssp.Started? && !RecomputedMode(l).Writes()
    ensures var e := RunOut(l, budget, now);
            Inv(e.link) && e.tx == [] && e.link.mode == RecomputedMode(e.link) == PollIn
  {
    InvRunOut(l, budget, now);
    WindowClosed(l);
  }

  /** A link is woken in vain and asks to be woken again exactly if it is not started. */
  lemma AsksInVainExactly(l: Link, budget: nat, now: int)
    requires Inv(l) && l.conn && l.mode.Writes() && 0 < budget
    ensures var e := RunOut(l, budget, now); e.tx == [] && e.link.mode.Writes() <==> !l.ssp.Started?
  {
    InvRunOut(l, budget, now);
    WindowClosed(l);
  }

  /** The mode that lib/xlap.c recomputes is exact: it asks for POLLOUT if and only if a wake-up would
      write something. */
  lemma RecomputedExactly(l: Link, budget: nat, now: int)
    requires Inv(l) && l.conn && 0 < budget
    ensures RecomputedMode(l).Writes() <==> RunOut(l, budget, now).tx != []
  {
    InvRunOut(l, budget, now);
    WindowClosed(l);
  }

  /** Without a connection POLLOUT is asked for, to learn of its end, by both: a link that is reset in
      full never asks for anything else then. */
  lemma {:induction false} UnconnectedMode(cfg: Config, run: seq<Timed>, l: Link)
    requires cfg.Valid() && cfg.FullReset() && Reaches(cfg, run, l)
    ensures l.cfg == cfg && (!l.conn ==> l.mode == RecomputedMode(l) == PollOut)
  {
    hide Inv;
    ReachableInv(cfg, run, l);
    if run != [] {
      var m := |run| - 1;
      var p :| Reaches(cfg, run[..m], p) && StepTo(p, run[m], l);
      ReachableInv(cfg, run[..m], p);
      UnconnectedMode(cfg, run[..m], p);
      UnconnectedStep(p, run[m].op, run[m].now);
    }
  }

  lemma UnconnectedStep(l: Link, op: Op, now: int)
    requires Inv(l) && InRange(l) && Enabled(l, op) && l.cfg.FullReset() && (!l.conn ==> l.mode == PollOut)
    ensures var r := Apply(l, op, now).link; !r.conn ==> r.mode == PollOut
  {
    match op
    case OpReceive(f) => ReceiveKeepsConn(l, f, now);
    case OpRequest(t) => MasterSlaveFrame(l, Request(t), now);
    case OpConnect => MasterSlaveFrame(l.(conn := true, mode := PollIn), TcpUp, now);
    case _ =>
  }

  lemma ReceiveKeepsConn(l: Link, f: Frame, now: int)
    requires InRange(l) && l.conn
    ensures Receive(l, f, now).link.conn
  {
    hide OkNr, FirstNs, Dist;
  }

  // ---- over runs ----

  /** Neither data nor a frame nor a new connection comes in; the link is woken to write only if it
      asked for it, and the socket takes at least one frame. */
  predicate Lull(l: Link, op: Op)
  {
    match op
    case OpRunOut(budget) => l.conn && l.mode.Writes() && 0 < budget
    case OpRequest(_) => true
    case OpTimer => true
    case OpAckTimer => true
    case _ => false
  }

  /** How often the started and connected link is woken in vain. */
  ghost function WokenInVain(l: Link, run: seq<Timed>): nat
    requires Inv(l)
    decreases |run|
  {
    if run == [] || !Enabled(l, run[0].op) then 0
    else
      ApplyKeepsInv(l, run[0].op, run[0].now);
      var e := Apply(l, run[0].op, run[0].now);
      (if run[0].op.OpRunOut? && l.conn && l.ssp.Started? && e.tx == [] then 1 else 0) + WokenInVain(e.link, run[1..])
  }

  /** All steps are of this kind. */
  ghost predicate Lulls(l: Link, run: seq<Timed>)
    requires Inv(l)
    decreases |run|
  {
    run == [] || (Lull(l, run[0].op) && Enabled(l, run[0].op) &&
                  (ApplyKeepsInv(l, run[0].op, run[0].now); Lulls(Apply(l, run[0].op, run[0].now).link, run[1..])))
  }

  /** It has nothing to be woken for: no connection is up, or POLLOUT is not asked for. */
  predicate Asleep(l: Link) { !l.conn || !l.mode.Writes() }

  lemma LullStep(l: Link, s: Timed)
    requires Inv(l) && Enabled(l, s.op) && Lull(l, s.op)
    ensures var e := Apply(l, s.op, s.now);
            (Asleep(l) ==> Asleep(e.link) && !s.op.OpRunOut?)
            && (s.op.OpRunOut? && l.ssp.Started? && e.tx == [] ==> Asleep(e.link))
  {
    match s.op
    case OpRunOut(budget) => AsksInVainExactly(l, budget, s.now);
    case OpRequest(t) => MasterSlaveFrame(l, Request(t), s.now);
    case OpTimer =>
    case OpAckTimer =>
  }

  lemma {:induction false} NeverWhileAsleep(l: Link, run: seq<Timed>)
    requires Inv(l) && Lulls(l, run) && Asleep(l)
    ensures WokenInVain(l, run) == 0
    decreases |run|
  {
    if run != [] {
      LullStep(l, run[0]);
      ApplyKeepsInv(l, run[0].op, run[0].now);
      NeverWhileAsleep(Apply(l, run[0].op, run[0].now).link, run[1..]);
    }
  }

  /** As long as no data is put and no frame received, a started link is woken in vain at most once,
      however the run goes on. */
  lemma {:induction false} WokenInVainOnce(l: Link, run: seq<Timed>)
    requires Inv(l) && Lulls(l, run)
    ensures WokenInVain(l, run) <= 1
    decreases |run|
  {
    if run != [] {
      LullStep(l, run[0]);
      ApplyKeepsInv(l, run[0].op, run[0].now);
      var e := Apply(l, run[0].op, run[0].now);
      if run[0].op.OpRunOut? && l.conn && l.ssp.Started? && e.tx == [] {
        NeverWhileAsleep(e.link, run[1..]);
      } else {
        WokenInVainOnce(e.link, run[1..]);
      }
    }
  }

  // ---- a link that is not started ----

  /** With data put before the stop is requested, the link asks for POLLOUT and is woken in vain
      until the stop is confirmed and it is started again, for every configuration. */
  lemma StoppingSpins(cfg: Config) returns (run: seq<Timed>, l: Link)
    requires cfg.Valid()
    ensures Reaches(cfg, run, l) && Inv(l) && l.conn && l.ssp.PendingStopped? && l.mode.Writes()
    ensures forall budget, now :: RunOut(l, budget, now) == Effect(l, [])
  {
    hide Reaches, Inv, Restart.Started;
    var f := Fresh(cfg);
    ReachesFresh(cfg);
    var r1 := StartReaches(cfg, [], f);
    var l1 := Restart.Started(f, 1, 1, 1);
    StartedState(f, 1, 1, 1);
    InvInRange(l1);
    OneStep(cfg, [] + r1, l1, OpPut([]));
    var l2 := Put(l1, []);
    InvPut(l1, []);
    InvInRange(l2);
    OneStep(cfg, [] + r1 + [Timed(OpPut([]), 1)], l2, OpRequest(StopDtAct));
    run := [] + r1 + [Timed(OpPut([]), 1)] + [Timed(OpRequest(StopDtAct), 1)];
    l := MasterSlave(l2, Request(StopDtAct), 1).link;
    InvMasterSlave(l2, Request(StopDtAct), 1);
    InvInRange(l);
  }
}
