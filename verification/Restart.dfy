/** A link that keeps its out queue over a disconnect, and is started again on the next connection. */
module Restart {
  import opened SeqNum
  import opened LinkSpec
  import opened LinkProps
  import opened LinkRuns

  /** The operations that take a link without a connection to the started state: connect, request
      the start unless that is done on connecting or is up to the peer, and take in the start frame
      of the peer. */
  function StartOps(cfg: Config): seq<Op>
  {
    [OpConnect]
    + (if cfg.slave || cfg.autostart then [] else [OpRequest(StartDtAct)])
    + [OpReceive(U(if cfg.slave then StartDtAct else StartDtCon))]
  }

  /** The link after these operations, at the times t0, t1 and t2. */
  function Started(l: Link, t0: int, t1: int, t2: int): Link
  {
    var up := Connect(l, t0).link;
    var asked := if l.cfg.slave || l.cfg.autostart then up else MasterSlave(up, Request(StartDtAct), t1).link;
    ReceiveU(RestartT3(asked, t2), if l.cfg.slave then StartDtAct else StartDtCon, t2).link
  }

  lemma StartedState(l: Link, t0: int, t1: int, t2: int)
    requires Inv(l) && !l.conn
    ensures var r := Started(l, t0, t1, t2);
            Inv(r) && r.conn && r.ssp.Started? && r.mode == PollIn && r.cfg == l.cfg && r.num == l.num
            && r.ackq == [] && r.outq == l.outq && r.log == l.log
  {
    InvConnect(l, t0);
    var up := Connect(l, t0).link;
    InvMasterSlave(up, Request(StartDtAct), t1);
    var asked := if l.cfg.slave || l.cfg.autostart then up else MasterSlave(up, Request(StartDtAct), t1).link;
    InvReceive(asked, U(if l.cfg.slave then StartDtAct else StartDtCon), t2);
    hide Inv;
  }

  function Restarted(l: Link, t0: int, t1: int, t2: int): Link
  {
    Started(Disconnect(l), t0, t1, t2)
  }

  lemma RestartedState(l: Link, t0: int, t1: int, t2: int)
    requires Inv(l) && !l.cfg.FullReset()
    ensures var r := Restarted(l, t0, t1, t2);
            Inv(r) && r.conn && r.ssp.Started? && r.mode == PollIn && r.cfg == l.cfg
            && r.num == Counters(0, 0, 0, 0) && r.ackq == [] && r.outq == l.outq
  {
    InvDisconnect(l);
    StartedState(Disconnect(l), t0, t1, t2);
    hide Inv, Started;
  }

  lemma SendsFromZero(l: Link, budget: nat, now: int)
    requires Inv(l) && l.ssp.Started? && l.conn && l.num == Counters(0, 0, 0, 0) && l.ackq == []
    ensures var tx := RunOut(l, budget, now).tx;
            |tx| == Min(Min(|l.outq|, l.cfg.k), budget)
            && forall i :: 0 <= i < |tx| ==> tx[i] == I(i, 0, l.outq[i])
  {
    WindowClosed(l);
    var n, k := l.cfg.n, l.cfg.k;
    ModUnique(k, 0, k, n);
    forall i | 0 <= i < k ensures Nth(0, i, n) == i { ModUnique(i, 0, i, n); }
    hide Inv;
  }

  /** Once it is started and gets to write, it sends the kept queue in order, from N(S) = 0. */
  lemma ResentFromZero(l: Link, budget: nat, t0: int, t1: int, t2: int, t3: int)
    requires Inv(l) && !l.cfg.FullReset()
    ensures var tx := RunOut(Restarted(l, t0, t1, t2), budget, t3).tx;
            Restarted(l, t0, t1, t2).outq == l.outq
            && |tx| == Min(Min(|l.outq|, l.cfg.k), budget)
            && forall i :: 0 <= i < |tx| ==> tx[i] == I(i, 0, l.outq[i])
  {
    hide Inv, Restarted, RunOut;
    RestartedState(l, t0, t1, t2);
    SendsFromZero(Restarted(l, t0, t1, t2), budget, t3);
  }

  // ---- but it is not woken up to write ----

  /** The restarted link waits for POLLIN only, where lib/xlap.c would ask for POLLOUT exactly if
      data is left: it is awake exactly if the kept queue is empty. */
  lemma RestartedAwakeExactly(l: Link, t0: int, t1: int, t2: int)
    requires Inv(l) && !l.cfg.FullReset()
    ensures var r := Restarted(l, t0, t1, t2);
            Inv(r) && r.ssp.Started? && !r.mode.Writes()
            && (RecomputedMode(r).Writes() <==> l.outq != []) && (Awake(r) <==> l.outq == [])
  {
    RestartedState(l, t0, t1, t2);
    WindowClosed(Restarted(l, t0, t1, t2));
    hide Restarted;
  }

  lemma OneStep(cfg: Config, run: seq<Timed>, l: Link, op: Op)
    requires Reaches(cfg, run, l) && InRange(l) && Enabled(l, op)
    ensures Reaches(cfg, run + [Timed(op, 1)], Apply(l, op, 1).link)
  {
    hide Apply, Enabled, Fresh;
    var r := run + [Timed(op, 1)];
    assert r[..|r| - 1] == run && r[|r| - 1] == Timed(op, 1);
    assert StepTo(l, r[|r| - 1], Apply(l, op, 1).link);
  }

  /** The operations that start a link are possible. */
  lemma StartReaches(cfg: Config, run: seq<Timed>, l: Link) returns (more: seq<Timed>)
    requires cfg.Valid() && Reaches(cfg, run, l) && !l.conn
    ensures Reaches(cfg, run + more, Started(l, 1, 1, 1)) && Inv(l) && l.cfg == cfg
  {
    hide Inv, Reaches, Connect, ReceiveU;
    ReachableInv(cfg, run, l);
    InvInRange(l);
    var t := if cfg.slave then StartDtAct else StartDtCon;
    more := [Timed(OpConnect, 1)];
    OneStep(cfg, run, l, OpConnect);
    var up := Connect(l, 1).link;
    ConnectStays(l);
    ReachableInv(cfg, run + more, up);
    InvInRange(up);
    var asked := up;
    if !cfg.slave && !cfg.autostart {
      OneStep(cfg, run + more, up, OpRequest(StartDtAct));
      assert run + more + [Timed(OpRequest(StartDtAct), 1)] == run + (more + [Timed(OpRequest(StartDtAct), 1)]);
      more := more + [Timed(OpRequest(StartDtAct), 1)];
      asked := MasterSlave(up, Request(StartDtAct), 1).link;
      MasterSlaveFrame(up, Request(StartDtAct), 1);
    }
    ReachableInv(cfg, run + more, asked);
    InvInRange(asked);
    OneStep(cfg, run + more, asked, OpReceive(U(t)));
    assert run + more + [Timed(OpReceive(U(t)), 1)] == run + (more + [Timed(OpReceive(U(t)), 1)]);
    more := more + [Timed(OpReceive(U(t)), 1)];
  }

  lemma ConnectStays(l: Link)
    requires !l.conn
    ensures Connect(l, 1).link.conn
  {
    MasterSlaveFrame(l.(conn := true, mode := PollIn), TcpUp, 1);
  }

  /** Start, put, disconnect, start again: the data is left in the queue, and nothing asks for it
      to be sent. */
  lemma LostWakeup(cfg: Config) returns (run: seq<Timed>, l: Link)
    requires cfg.Valid() && !cfg.FullReset()
    ensures Reaches(cfg, run, l) && Inv(l) && l.ssp.Started? && !Awake(l)
    ensures RecomputedMode(l).Writes() && !l.mode.Writes()
  {
    hide Reaches, Inv, Started, RecomputedMode;
    var f := Fresh(cfg);
    ReachesFresh(cfg);
    var r1 := StartReaches(cfg, [], f);
    var l1 := Started(f, 1, 1, 1);
    StartedState(f, 1, 1, 1);
    InvInRange(l1);
    OneStep(cfg, [] + r1, l1, OpPut([]));
    var l2 := Put(l1, []);
    InvPut(l1, []);
    InvInRange(l2);
    OneStep(cfg, [] + r1 + [Timed(OpPut([]), 1)], l2, OpDisconnect);
    var r3 := [] + r1 + [Timed(OpPut([]), 1)] + [Timed(OpDisconnect, 1)];
    var r4 := StartReaches(cfg, r3, Disconnect(l2));
    run, l := r3 + r4, Restarted(l2, 1, 1, 1);
    RestartedAwakeExactly(l2, 1, 1, 1);
  }

  lemma ReachesFresh(cfg: Config)
    ensures Reaches(cfg, [], Fresh(cfg))
  {
  }

  /** Wake-ups can be lost exactly on links that keep their out queue over a disconnect. */
  lemma LostWakeupExactly(cfg: Config)
    requires cfg.Valid()
    ensures (exists run, l :: Reaches(cfg, run, l) && 0 < l.cfg.n && !Awake(l)) <==> !cfg.FullReset()
  {
    hide Reaches, Awake, Inv;
    if cfg.FullReset() {
      forall run, l | Reaches(cfg, run, l) && 0 < l.cfg.n ensures Awake(l) {
        NoLostWakeup(cfg, run, l);
      }
    } else {
      var run, l := LostWakeup(cfg);
      InvInRange(l);
    }
  }
}
