/** How two links come to be started, and when they never do. */
module Starting {
  import opened SeqNum
  import opened LinkSpec
  import opened LinkProps
  import opened LinkRuns
  import opened LinkActs
  import opened Duplex
  import opened Progress

  // ---- the same run, seen from the other end ----

  function TurnSide(side: Side): Side { if side.SideA? then SideB else SideA }

  function TurnStep(st: Step): Step
  {
    match st
    case Act(side, op, now) => Act(TurnSide(side), op, now)
    case Deliver(side, now) => Deliver(TurnSide(side), now)
    case Reconnect(now) => st
  }

  function Turned(run: seq<Step>): (r: seq<Step>)
    ensures |r| == |run|
  {
    seq(|run|, i requires 0 <= i < |run| => TurnStep(run[i]))
  }

  lemma NextTurned(s: System, st: Step)
    requires Can(s, st)
    ensures Can(s.Swap(), TurnStep(st)) && Next(s.Swap(), TurnStep(st)) == Next(s, st).Swap()
  {
    hide Apply, Receive, Connect, Disconnect, Local;
  }

  lemma StartTurned(cfgA: Config, cfgB: Config, now: int)
    ensures Start(cfgB, cfgA, now) == Start(cfgA, cfgB, now).Swap()
  {
  }

  lemma {:induction false} ReachesTurned(cfgA: Config, cfgB: Config, now: int, run: seq<Step>, s: System)
    requires SysReaches(cfgA, cfgB, now, run, s)
    ensures SysReaches(cfgB, cfgA, now, Turned(run), s.Swap())
  {
    hide Can, Next, Start;
    if run == [] {
      StartTurned(cfgA, cfgB, now);
    } else {
      var m := |run| - 1;
      var p :| SysReaches(cfgA, cfgB, now, run[..m], p) && Can(p, run[m]) && s == Next(p, run[m]);
      ReachesTurned(cfgA, cfgB, now, run[..m], p);
      NextTurned(p, run[m]);
      assert Turned(run)[..m] == Turned(run[..m]);
    }
  }

  // ---- the start procedure ----

  predicate AutoMaster(cfg: Config) { !cfg.slave && cfg.autostart }

  /** No data has passed yet. */
  predicate Unused(l: Link) { l.ackq == [] && l.log.accepted == l.log.acked == l.log.up == [] }

  lemma ConnectsTo(l: Link, now: int)
    requires l.outq == [] || l.cfg.FullReset()
    ensures var e := Connect(Disconnect(l), now);
            Unused(e.link) && e.link.cfg == l.cfg
            && if AutoMaster(l.cfg) then e.link.ssp.PendingStarted? && e.tx == [U(StartDtAct)]
               else e.link.ssp.Stopped? && e.tx == []
  {
  }

  lemma TakesStart(l: Link, now: int)
    requires Inv(l) && l.conn
    ensures l.ssp.Stopped? ==>
              var e := Receive(l, U(StartDtAct), now);
              e.link.ssp.Started? && e.tx == [U(StartDtCon)] && (Unused(l) ==> Unused(e.link))
    ensures l.ssp.PendingStarted? ==>
              var e := Receive(l, U(StartDtCon), now);
              e.link.ssp.Started? && e.tx == [] && (Unused(l) ==> Unused(e.link))
  {
  }

  lemma RequestStart(s: System, now: int) returns (t: System)
    requires SysInv(s) && s.a.ssp.Stopped? && s.ab == []
    ensures var st := Act(SideA, OpRequest(StartDtAct), now);
            Can(s, st) && t == Next(s, st) && SysInv(t) && SameEnds(s, t)
    ensures t.a.ssp.PendingStarted? && t.b == s.b && t.ab == [U(StartDtAct)] && t.ba == s.ba
    ensures Unused(s.a) ==> Unused(t.a)
  {
    var st := Act(SideA, OpRequest(StartDtAct), now);
    InvInRange(s.a);
    t := Next(s, st);
    StepKeeps(s, st);
    hide Direction;
    assert [] + [U(StartDtAct)] == [U(StartDtAct)];
  }

  lemma FirstStart(s: System, now: int) returns (t: System)
    requires SysInv(s) && s.b.ssp.Stopped? && s.a.ssp.PendingStarted? && s.ab == [U(StartDtAct)] && s.ba == []
    ensures Can(s, Deliver(SideB, now)) && t == Next(s, Deliver(SideB, now)) && SysInv(t) && SameEnds(s, t)
    ensures t.b.ssp.Started? && t.a.ssp.PendingStarted? && t.ab == [] && t.ba == [U(StartDtCon)]
    ensures t.a == s.a && (Unused(s.b) ==> Unused(t.b))
  {
    t := Next(s, Deliver(SideB, now));
    StepKeeps(s, Deliver(SideB, now));
    TakesStart(s.b, now);
    assert [] + [U(StartDtCon)] == [U(StartDtCon)];
    hide Receive, Direction;
  }

  lemma SecondStart(s: System, now: int) returns (t: System)
    requires SysInv(s) && s.b.ssp.Started? && s.a.ssp.PendingStarted? && s.ab == [] && s.ba == [U(StartDtCon)]
    ensures Can(s, Deliver(SideA, now)) && t == Next(s, Deliver(SideA, now)) && Running(t) && SameEnds(s, t)
    ensures t.ab == [] && t.ba == [] && t.b == s.b && (Unused(s.a) ==> Unused(t.a))
  {
    t := Next(s, Deliver(SideA, now));
    StepKeeps(s, Deliver(SideA, now));
    TakesStart(s.a, now);
    hide Receive, Direction;
  }

  /** End a has asked for the start; two deliveries complete it. */
  lemma AskedCompletes(cfgA: Config, cfgB: Config, now: int, run: seq<Step>, s: System)
    returns (run': seq<Step>, t: System)
    requires Compatible(cfgA, cfgB) && SysReaches(cfgA, cfgB, now, run, s)
    requires s.b.ssp.Stopped? && s.a.ssp.PendingStarted? && s.ab == [U(StartDtAct)] && s.ba == []
    requires Unused(s.a) && Unused(s.b)
    ensures SysReaches(cfgA, cfgB, now, run', t) && Running(t) && t.ab == [] && t.ba == []
    ensures t.a.cfg == cfgA && t.b.cfg == cfgB && Unused(t.a) && Unused(t.b)
  {
    hide SysReaches, SysInv, Can, Next, Unused;
    ReachableSysInv(cfgA, cfgB, now, run, s);
    var t1 := FirstStart(s, now);
    t := SecondStart(t1, now);
    ReachesOne(cfgA, cfgB, now, run, s, Deliver(SideB, now));
    ReachesOne(cfgA, cfgB, now, run + [Deliver(SideB, now)], t1, Deliver(SideA, now));
    run' := run + [Deliver(SideB, now)] + [Deliver(SideA, now)];
  }

  lemma StartState(cfgA: Config, cfgB: Config, now: int)
    ensures var s := Start(cfgA, cfgB, now);
            Unused(s.a) && Unused(s.b)
            && (if AutoMaster(cfgA) then s.a.ssp.PendingStarted? && s.ab == [U(StartDtAct)] else s.a.ssp.Stopped? && s.ab == [])
            && (if AutoMaster(cfgB) then s.b.ssp.PendingStarted? && s.ba == [U(StartDtAct)] else s.b.ssp.Stopped? && s.ba == [])
    ensures SysReaches(cfgA, cfgB, now, [], Start(cfgA, cfgB, now))
  {
    ConnectsTo(Fresh(cfgA), now);
    ConnectsTo(Fresh(cfgB), now);
    hide Connect, Disconnect;
  }

  lemma StartFromA(cfgA: Config, cfgB: Config, now: int) returns (run: seq<Step>, s: System)
    requires Compatible(cfgA, cfgB) && !AutoMaster(cfgB)
    ensures SysReaches(cfgA, cfgB, now, run, s) && Running(s) && s.ab == [] && s.ba == []
    ensures s.a.cfg == cfgA && s.b.cfg == cfgB && Unused(s.a) && Unused(s.b)
  {
    hide SysReaches, Running, Can, Next, Unused, Start;
    var s0 := Start(cfgA, cfgB, now);
    run := [];
    StartState(cfgA, cfgB, now);
    if !AutoMaster(cfgA) {
      ReachableSysInv(cfgA, cfgB, now, [], s0);
      var s1 := RequestStart(s0, now);
      ReachesOne(cfgA, cfgB, now, [], s0, Act(SideA, OpRequest(StartDtAct), now));
      run, s0 := [] + [Act(SideA, OpRequest(StartDtAct), now)], s1;
    }
    run, s := AskedCompletes(cfgA, cfgB, now, run, s0);
  }

  /** The start procedure can complete, with nothing in flight, on any two compatible links that
      are not both masters with autostart. */
  lemma StartCompletes(cfgA: Config, cfgB: Config, now: int) returns (run: seq<Step>, s: System)
    requires Compatible(cfgA, cfgB) && !(AutoMaster(cfgA) && AutoMaster(cfgB))
    ensures SysReaches(cfgA, cfgB, now, run, s) && Running(s) && s.ab == [] && s.ba == []
    ensures s.a.cfg == cfgA && s.b.cfg == cfgB && Unused(s.a) && Unused(s.b)
  {
    if !AutoMaster(cfgB) {
      run, s := StartFromA(cfgA, cfgB, now);
    } else {
      var r, t := StartFromA(cfgB, cfgA, now);
      ReachesTurned(cfgB, cfgA, now, r, t);
      run, s := Turned(r), t.Swap();
      hide SysReaches, Direction;
    }
  }

  // ---- two masters with autostart ----

  /** Both ends wait for a confirmation, and none is on its way. */
  ghost predicate Deaf(s: System)
  {
    && SysInv(s) && AutoMaster(s.a.cfg) && AutoMaster(s.b.cfg)
    && s.a.ssp.PendingStarted? && s.b.ssp.PendingStarted?
    && U(StartDtCon) !in s.ab && U(StartDtCon) !in s.ba
  }

  lemma ActsDeaf(l: Link, op: Op, now: int)
    requires Inv(l) && l.conn && Local(l, op, now) && l.ssp.PendingStarted?
    ensures InRange(l)
    ensures var e := Apply(l, op, now); e.link.ssp.PendingStarted? && U(StartDtCon) !in e.tx
  {
    InvInRange(l);
    hide Inv;
  }

  lemma ReceivesDeaf(l: Link, f: Frame, now: int)
    requires InRange(l) && f != U(StartDtCon) && l.ssp.PendingStarted?
    ensures var e := Receive(l, f, now); e.link.ssp.PendingStarted? && U(StartDtCon) !in e.tx
  {
    var l1 := RestartT3(l, now);
    hide OkNr, Acknowledge, TakeI, ReceiveI, ReceiveS, ReceiveU;
    match f
    case U(t) => DeafToU(l1, t, now);
    case S(_, nr) => DeafToS(l1, nr, now);
    case I(ns, nr, asdu) => DeafToI(l1, ns, nr, asdu, now);
  }

  lemma DeafToU(l: Link, t: UType, now: int)
    requires t != StartDtCon && l.ssp.PendingStarted?
    ensures var e := ReceiveU(l, t, now); e.link.ssp.PendingStarted? && U(StartDtCon) !in e.tx
  {
  }

  lemma DeafToS(l: Link, nr: nat, now: int)
    requires InRange(l) && l.ssp.PendingStarted?
    ensures var e := ReceiveS(l, nr, now); e.link.ssp.PendingStarted? && U(StartDtCon) !in e.tx
  {
    hide OkNr, FirstNs;
  }

  lemma DeafToData(l: Link, ns: nat, asdu: Asdu, now: int)
    requires l.num.vapeer < l.cfg.n && l.ssp.PendingStarted?
    ensures var e := ReceiveData(l, ns, asdu, now); e.link.ssp.PendingStarted? && U(StartDtCon) !in e.tx
  {
    hide Dist;
  }

  lemma DeafToI(l: Link, ns: nat, nr: nat, asdu: Asdu, now: int)
    requires InRange(l) && l.ssp.PendingStarted?
    ensures var e := ReceiveI(l, ns, nr, asdu, now); e.link.ssp.PendingStarted? && U(StartDtCon) !in e.tx
  {
    hide OkNr, FirstNs, ReceiveData;
    DeafToData(WakeWriter(Acknowledge(l, nr)), ns, asdu, now);
  }

  lemma ActADeaf(s: System, op: Op, now: int)
    requires Deaf(s) && CanAct(s, op, now)
    ensures Deaf(ActA(s, op, now))
  {
    ActKeeps(s, op, now);
    ActsDeaf(s.a, op, now);
    hide Direction, Apply;
  }

  lemma DeliverADeaf(s: System, now: int)
    requires Deaf(s) && CanDeliver(s)
    ensures Deaf(DeliverA(s, now))
  {
    DeliverKeeps(s, now);
    ReceivesDeaf(s.a, s.ba[0], now);
    hide Direction, Receive;
  }

  lemma PendingAgain(l: Link, now: int)
    requires AutoMaster(l.cfg)
    ensures var e := Connect(Disconnect(l), now); e.link.ssp.PendingStarted? && e.tx == [U(StartDtAct)]
  {
  }

  lemma ReconnectDeaf(s: System, now: int)
    requires Inv(s.a) && Inv(s.b) && s.a.cfg.n == s.b.cfg.n && s.a.err == s.b.err == Errors(0, 0)
    requires AutoMaster(s.a.cfg) && AutoMaster(s.b.cfg)
    ensures Deaf(ReconnectAll(s, now))
  {
    ReconnectKeeps(s, now);
    PendingAgain(s.a, now);
    PendingAgain(s.b, now);
    hide Direction, Connect, Disconnect;
  }

  lemma StepDeaf(s: System, st: Step)
    requires Deaf(s) && Can(s, st)
    ensures Deaf(Next(s, st))
  {
    match st
    case Act(SideA, op, now) => ActADeaf(s, op, now);
    case Act(SideB, op, now) => ActADeaf(s.Swap(), op, now);
    case Deliver(SideA, now) => DeliverADeaf(s, now);
    case Deliver(SideB, now) => DeliverADeaf(s.Swap(), now);
    case Reconnect(now) => ReconnectDeaf(s, now);
  }

  /** Two masters that both start on their own wait for each other for ever. */
  lemma {:induction false} NeverStarted(cfgA: Config, cfgB: Config, now: int, run: seq<Step>, s: System)
    requires Compatible(cfgA, cfgB) && AutoMaster(cfgA) && AutoMaster(cfgB) && SysReaches(cfgA, cfgB, now, run, s)
    ensures Deaf(s)
  {
    hide Deaf, Can, Next;
    if run == [] {
      FreshInv(cfgA);
      FreshInv(cfgB);
      ReconnectDeaf(System(Fresh(cfgA), Fresh(cfgB), [], []), now);
    } else {
      var m := |run| - 1;
      var p :| SysReaches(cfgA, cfgB, now, run[..m], p) && Can(p, run[m]) && s == Next(p, run[m]);
      NeverStarted(cfgA, cfgB, now, run[..m], p);
      StepDeaf(p, run[m]);
    }
  }

  /** Two ends can both be started exactly if they are not both masters with autostart. */
  lemma StartsExactly(cfgA: Config, cfgB: Config, now: int)
    requires Compatible(cfgA, cfgB)
    ensures (exists run, s :: SysReaches(cfgA, cfgB, now, run, s) && s.a.ssp.Started? && s.b.ssp.Started?)
            <==> !(AutoMaster(cfgA) && AutoMaster(cfgB))
  {
    hide SysReaches;
    if AutoMaster(cfgA) && AutoMaster(cfgB) {
      forall run, s | SysReaches(cfgA, cfgB, now, run, s) ensures s.a.ssp.PendingStarted? {
        NeverStarted(cfgA, cfgB, now, run, s);
      }
    } else {
      var run, s := StartCompletes(cfgA, cfgB, now);
    }
  }
}
