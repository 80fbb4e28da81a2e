/** The stop procedure completes: a slave with unacknowledged data puts its confirmation off, and
    sends it once the T2 timer of the master has had everything acknowledged. */
module Stopping {
  import opened SeqNum
  import opened LinkSpec
  import opened LinkProps
  import opened LinkRuns
  import opened LinkActs
  import opened Duplex
  import opened StartStop
  import opened Progress

  /** A slave that puts its confirmation off still waits for acknowledgements. */
  ghost predicate Waits(s: System)
  {
    CycleInv(s) && (s.b.ssp.PendingUnconfd? ==> s.b.ackq != [])
  }

  lemma WaitsLinks(s: System)
    requires Waits(s)
    ensures CycleInv(s) && SysInv(s) && Inv(s.a) && Inv(s.b) && InRange(s.a) && InRange(s.b) && s.a.conn && s.b.conn
  {
  }

  lemma ActBWaits(l: Link, op: Op, now: int)
    requires Inv(l) && InRange(l) && l.conn && Local(l, op, now) && Enabled(l, op) && (op.OpRequest? ==> op.t.TestFrAct?)
    requires l.ssp.PendingUnconfd? ==> l.ackq != []
    ensures var r := Apply(l, op, now).link; r.ssp.PendingUnconfd? ==> r.ackq != []
  {
    hide Inv, Numbered, IFrames;
  }

  lemma ReceiveBWaits(l: Link, f: Frame, now: int)
    requires Inv(l) && l.conn && Expected(l, f) && (f.I? ==> l.ssp.Started?)
    requires l.ssp.PendingUnconfd? ==> l.ackq != []
    ensures var r := Receive(l, f, now).link; r.ssp.PendingUnconfd? ==> r.ackq != []
  {
    hide Inv, Expected, Receive;
    ReceiveMarks(l, f, now);
    ReceiveActs(l, f, now);
    StillWaits(l, f, now);
  }

  lemma StillWaits(l: Link, f: Frame, now: int)
    requires Inv(l) && l.conn && Expected(l, f) && Inv(Receive(l, f, now).link)
    requires l.ssp.PendingUnconfd? ==> l.ackq != []
    requires f.I? ==> l.ssp.Started?
    requires var r := Receive(l, f, now).link;
             r.ssp == Transition(l.cfg, l.ssp, EventOf(f), r.num.vs == r.num.va).next
    ensures var r := Receive(l, f, now).link; r.ssp.PendingUnconfd? ==> r.ackq != []
  {
    var r := Receive(l, f, now).link;
    AckQueueLength(r);
    if f.U? { ReceiveUKeepsQueue(l, f.t, now); }
    hide Inv, Expected, Receive;
  }

  lemma ReceiveUKeepsQueue(l: Link, t: UType, now: int)
    requires InRange(l)
    ensures Receive(l, U(t), now).link.ackq == l.ackq
  {
  }

  lemma ActWaits(s: System, op: Op, now: int)
    requires Waits(s) && CanAct(s, op, now)
    ensures Waits(ActA(s, op, now))
  {
    hide Direction, Inv, InCycle, Apply, Local;
    WaitsLinks(s);
    StepKeeps(s, Act(SideA, op, now));
    StepKeepsCycle(s, Act(SideA, op, now));
  }

  lemma ActOtherWaits(s: System, op: Op, now: int)
    requires Waits(s) && CanAct(s.Swap(), op, now) && (op.OpRequest? ==> op.t.TestFrAct?)
    ensures Waits(ActA(s.Swap(), op, now).Swap())
  {
    hide Direction, Inv, InCycle, Apply, Local, Enabled;
    WaitsLinks(s);
    LocalEnabled(s.b, op, now);
    StepKeeps(s, Act(SideB, op, now));
    StepKeepsCycle(s, Act(SideB, op, now));
    ActBWaits(s.b, op, now);
  }

  lemma DeliverWaits(s: System, now: int)
    requires Waits(s) && CanDeliver(s)
    ensures Waits(DeliverA(s, now))
  {
    hide Direction, Inv, InCycle, Receive;
    WaitsLinks(s);
    StepKeeps(s, Deliver(SideA, now));
    StepKeepsCycle(s, Deliver(SideA, now));
  }

  lemma DeliverOtherWaits(s: System, now: int)
    requires Waits(s) && CanDeliver(s.Swap())
    ensures Waits(DeliverA(s.Swap(), now).Swap())
  {
    hide Direction, Inv, InCycle, Receive, Expected;
    WaitsLinks(s);
    StepKeeps(s, Deliver(SideB, now));
    StepKeepsCycle(s, Deliver(SideB, now));
    DeliverBKeepsCycle(s, now);
    NextIsExpected(s.b, s.a, s.ba, s.ab);
    ReceiveBWaits(s.b, s.ab[0], now);
  }

  lemma ReconnectWaits(s: System, now: int)
    requires CycleInv(s) || (Inv(s.a) && Inv(s.b) && s.a.cfg.n == s.b.cfg.n && s.a.err == s.b.err == Errors(0, 0) && Roles(s.a.cfg, s.b.cfg))
    ensures Waits(ReconnectAll(s, now))
  {
    ReconnectKeeps(s, now);
    ReconnectKeepsCycle(s, now);
    ConnectMarks(s.b, now);
    hide Direction, Inv, InCycle, Connect, Disconnect;
  }

  lemma StepWaits(s: System, st: Step)
    requires Waits(s) && Can(s, st) && Obeys(st)
    ensures Waits(Next(s, st))
  {
    hide Waits;
    match st
    case Act(SideA, op, now) => ActWaits(s, op, now);
    case Act(SideB, op, now) => ActOtherWaits(s, op, now);
    case Deliver(SideA, now) => DeliverWaits(s, now);
    case Deliver(SideB, now) => DeliverOtherWaits(s, now);
    case Reconnect(now) => WaitsReconnect(s, now);
  }

  lemma WaitsReconnect(s: System, now: int)
    requires Waits(s)
    ensures Waits(ReconnectAll(s, now))
  {
    ReconnectWaits(s, now);
  }

  /** In every reachable state a slave that puts its confirmation off has unacknowledged data. */
  lemma {:induction false} DeferredWithReason(cfgA: Config, cfgB: Config, start: int, run: seq<Step>, s: System)
    requires Compatible(cfgA, cfgB) && Roles(cfgA, cfgB) && SysReaches(cfgA, cfgB, start, run, s)
    requires forall st :: st in run ==> Obeys(st)
    ensures s.b.ssp.PendingUnconfd? ==> s.b.ackq != []
    ensures Waits(s) && s.a.cfg == cfgA && s.b.cfg == cfgB
  {
    ReachableSysInv(cfgA, cfgB, start, run, s);
    if run == [] {
      FreshInv(cfgA);
      FreshInv(cfgB);
      ReconnectWaits(System(Fresh(cfgA), Fresh(cfgB), [], []), start);
    } else {
      var m := |run| - 1;
      var p :| SysReaches(cfgA, cfgB, start, run[..m], p) && Can(p, run[m]) && s == Next(p, run[m]);
      DeferredWithReason(cfgA, cfgB, start, run[..m], p);
      StepWaits(p, run[m]);
    }
  }

  // ---- with a clock ----

  /** Positive times that never go back, from `start` to `last`. */
  predicate Timely(start: int, run: seq<Step>, last: int)
  {
    0 < start <= last
    && (forall i :: 0 <= i < |run| ==> start <= run[i].now <= last)
    && (forall i, k :: 0 <= i <= k < |run| ==> run[i].now <= run[k].now)
  }

  /** The T2 timer of end a runs whenever it has data to confirm. */
  ghost predicate Armed(s: System, last: int)
  {
    Waits(s) && ArmedLink(s.a, last)
  }

  ghost predicate ArmedLink(l: Link, last: int)
  {
    Inv(l) && T2Armed(l, last)
  }

  lemma ArmedLater(l: Link, last: int, now: int)
    requires ArmedLink(l, last) && last <= now
    ensures ArmedLink(l, now)
  {
    ArmedSame(l, l, last, now);
  }

  lemma ApplyArmedLink(l: Link, op: Op, last: int, now: int)
    requires ArmedLink(l, last) && Enabled(l, op) && last <= now && 0 < now
    ensures InRange(l) && ArmedLink(Apply(l, op, now).link, now)
  {
    InvInRange(l);
    ApplyArmed(l, op, last, now);
  }

  lemma ReceiveArmedLink(l: Link, f: Frame, last: int, now: int)
    requires ArmedLink(l, last) && l.conn && Expected(l, f) && last <= now && 0 < now
    ensures ArmedLink(Receive(l, f, now).link, now)
  {
    ReceiveArmed(l, f, last, now);
  }

  lemma ReconnectArmedLink(l: Link, now: int)
    requires Inv(l) && 0 < now
    ensures ArmedLink(Connect(Disconnect(l), now).link, now)
  {
    DisconnectArmed(l, now);
    ConnectArmed(Disconnect(l), now, now);
  }

  lemma StepArmed(s: System, st: Step, last: int)
    requires Armed(s, last) && Can(s, st) && Obeys(st) && last <= st.now && 0 < st.now
    ensures Armed(Next(s, st), st.now)
  {
    hide Waits, ArmedLink, Apply, Receive, Connect, Disconnect, Expected, Local, Enabled;
    WaitsLinks(s);
    StepWaits(s, st);
    ArmedLater(s.a, last, st.now);
    match st
    case Act(SideA, op, now) =>
      LocalEnabled(s.a, op, now);
      ApplyArmedLink(s.a, op, last, now);
    case Deliver(SideA, now) =>
      NextIsExpected(s.a, s.b, s.ab, s.ba);
      ReceiveArmedLink(s.a, s.ba[0], last, now);
    case Reconnect(now) => ReconnectArmedLink(s.a, now);
    case _ =>
  }

  lemma {:induction false} TimelyArmed(cfgA: Config, cfgB: Config, start: int, run: seq<Step>, s: System, last: int)
    requires Compatible(cfgA, cfgB) && Roles(cfgA, cfgB) && SysReaches(cfgA, cfgB, start, run, s)
    requires (forall st :: st in run ==> Obeys(st)) && Timely(start, run, last)
    ensures Armed(s, last) && s.a.cfg == cfgA && s.b.cfg == cfgB
  {
    hide Waits, ArmedLink, Can, Next, SysReaches, Start;
    DeferredWithReason(cfgA, cfgB, start, run, s);
    if run == [] {
      StartArmed(cfgA, cfgB, start, s);
      ArmedLater(s.a, start, last);
    } else {
      var m := |run| - 1;
      var p := LastStep(cfgA, cfgB, start, run, s);
      var before := if m == 0 then start else run[m - 1].now;
      assert run[m] in run;
      TimelyArmed(cfgA, cfgB, start, run[..m], p, before);
      StepArmed(p, run[m], before);
      ArmedLater(s.a, run[m].now, last);
    }
  }

  lemma StartArmed(cfgA: Config, cfgB: Config, start: int, s: System)
    requires Compatible(cfgA, cfgB) && SysReaches(cfgA, cfgB, start, [], s) && 0 < start
    ensures ArmedLink(s.a, start)
  {
    FreshInv(cfgA);
    ReconnectArmedLink(Fresh(cfgA), start);
    hide ArmedLink, Connect, Disconnect;
  }

  // ---- taking in what is in flight ----

  /** What a frame can still set off in all. */
  function Burden(f: Frame): nat
  {
    if f.I? then 4 else if f.S? || f.t.IsAct() then 2 else 1
  }

  function Burdens(ch: seq<Frame>): nat
  {
    if ch == [] then 0 else Burden(ch[0]) + Burdens(ch[1..])
  }

  lemma {:induction false} BurdensConcat(a: seq<Frame>, b: seq<Frame>)
    ensures Burdens(a + b) == Burdens(a) + Burdens(b)
  {
    if a == [] {
      assert a + b == b;
    } else {
      assert (a + b)[1..] == a[1..] + b;
      BurdensConcat(a[1..], b);
    }
  }

  lemma OneBurden(f: Frame)
    ensures Burdens([f]) == Burden(f) && Burdens([]) == 0
  {
  }

  /** Every frame sets off less than it is itself. */
  lemma SetsOffLess(l: Link, f: Frame, now: int)
    requires Inv(l) && l.conn && Expected(l, f)
    ensures Burdens(Receive(l, f, now).tx) < Burden(f)
  {
    var l0 := RestartT3(l, now);
    InvSame(l, l0);
    assert Expected(l0, f);
    hide Inv, Expected, Burdens, ReceiveU, ReceiveS, ReceiveI;
    match f
    case U(t) => SetsOffU(l0, t, now);
    case S(ext, nr) => SetsOffS(l0, ext, nr, now);
    case I(ns, nr, asdu) => SetsOffI(l0, ns, nr, asdu, now);
  }

  lemma SetsOffU(l: Link, t: UType, now: int)
    requires l.conn
    ensures Burdens(ReceiveU(l, t, now).tx) < Burden(U(t))
  {
    hide Burdens;
    OneBurden(U(TestFrCon));
    OneBurden(U(StartDtCon));
    OneBurden(U(StopDtCon));
  }

  lemma SetsOffS(l: Link, ext: Byte, nr: nat, now: int)
    requires Inv(l) && l.conn && Expected(l, S(ext, nr))
    ensures Burdens(ReceiveS(l, nr, now).tx) < 2
  {
    hide Burdens, OkNr, FirstNs;
    OneBurden(U(StopDtCon));
  }

  lemma SetsOffI(l: Link, ns: nat, nr: nat, asdu: Asdu, now: int)
    requires Inv(l) && l.conn && Expected(l, I(ns, nr, asdu))
    ensures Burdens(ReceiveI(l, ns, nr, asdu, now).tx) < 4
  {
    hide Burdens, OkNr, FirstNs, Dist;
    var e := TakeI(WakeWriter(Acknowledge(l, nr)), now);
    var e2 := MasterSlave(e.link, IndicationI, now);
    OneBurden(U(StopDtCon));
    OneBurden(S(0, e.link.num.vr));
    assert e.tx == [] || e.tx == [S(0, e.link.num.vr)];
    assert e2.tx == [] || e2.tx == [U(StopDtCon)];
    BurdensConcat(e.tx, e2.tx);
  }

  /** The master has asked for the stop, or has it confirmed. */
  predicate Halting(s: System) { s.a.ssp.PendingStopped? || s.a.ssp.Stopped? }

  lemma HaltingDeliver(s: System, now: int)
    requires CycleInv(s) && Halting(s) && CanDeliver(s)
    ensures Halting(DeliverA(s, now))
  {
    hide Direction, Inv, Receive, Expected;
    SysInvLinks(s);
    var stage :| At(stage, s.a.ssp, s.b.ssp, Marks(s.ab), Marks(s.ba));
    NextIsExpected(s.a, s.b, s.ab, s.ba);
    ReceiveMarks(s.a, s.ba[0], now);
    assert Marks(s.ba) == MarkOf(s.ba[0]) + Marks(s.ba[1..]);
  }

  /** What receiving does to the timers of an end. */
  lemma ReceiveTimers(l: Link, f: Frame, now: int)
    requires InRange(l) && l.conn && Expected(l, f)
    ensures var t := Receive(l, f, now).link.tm;
            (t.uSndAt == 0 || t.uSndAt == l.tm.uSndAt)
            && (t.iRcvAt == l.tm.iRcvAt || (l.tm.iRcvAt == 0 && t.iRcvAt == now))
  {
    hide OkNr, FirstNs, Dist;
  }

  /** The timers of end a after deliveries at the time `now`. */
  predicate TimersAfter(t: Timers, u: Timers, now: int)
  {
    (u.uSndAt == 0 || u.uSndAt == t.uSndAt) && (u.iRcvAt == t.iRcvAt || (t.iRcvAt == 0 && u.iRcvAt == now))
  }

  lemma DeliverStops(s: System, st: Step, now: int)
    requires Armed(s, now) && Halting(s) && 0 < now && st == Deliver(if s.ba != [] then SideA else SideB, now)
    requires s.ba != [] || s.ab != []
    ensures Can(s, st)
    ensures var t := Next(s, st);
            Armed(t, now) && Halting(t) && SameEnds(s, t) && TimersAfter(s.a.tm, t.a.tm, now)
            && Burdens(t.ab) + Burdens(t.ba) < Burdens(s.ab) + Burdens(s.ba)
  {
    hide Waits, ArmedLink, Receive, Expected, Halting, Burden;
    WaitsLinks(s);
    StepArmed(s, st, now);
    StepKeeps(s, st);
    if s.ba != [] {
      HaltingDeliver(s, now);
      NextIsExpected(s.a, s.b, s.ab, s.ba);
      ReceiveTimers(s.a, s.ba[0], now);
      SetsOffLess(s.a, s.ba[0], now);
      BurdensConcat(s.ab, Receive(s.a, s.ba[0], now).tx);
    } else {
      HaltingSame(s, Next(s, st));
      NextIsExpected(s.b, s.a, s.ba, s.ab);
      SetsOffLess(s.b, s.ab[0], now);
      BurdensConcat(s.ba, Receive(s.b, s.ab[0], now).tx);
    }
  }

  lemma HaltingSame(s: System, t: System)
    requires Halting(s) && t.a == s.a
    ensures Halting(t)
  {
  }

  /** Deliveries only, all at one time. */
  predicate Deliveries(run: seq<Step>, now: int)
  {
    forall i :: 0 <= i < |run| ==> run[i].Deliver? && run[i].now == now
  }

  lemma {:induction false} FlushStopping(s: System, now: int) returns (run: seq<Step>, t: System)
    requires Armed(s, now) && Halting(s) && 0 < now
    ensures Follows(s, run, t) && Deliveries(run, now)
    ensures Armed(t, now) && Halting(t) && t.ab == [] && t.ba == [] && SameEnds(s, t) && TimersAfter(s.a.tm, t.a.tm, now)
    decreases Burdens(s.ab) + Burdens(s.ba)
  {
    hide Armed, Halting, Follows, Can, Next, Burdens;
    if s.ba == [] && s.ab == [] {
      FollowsNone(s);
      return [], s;
    }
    var st := Deliver(if s.ba != [] then SideA else SideB, now);
    DeliverStops(s, st, now);
    run, t := FlushStopping(Next(s, st), now);
    FollowsCons(s, st, run, t);
    run := [st] + run;
  }

  lemma FollowsNone(s: System)
    ensures Follows(s, [], s)
  {
  }

  // ---- the stop ----

  ghost predicate BothStopped(s: System) { s.a.ssp.Stopped? && s.b.ssp.Stopped? && s.ab == [] && s.ba == [] }

  /** With nothing in flight the stop is either complete or waits for acknowledgements. */
  lemma QuietStages(s: System)
    requires CycleInv(s) && Halting(s) && s.ab == [] && s.ba == []
    ensures BothStopped(s) || (s.a.ssp.PendingStopped? && s.b.ssp.PendingUnconfd?)
  {
    var stage :| At(stage, s.a.ssp, s.b.ssp, Marks(s.ab), Marks(s.ba));
    hide SysInv;
  }

  /** While the slave waits, the master has data that it has not confirmed. */
  lemma QuietUnconfirmed(s: System)
    requires Waits(s) && s.ab == [] && s.ba == [] && s.b.ssp.PendingUnconfd?
    ensures Inv(s.a) && 0 < Unconfirmed(s.a)
  {
    TakenIsSent(s.b, s.a, s.ba, s.ab);
  }

  lemma QuietArmed(s: System, last: int)
    requires Armed(s, last) && s.ab == [] && s.ba == [] && s.b.ssp.PendingUnconfd?
    ensures 0 < s.a.tm.iRcvAt <= last
  {
    QuietUnconfirmed(s);
    hide Inv, Unconfirmed, CycleInv;
    var l := s.a;
    assert T2Armed(l, last);
    ArmedRuns(l, last);
  }

  lemma ArmedRuns(l: Link, last: int)
    requires ArmedLink(l, last) && 0 < Unconfirmed(l)
    ensures 0 < l.tm.iRcvAt <= last
  {
    assert l.log.upAt[|l.log.up| - 1] <= last;
  }

  /** A tick of the master confirms its data. */
  lemma ConfirmingTick(l: Link, now: int)
    requires Inv(l) && l.conn && l.tm.iRcvAt != 0 && Abs(now - l.tm.iRcvAt) > l.cfg.t2
    requires l.tm.uSndAt == 0 || Abs(now - l.tm.uSndAt) <= l.cfg.t1
    ensures var e := Timer(l, now);
            e.link.conn && e.tx == [S(0, l.num.vr)] && e.link.ssp == l.ssp && Inv(e.link) && Unconfirmed(e.link) == 0
  {
    InvSame(l, StopT2(l));
    InvSendS(StopT2(l));
    DistExact(TotalTaken(l), TotalTaken(l), l.cfg.n);
  }

  lemma TickStep(s: System, last: int, now: int)
    requires Armed(s, last) && s.ab == [] && s.ba == [] && s.a.ssp.PendingStopped? && s.b.ssp.PendingUnconfd?
    requires Abs(now - s.a.tm.iRcvAt) > s.a.cfg.t2 && (s.a.tm.uSndAt == 0 || Abs(now - s.a.tm.uSndAt) <= s.a.cfg.t1)
    ensures var st := Act(SideA, OpTimer, now);
            Can(s, st)
            && var t := Next(s, st);
            Waits(t) && t.b == s.b && t.ab == [S(0, s.a.num.vr)] && t.ba == [] && t.a.ssp.PendingStopped?
            && Inv(t.a) && Unconfirmed(t.a) == 0
  {
    hide Waits, ArmedLink, Inv, Timer, Unconfirmed;
    WaitsLinks(s);
    QuietArmed(s, last);
    ConfirmingTick(s.a, now);
    StepWaits(s, Act(SideA, OpTimer, now));
    assert [] + [S(0, s.a.num.vr)] == [S(0, s.a.num.vr)];
  }

  /** The acknowledgement of everything makes the slave confirm the stop. */
  lemma SlaveConfirms(s: System, now: int)
    requires Waits(s) && s.b.ssp.PendingUnconfd? && s.a.ssp.PendingStopped? && s.ba == []
    requires |s.ab| == 1 && s.ab[0].S? && Inv(s.a) && Unconfirmed(s.a) == 0
    ensures Can(s, Deliver(SideB, now))
    ensures var t := Next(s, Deliver(SideB, now));
            Waits(t) && t.a == s.a && t.b.ssp.Stopped? && t.ab == [] && t.ba == [U(StopDtCon)]
  {
    hide Inv, Direction, Unconfirmed, Receive, Expected, InCycle;
    WaitsLinks(s);
    StepWaits(s, Deliver(SideB, now));
    var t := Next(s, Deliver(SideB, now));
    NextIsExpected(s.b, s.a, s.ba, s.ab);
    ReplyToS(s.b, s.ab[0].ext, s.ab[0].nr, now);
    if t.b.ssp.PendingUnconfd? {
      assert t.ba == [] + [];
      QuietUnconfirmed(t);
    }
    assert [] + [U(StopDtCon)] == [U(StopDtCon)];
  }

  lemma ReplyToS(l: Link, ext: Byte, nr: nat, now: int)
    requires InRange(l) && l.conn && l.ssp.PendingUnconfd? && Expected(l, S(ext, nr))
    ensures var e := Receive(l, S(ext, nr), now);
            (e.link.ssp.Stopped? && e.tx == [U(StopDtCon)]) || (e.link.ssp.PendingUnconfd? && e.tx == [])
  {
    hide OkNr, FirstNs;
  }

  lemma MasterTakesStop(s: System, now: int)
    requires Waits(s) && s.a.ssp.PendingStopped? && s.b.ssp.Stopped? && s.ab == [] && s.ba == [U(StopDtCon)]
    ensures Can(s, Deliver(SideA, now))
    ensures BothStopped(Next(s, Deliver(SideA, now)))
  {
    hide Inv, Direction, InCycle;
    WaitsLinks(s);
  }

  /** The tick and the two deliveries that end the stop. */
  function LastSteps(now: int): seq<Step> { [Act(SideA, OpTimer, now), Deliver(SideB, now), Deliver(SideA, now)] }

  lemma EndStop(s: System, last: int, now: int) returns (t: System)
    requires Armed(s, last) && s.ab == [] && s.ba == [] && s.a.ssp.PendingStopped? && s.b.ssp.PendingUnconfd?
    requires Abs(now - s.a.tm.iRcvAt) > s.a.cfg.t2 && (s.a.tm.uSndAt == 0 || Abs(now - s.a.tm.uSndAt) <= s.a.cfg.t1)
    ensures Follows(s, LastSteps(now), t) && BothStopped(t)
  {
    hide Armed, Waits, Inv, Unconfirmed, Can, Next, Follows;
    TickStep(s, last, now);
    var s1 := Next(s, Act(SideA, OpTimer, now));
    SlaveConfirms(s1, now);
    var s2 := Next(s1, Deliver(SideB, now));
    MasterTakesStop(s2, now);
    t := Next(s2, Deliver(SideA, now));
    FollowsOne(s2, Deliver(SideA, now));
    FollowsCons(s1, Deliver(SideB, now), [Deliver(SideA, now)], t);
    FollowsCons(s, Act(SideA, OpTimer, now), [Deliver(SideB, now)] + [Deliver(SideA, now)], t);
    assert [Act(SideA, OpTimer, now)] + ([Deliver(SideB, now)] + [Deliver(SideA, now)]) == LastSteps(now);
  }

  /** Deliveries at `last`, and the last steps at `now` or none. */
  predicate StopSteps(run: seq<Step>, last: int, now: int)
  {
    exists k :: 0 <= k <= |run| && Deliveries(run[..k], last) && (run[k..] == [] || run[k..] == LastSteps(now))
  }

  /** Takes in everything at the time `last`, and ticks at `now` if that is still needed. */
  lemma Stop(s: System, last: int, now: int) returns (run: seq<Step>, t: System)
    requires Armed(s, last) && 0 < last && s.a.ssp.PendingStopped?
    requires forall u :: TimersAfter(s.a.tm, u, last) && u.iRcvAt != 0 ==>
               Abs(now - u.iRcvAt) > s.a.cfg.t2 && (u.uSndAt == 0 || Abs(now - u.uSndAt) <= s.a.cfg.t1)
    ensures Follows(s, run, t) && BothStopped(t)
    ensures StopSteps(run, last, now)
  {
    hide Waits, ArmedLink, Follows, Can, Next, Deliveries, LastSteps;
    var r1, s1 := FlushStopping(s, last);
    ArmedParts(s1, last);
    QuietStages(s1);
    if s1.b.ssp.PendingUnconfd? && s1.a.ssp.PendingStopped? {
      QuietArmed(s1, last);
      var t2 := EndStop(s1, last, now);
      FollowsConcat(s, r1, s1, LastSteps(now), t2);
      run, t := r1 + LastSteps(now), t2;
      assert run[..|r1|] == r1 && run[|r1|..] == LastSteps(now);
    } else {
      run, t := r1, s1;
      assert run[..|run|] == r1 && run[|run|..] == [];
    }
  }

  lemma ArmedParts(s: System, last: int)
    requires Armed(s, last)
    ensures CycleInv(s)
  {
  }

  /** When a tick of end a confirms its data, if deliveries at `last` come first. */
  function ConfirmAt(l: Link, last: int): int
  {
    var due := (if l.tm.iRcvAt != 0 then l.tm.iRcvAt else last) + l.cfg.t2 + 1;
    if last < due then due else last
  }

  /** The request has not been waiting for so long that T1 would end the connection by then. */
  predicate TimeLeft(l: Link, last: int)
  {
    l.tm.uSndAt == 0 || Abs(ConfirmAt(l, last) - l.tm.uSndAt) <= l.cfg.t1
  }

  /** The stop completes: as long as T1 leaves time for it, deliveries now and at most one tick of
      the master at the time its data is due for confirmation, with the clock going forward, leave
      both ends stopped and nothing in flight. */
  lemma StopCompletesInTime(cfgA: Config, cfgB: Config, start: int, run: seq<Step>, s: System, last: int)
    returns (more: seq<Step>, t: System)
    requires Compatible(cfgA, cfgB) && Roles(cfgA, cfgB) && SysReaches(cfgA, cfgB, start, run, s)
    requires (forall st :: st in run ==> Obeys(st)) && Timely(start, run, last)
    requires s.a.ssp.PendingStopped? && TimeLeft(s.a, last)
    ensures SysReaches(cfgA, cfgB, start, run + more, t) && BothStopped(t)
    ensures StopSteps(more, last, ConfirmAt(s.a, last)) && last <= ConfirmAt(s.a, last)
  {
    hide SysReaches, Waits, ArmedLink, Follows, StopSteps;
    TimelyArmed(cfgA, cfgB, start, run, s, last);
    more, t := Stop(s, last, ConfirmAt(s.a, last));
    ReachesOn(cfgA, cfgB, start, run, s, more, t);
  }

  /** If t2 < t1, there is always a time for the tick, before T1 ends the connection; it may have
      passed already if frames were not taken in for long. */
  lemma StopCompletes(cfgA: Config, cfgB: Config, start: int, run: seq<Step>, s: System, last: int)
    returns (more: seq<Step>, t: System)
    requires Compatible(cfgA, cfgB) && Roles(cfgA, cfgB) && SysReaches(cfgA, cfgB, start, run, s)
    requires (forall st :: st in run ==> Obeys(st)) && Timely(start, run, last)
    requires s.a.ssp.PendingStopped? && cfgA.t2 < cfgA.t1
    ensures SysReaches(cfgA, cfgB, start, run + more, t) && BothStopped(t)
    ensures exists now :: StopSteps(more, last, now)
  {
    hide SysReaches, Waits, ArmedLink, Follows, StopSteps;
    TimelyArmed(cfgA, cfgB, start, run, s, last);
    var x := if s.a.tm.iRcvAt != 0 then s.a.tm.iRcvAt else last;
    var u, t1, t2 := s.a.tm.uSndAt, cfgA.t1, cfgA.t2;
    var now := if u == 0 then x + t2 + 1 else if Abs(u + t1 - x) > t2 then u + t1 else u - t1;
    more, t := Stop(s, last, now);
    ReachesOn(cfgA, cfgB, start, run, s, more, t);
  }

  /** If t2 < t1 and no other frame waits for its confirmation, a stop requested now has time left. */
  lemma RequestHasTime(l: Link, last: int)
    requires Inv(l) && T2Armed(l, last) && 0 < last && l.conn && l.ssp.Started? && l.tm.uSndAt == 0 && l.cfg.t2 < l.cfg.t1
    ensures var e := MasterSlave(l, Request(StopDtAct), last);
            e.link.ssp.PendingStopped? && e.tx == [U(StopDtAct)] && TimeLeft(e.link, last)
  {
    hide Inv;
  }
}
