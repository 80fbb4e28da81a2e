/** The start/stop procedure between a requesting master and a slave. */
module StartStop {
  import opened Options
  import opened LinkSpec
  import opened LinkProps
  import opened LinkRuns
  import opened LinkActs
  import opened Duplex

  /** What the start/stop procedure sees of a channel: data, and the start/stop frames. */
  datatype Mark = Data | Control(t: UType)

  function MarkOf(f: Frame): seq<Mark>
  {
    match f
    case I(_, _, _) => [Data]
    case S(_, _) => []
    case U(t) => if t.TestFrAct? || t.TestFrCon? then [] else [Control(t)]
  }

  function Marks(ch: seq<Frame>): seq<Mark>
  {
    if ch == [] then [] else MarkOf(ch[0]) + Marks(ch[1..])
  }

  predicate AllData(ms: seq<Mark>) { forall m :: m in ms ==> m.Data? }

  /** Data only, then one control frame. */
  predicate DataThen(ms: seq<Mark>, t: UType)
  {
    0 < |ms| && ms[|ms| - 1] == Control(t) && AllData(ms[..|ms| - 1])
  }

  lemma {:induction false} MarksAppend(ch: seq<Frame>, tx: seq<Frame>)
    ensures Marks(ch + tx) == Marks(ch) + Marks(tx)
  {
    if ch == [] {
      assert ch + tx == tx;
    } else {
      assert (ch + tx)[1..] == ch[1..] + tx;
      MarksAppend(ch[1..], tx);
    }
  }

  /** The stages of one start/stop cycle: both states and what is in flight each way. */
  datatype Stage = Idle | Starting | Confirming | Running | Stopping | Draining | Closing

  predicate At(stage: Stage, a: Ssp, b: Ssp, ab: seq<Mark>, ba: seq<Mark>)
  {
    match stage
    case Idle => a.Stopped? && b.Stopped? && ab == [] && ba == []
    case Starting => a.PendingStarted? && b.Stopped? && ab == [Control(StartDtAct)] && ba == []
    case Confirming =>
      a.PendingStarted? && b.Started? && ab == []
      && 0 < |ba| && ba[0] == Control(StartDtCon) && AllData(ba[1..])
    case Running => a.Started? && b.Started? && AllData(ab) && AllData(ba)
    case Stopping => a.PendingStopped? && b.Started? && DataThen(ab, StopDtAct) && AllData(ba)
    case Draining => a.PendingStopped? && b.PendingUnconfd? && ab == [] && AllData(ba)
    case Closing => a.PendingStopped? && b.Stopped? && ab == [] && DataThen(ba, StopDtCon)
  }

  ghost predicate InCycle(s: System)
  {
    exists stage :: At(stage, s.a.ssp, s.b.ssp, Marks(s.ab), Marks(s.ba))
  }

  /** End a is the master; end b is a slave that makes no start/stop request of its own. */
  predicate Roles(cfgA: Config, cfgB: Config)
  {
    !cfgA.slave && cfgB.slave
  }

  predicate Obeys(st: Step)
  {
    st.Act? && st.side.SideB? && st.op.OpRequest? ==> st.op.t.TestFrAct?
  }

  ghost predicate CycleInv(s: System)
  {
    SysInv(s) && InCycle(s) && Roles(s.a.cfg, s.b.cfg)
  }

  // ---- what one operation shows of itself ----

  lemma {:induction false} DataFrames(tx: seq<Frame>)
    requires forall f :: f in tx ==> f.I?
    ensures AllData(Marks(tx))
  {
    if tx != [] {
      assert tx[0] in tx;
      DataFrames(tx[1..]);
    }
  }

  lemma {:induction false} Unmarked(tx: seq<Frame>)
    requires forall f :: f in tx ==> MarkOf(f) == []
    ensures Marks(tx) == []
  {
    if tx != [] {
      assert tx[0] in tx;
      Unmarked(tx[1..]);
    }
  }

  /** The marks left by the reply of a state transition. */
  function ReplyMarks(m: Move): seq<Mark>
  {
    if m.reply.None? then [] else MarkOf(U(m.reply.value))
  }

  lemma MasterSlaveMarks(l: Link, ev: Event, now: int)
    requires l.conn
    ensures var e, m := MasterSlave(l, ev, now), Transition(l.cfg, l.ssp, ev, l.num.vs == l.num.va);
            e.link.ssp == m.next && Marks(e.tx) == ReplyMarks(m)
  {
    var m := Transition(l.cfg, l.ssp, ev, l.num.vs == l.num.va);
    if m.reply.Some? {
      assert Marks([U(m.reply.value)]) == MarkOf(U(m.reply.value)) + Marks([]);
    }
  }

  /** An operation that is not a start/stop request keeps the state and writes only data,
      and that only when started. */
  lemma LocalMarks(l: Link, op: Op, now: int)
    requires Inv(l) && l.conn && Local(l, op, now)
    ensures var e := Apply(l, op, now);
            if op.OpRequest? then
              var m := Transition(l.cfg, l.ssp, Request(op.t), l.num.vs == l.num.va);
              e.link.ssp == m.next && Marks(e.tx) == ReplyMarks(m)
            else e.link.ssp == l.ssp && AllData(Marks(e.tx)) && (l.ssp.Started? || Marks(e.tx) == [])
  {
    var e := Apply(l, op, now);
    match op
    case OpRequest(t) => MasterSlaveMarks(l, Request(t), now);
    case OpRunOut(budget) => DataFrames(e.tx);
    case OpTimer => Unmarked(e.tx);
    case _ =>
  }

  /** The event a received frame raises. */
  function EventOf(f: Frame): Event
  {
    match f
    case U(t) => Indication(t)
    case S(_, _) => IndicationS
    case I(_, _, _) => IndicationI
  }

  lemma ReceiveIMarks(l: Link, ns: nat, nr: nat, asdu: Asdu, now: int)
    requires Inv(l) && l.conn && Expected(l, I(ns, nr, asdu))
    ensures var e := ReceiveI(l, ns, nr, asdu, now);
            var m := Transition(l.cfg, l.ssp, IndicationI, e.link.num.vs == e.link.num.va);
            e.link.ssp == m.next && Marks(e.tx) == ReplyMarks(m)
  {
    var l1 := WakeWriter(Acknowledge(l, nr));
    var e := TakeI(l1, now);
    MasterSlaveMarks(e.link, IndicationI, now);
    Unmarked(e.tx);
    MarksAppend(e.tx, MasterSlave(e.link, IndicationI, now).tx);
  }

  /** Taking in an expected frame moves the state by its event, seen after the acknowledgement. */
  lemma ReceiveMarks(l: Link, f: Frame, now: int)
    requires Inv(l) && l.conn && Expected(l, f)
    ensures var e := Receive(l, f, now);
            var m := Transition(l.cfg, l.ssp, EventOf(f), e.link.num.vs == e.link.num.va);
            e.link.ssp == m.next && Marks(e.tx) == ReplyMarks(m)
            && (U(StopDtCon) in e.tx ==> m.reply == Some(StopDtCon))
  {
    var l0 := RestartT3(l, now);
    match f {
      case U(t) => MasterSlaveMarks(if t.IsAct() then l0 else StopT1(l0), Indication(t), now);
      case S(_, nr) => MasterSlaveMarks(Acknowledge(l0, nr), IndicationS, now);
      case I(ns, nr, asdu) => ReceiveIMarks(l0, ns, nr, asdu, now);
    }
    var tx := Receive(l, f, now).tx;
    if U(StopDtCon) in tx {
      MarkShows(tx, U(StopDtCon));
      assert Control(StopDtCon) in MarkOf(U(StopDtCon));
    }
  }

  lemma {:induction false} MarkShows(tx: seq<Frame>, f: Frame)
    requires f in tx
    ensures forall m :: m in MarkOf(f) ==> m in Marks(tx)
  {
    if tx[0] != f {
      MarkShows(tx[1..], f);
    }
  }

  lemma FirstMark(c: Mark, ms: seq<Mark>, t: UType)
    ensures ([c] + ms)[0] == c && ([c] + ms)[1..] == ms
    ensures AllData([c] + ms) <==> c.Data? && AllData(ms)
    ensures DataThen([c] + ms, t) <==> if ms == [] then c == Control(t) else c.Data? && DataThen(ms, t)
  {
    var all := [c] + ms;
    assert all[0] == c && all[1..] == ms;
    assert forall m :: m in all <==> m == c || m in ms;
    if ms != [] {
      var front := all[..|all| - 1];
      assert front == [c] + ms[..|ms| - 1];
      assert forall m :: m in front <==> m == c || m in ms[..|ms| - 1];
    }
  }

  lemma MoreMarks(ms: seq<Mark>, tx: seq<Mark>, t: UType)
    ensures ms + [] == ms && [] + tx == tx && AllData([])
    ensures AllData(ms + tx) <==> AllData(ms) && AllData(tx)
    ensures AllData(ms) && tx == [Control(t)] ==> DataThen(ms + tx, t)
    ensures ms != [] ==> (ms + tx)[0] == ms[0] && (ms + tx)[1..] == ms[1..] + tx
  {
    assert forall m :: m in ms + tx <==> m in ms || m in tx;
    assert (ms + tx)[..|ms|] == ms;
    assert ms != [] ==> (ms + tx)[1..] == ms[1..] + tx;
  }

  /** The master writes data if it is started, or makes a request. */
  lemma MasterActs(stage: Stage, a: Ssp, b: Ssp, ab: seq<Mark>, ba: seq<Mark>,
                   cfg: Config, t: Option<UType>, idle: bool, a': Ssp, tx: seq<Mark>) returns (next: Stage)
    requires At(stage, a, b, ab, ba)
    requires t.Some? ==> var m := Transition(cfg, a, Request(t.value), idle); a' == m.next && tx == ReplyMarks(m)
    requires t.None? ==> a' == a && AllData(tx) && (a.Started? || tx == [])
    ensures At(next, a', b, ab + tx, ba)
  {
    MoreMarks(ab, tx, StopDtAct);
    next :=
      if t == Some(StartDtAct) && stage.Idle? then Starting
      else if t == Some(StopDtAct) && stage.Running? then Stopping
      else stage;
  }

  /** The slave writes data if it is started, or a test frame. */
  lemma SlaveActs(stage: Stage, a: Ssp, b: Ssp, ab: seq<Mark>, ba: seq<Mark>, tx: seq<Mark>)
    requires At(stage, a, b, ab, ba)
    requires AllData(tx) && (b.Started? || tx == [])
    ensures At(stage, a, b, ab, ba + tx)
  {
    MoreMarks(ba, tx, StopDtCon);
    if stage.Confirming? {
      MoreMarks(ba[1..], tx, StopDtCon);
    }
  }

  lemma MasterReceives(stage: Stage, a: Ssp, b: Ssp, ab: seq<Mark>, ba: seq<Mark>,
                       cfg: Config, f: Frame, idle: bool) returns (next: Stage)
    requires At(stage, a, b, ab, MarkOf(f) + ba)
    ensures var m := Transition(cfg, a, EventOf(f), idle); At(next, m.next, b, ab + ReplyMarks(m), ba)
    ensures f.I? ==> a.Started? || a.PendingStopped?
  {
    var m := Transition(cfg, a, EventOf(f), idle);
    MoreMarks(ab, [], StopDtCon);
    hide AllData, DataThen;
    next := stage;
    if MarkOf(f) == [] {
      assert MarkOf(f) + ba == ba;
    } else {
      FirstMark(MarkOf(f)[0], ba, StopDtCon);
      assert MarkOf(f) == [MarkOf(f)[0]];
      next :=
        if f == U(StartDtCon) then Running
        else if f == U(StopDtCon) then Idle
        else stage;
    }
  }

  /** What can arrive at the slave next, and when it replies. */
  lemma SlaveExpects(stage: Stage, a: Ssp, b: Ssp, ab: seq<Mark>, ba: seq<Mark>, cfg: Config, f: Frame, idle: bool)
    requires At(stage, a, b, MarkOf(f) + ab, ba)
    ensures MarkOf(f) != [] ==> stage.Starting? || stage.Running? || stage.Stopping?
    ensures stage.Starting? && MarkOf(f) != [] ==> f == U(StartDtAct) && ab == []
    ensures stage.Running? && MarkOf(f) != [] ==> f.I? && AllData(ab)
    ensures stage.Stopping? && MarkOf(f) != [] ==> if ab == [] then f == U(StopDtAct) else f.I? && DataThen(ab, StopDtAct)
  {
    if MarkOf(f) != [] {
      FirstMark(MarkOf(f)[0], ab, StopDtAct);
      assert MarkOf(f) == [MarkOf(f)[0]];
      hide AllData, DataThen;
    }
  }

  /** The slave gets something that does not count in the cycle. */
  lemma SlaveReceivesOther(stage: Stage, a: Ssp, b: Ssp, ab: seq<Mark>, ba: seq<Mark>,
                           cfg: Config, f: Frame, idle: bool) returns (next: Stage)
    requires At(stage, a, b, ab, ba) && MarkOf(f) == []
    ensures var m := Transition(cfg, b, EventOf(f), idle);
            At(next, a, m.next, ab, ba + ReplyMarks(m)) && (m.reply == Some(StopDtCon) ==> idle)
  {
    var m := Transition(cfg, b, EventOf(f), idle);
    MoreMarks(ba, ReplyMarks(m), StopDtCon);
    hide AllData, DataThen;
    next := if m.reply == Some(StopDtCon) then Closing else stage;
  }

  /** The slave gets data or a start/stop command. */
  lemma SlaveReceivesMark(stage: Stage, a: Ssp, b: Ssp, ab: seq<Mark>, ba: seq<Mark>,
                          cfg: Config, f: Frame, idle: bool) returns (next: Stage)
    requires At(stage, a, b, MarkOf(f) + ab, ba) && MarkOf(f) != []
    ensures var m := Transition(cfg, b, EventOf(f), idle);
            At(next, a, m.next, ab, ba + ReplyMarks(m)) && (m.reply == Some(StopDtCon) ==> idle)
    ensures f.I? ==> b.Started?
  {
    hide AllData, DataThen, Transition;
    SlaveExpects(stage, a, b, ab, ba, cfg, f, idle);
    SlaveMoves(cfg, idle);
    var m := Transition(cfg, b, EventOf(f), idle);
    MoreMarks(ba, ReplyMarks(m), StopDtCon);
    assert ba == [] && f == U(StartDtAct) ==> (ba + ReplyMarks(m))[1..] == [];
    match stage
    case Starting => next := Confirming;
    case Running => next := Running;
    case Stopping => next := if f.I? then Stopping else if idle then Closing else Draining;
    case _ => next := stage;
  }

  lemma SlaveMoves(cfg: Config, idle: bool)
    ensures Transition(cfg, Ssp.Started, IndicationI, idle) == Move(Ssp.Started, None)
    ensures Transition(cfg, Ssp.Stopped, Indication(StartDtAct), idle) == Move(Ssp.Started, Some(StartDtCon))
    ensures Transition(cfg, Ssp.Started, Indication(StopDtAct), idle) ==
            if idle then Move(Ssp.Stopped, Some(StopDtCon)) else Move(PendingUnconfd, None)
  {
  }

  lemma SlaveReceives(stage: Stage, a: Ssp, b: Ssp, ab: seq<Mark>, ba: seq<Mark>,
                      cfg: Config, f: Frame, idle: bool) returns (next: Stage)
    requires At(stage, a, b, MarkOf(f) + ab, ba)
    ensures var m := Transition(cfg, b, EventOf(f), idle);
            At(next, a, m.next, ab, ba + ReplyMarks(m)) && (m.reply == Some(StopDtCon) ==> idle)
    ensures f.I? ==> b.Started?
  {
    if MarkOf(f) == [] {
      assert MarkOf(f) + ab == ab;
      next := SlaveReceivesOther(stage, a, b, ab, ba, cfg, f, idle);
    } else {
      hide At, Transition, ReplyMarks;
      next := SlaveReceivesMark(stage, a, b, ab, ba, cfg, f, idle);
    }
  }

  // ---- the cycle, on the system ----

  lemma ActAKeepsCycle(s: System, op: Op, now: int)
    requires CycleInv(s) && CanAct(s, op, now)
    ensures InCycle(ActA(s, op, now))
  {
    hide Inv, Direction, Apply, Local, Enabled, Marks, At;
    SysInvLinks(s);
    LocalEnabled(s.a, op, now);
    var e := Apply(s.a, op, now);
    var stage :| At(stage, s.a.ssp, s.b.ssp, Marks(s.ab), Marks(s.ba));
    LocalMarks(s.a, op, now);
    MarksAppend(s.ab, e.tx);
    var t := if op.OpRequest? then Some(op.t) else None;
    var next := MasterActs(stage, s.a.ssp, s.b.ssp, Marks(s.ab), Marks(s.ba),
                           s.a.cfg, t, s.a.num.vs == s.a.num.va, e.link.ssp, Marks(e.tx));
  }

  lemma ActBKeepsCycle(s: System, op: Op, now: int)
    requires CycleInv(s) && CanAct(s.Swap(), op, now) && (op.OpRequest? ==> op.t.TestFrAct?)
    ensures InCycle(ActA(s.Swap(), op, now).Swap())
  {
    hide Inv, Direction, Apply, Local, Enabled, Marks, At;
    SysInvLinks(s);
    LocalEnabled(s.b, op, now);
    var e := Apply(s.b, op, now);
    var stage :| At(stage, s.a.ssp, s.b.ssp, Marks(s.ab), Marks(s.ba));
    LocalMarks(s.b, op, now);
    MarksAppend(s.ba, e.tx);
    SlaveActs(stage, s.a.ssp, s.b.ssp, Marks(s.ab), Marks(s.ba), Marks(e.tx));
  }

  lemma DeliverAKeepsCycle(s: System, now: int)
    requires CycleInv(s) && CanDeliver(s)
    ensures InCycle(DeliverA(s, now))
    ensures s.ba[0].I? ==> s.a.ssp.Started? || s.a.ssp.PendingStopped?
  {
    var f := s.ba[0];
    var e := Receive(s.a, f, now);
    var stage :| At(stage, s.a.ssp, s.b.ssp, Marks(s.ab), Marks(s.ba));
    NextIsExpected(s.a, s.b, s.ab, s.ba);
    ReceiveMarks(s.a, f, now);
    MarksAppend(s.ab, e.tx);
    var next := MasterReceives(stage, s.a.ssp, s.b.ssp, Marks(s.ab), Marks(s.ba[1..]),
                               s.a.cfg, f, e.link.num.vs == e.link.num.va);
  }

  lemma SlaveTakesIn(stage: Stage, a: Ssp, l: Link, ab: seq<Frame>, ba: seq<Frame>, f: Frame, now: int)
    returns (next: Stage)
    requires Inv(l) && l.conn && Expected(l, f)
    requires At(stage, a, l.ssp, MarkOf(f) + Marks(ab), Marks(ba))
    ensures var e := Receive(l, f, now); At(next, a, e.link.ssp, Marks(ab), Marks(ba + e.tx))
    ensures f.I? ==> l.ssp.Started?
    ensures var e := Receive(l, f, now); U(StopDtCon) in e.tx ==> e.link.num.vs == e.link.num.va
  {
    var e := Receive(l, f, now);
    ReceiveMarks(l, f, now);
    MarksAppend(ba, e.tx);
    next := SlaveReceives(stage, a, l.ssp, Marks(ab), Marks(ba), l.cfg, f, e.link.num.vs == e.link.num.va);
  }

  lemma DeliverBKeepsCycle(s: System, now: int)
    requires CycleInv(s) && CanDeliver(s.Swap())
    ensures InCycle(DeliverA(s.Swap(), now).Swap())
    ensures s.ab[0].I? ==> s.b.ssp.Started?
    ensures var e := Receive(s.b, s.ab[0], now);
            U(StopDtCon) in e.tx ==> e.link.num.vs == e.link.num.va
  {
    var stage :| At(stage, s.a.ssp, s.b.ssp, Marks(s.ab), Marks(s.ba));
    NextIsExpected(s.b, s.a, s.ba, s.ab);
    var next := SlaveTakesIn(stage, s.a.ssp, s.b, s.ab[1..], s.ba, s.ab[0], now);
  }

  lemma ConnectMarks(l: Link, now: int)
    requires Inv(l)
    ensures var e := Connect(Disconnect(l), now);
            if !l.cfg.slave && l.cfg.autostart then e.link.ssp.PendingStarted? && Marks(e.tx) == [Control(StartDtAct)]
            else e.link.ssp.Stopped? && Marks(e.tx) == []
  {
    MasterSlaveMarks(Disconnect(l).(conn := true, mode := PollIn), TcpUp, now);
  }

  lemma ReconnectKeepsCycle(s: System, now: int)
    requires Inv(s.a) && Inv(s.b) && Roles(s.a.cfg, s.b.cfg)
    ensures InCycle(ReconnectAll(s, now))
  {
    ConnectMarks(s.a, now);
    ConnectMarks(s.b, now);
    var t := ReconnectAll(s, now);
    assert At(if s.a.cfg.autostart then Starting else Idle, t.a.ssp, t.b.ssp, Marks(t.ab), Marks(t.ba));
  }

  lemma StepKeepsCycle(s: System, st: Step)
    requires CycleInv(s) && Can(s, st) && Obeys(st)
    ensures InCycle(Next(s, st))
  {
    match st
    case Act(SideA, op, now) => ActAKeepsCycle(s, op, now);
    case Act(SideB, op, now) => ActBKeepsCycle(s, op, now);
    case Deliver(SideA, now) => DeliverAKeepsCycle(s, now);
    case Deliver(SideB, now) => DeliverBKeepsCycle(s, now);
    case Reconnect(now) => ReconnectKeepsCycle(s, now);
  }

  lemma {:induction false} ReachableCycle(cfgA: Config, cfgB: Config, start: int, run: seq<Step>, s: System)
    requires Compatible(cfgA, cfgB) && Roles(cfgA, cfgB) && SysReaches(cfgA, cfgB, start, run, s)
    requires forall st :: st in run ==> Obeys(st)
    ensures CycleInv(s)
  {
    ReachableSysInv(cfgA, cfgB, start, run, s);
    if run == [] {
      FreshInv(cfgA);
      FreshInv(cfgB);
      ReconnectKeepsCycle(System(Fresh(cfgA), Fresh(cfgB), [], []), start);
    } else {
      var m := |run| - 1;
      var p :| SysReaches(cfgA, cfgB, start, run[..m], p) && Can(p, run[m]) && s == Next(p, run[m]);
      ReachableCycle(cfgA, cfgB, start, run[..m], p);
      StepKeepsCycle(p, run[m]);
    }
  }

  /** The joint start/stop invariant: the two states and everything in flight are always at one
      stage of the cycle; an end takes in data only while it is started or, as the master, waits
      for the stop to be confirmed; and the slave confirms a stop only when everything it sent
      has been acknowledged. */
  lemma JointStartStop(cfgA: Config, cfgB: Config, start: int, run: seq<Step>, s: System, now: int)
    requires Compatible(cfgA, cfgB) && Roles(cfgA, cfgB) && SysReaches(cfgA, cfgB, start, run, s)
    requires forall st :: st in run ==> Obeys(st)
    ensures InCycle(s) && Inv(s.b)
    ensures s.ba != [] && s.ba[0].I? ==> s.a.ssp.Started? || s.a.ssp.PendingStopped?
    ensures s.ab != [] && s.ab[0].I? ==> s.b.ssp.Started?
    ensures s.ab != [] ==> var e := Receive(s.b, s.ab[0], now);
            U(StopDtCon) in e.tx ==> e.link.num.vs == e.link.num.va && e.link.ackq == []
  {
    ReachableCycle(cfgA, cfgB, start, run, s);
    if s.ba != [] {
      DeliverAKeepsCycle(s, now);
    }
    if s.ab != [] {
      DeliverBKeepsCycle(s, now);
      DeliverKeeps(s.Swap(), now);
      AckQueueLength(Receive(s.b, s.ab[0], now).link);
    }
  }
}
