/** Two links joined by two lossless FIFO channels. */
module Duplex {
  import opened Options
  import opened LinkSpec
  import opened LinkProps
  import opened LinkRuns
  import opened Channel
  import opened LinkActs

  datatype System = System(a: Link, b: Link, ab: seq<Frame>, ba: seq<Frame>) {
    function Swap(): System { System(b, a, ba, ab) }
  }

  datatype Side = SideA | SideB

  /** One end does something on its own, takes in the next frame, or the connection is lost
      (with everything in flight) and set up again. */
  datatype Step =
    | Act(side: Side, op: Op, now: int)
    | Deliver(side: Side, now: int)
    | Reconnect(now: int)

  // ---- the steps, seen from end a ----

  ghost predicate CanAct(s: System, op: Op, now: int)
  {
    InRange(s.a) && s.a.conn && Local(s.a, op, now)
  }

  function ActA(s: System, op: Op, now: int): System
    requires CanAct(s, op, now)
  {
    var e := Apply(s.a, op, now);
    System(e.link, s.b, s.ab + e.tx, s.ba)
  }

  ghost predicate CanDeliver(s: System)
  {
    InRange(s.a) && s.ba != []
  }

  function DeliverA(s: System, now: int): System
    requires CanDeliver(s)
  {
    var e := Receive(s.a, s.ba[0], now);
    System(e.link, s.b, s.ab + e.tx, s.ba[1..])
  }

  function ReconnectAll(s: System, now: int): System
  {
    var ea, eb := Connect(Disconnect(s.a), now), Connect(Disconnect(s.b), now);
    System(ea.link, eb.link, ea.tx, eb.tx)
  }

  ghost predicate Can(s: System, st: Step)
  {
    match st
    case Act(side, op, now) => CanAct(if side.SideA? then s else s.Swap(), op, now)
    case Deliver(side, now) => CanDeliver(if side.SideA? then s else s.Swap())
    case Reconnect(now) => true
  }

  function Next(s: System, st: Step): System
    requires Can(s, st)
  {
    match st
    case Act(SideA, op, now) => ActA(s, op, now)
    case Act(SideB, op, now) => ActA(s.Swap(), op, now).Swap()
    case Deliver(SideA, now) => DeliverA(s, now)
    case Deliver(SideB, now) => DeliverA(s.Swap(), now).Swap()
    case Reconnect(now) => ReconnectAll(s, now)
  }

  function Start(cfgA: Config, cfgB: Config, now: int): System
  {
    ReconnectAll(System(Fresh(cfgA), Fresh(cfgB), [], []), now)
  }

  /** `s` can be reached from the start by the steps of `run`. */
  ghost predicate SysReaches(cfgA: Config, cfgB: Config, now: int, run: seq<Step>, s: System)
  {
    if run == [] then s == Start(cfgA, cfgB, now)
    else
      var m := |run| - 1;
      exists p :: SysReaches(cfgA, cfgB, now, run[..m], p) && Can(p, run[m]) && s == Next(p, run[m])
  }

  predicate Compatible(cfgA: Config, cfgB: Config)
  {
    cfgA.Valid() && cfgB.Valid() && cfgA.n == cfgB.n
  }

  // ---- one direction ----

  /** Data from x to y on channel xy, acknowledgements from y to x on channel yx. */
  ghost predicate Direction(x: Link, y: Link, xy: seq<Frame>, yx: seq<Frame>)
  {
    && Inv(x) && Inv(y) && x.cfg.n == y.cfg.n && x.conn && y.conn
    && x.err == Errors(0, 0) && y.err == Errors(0, 0)
    && TotalSent(x) <= |x.log.accepted|
    && y.log.up <= x.log.accepted
    && Carries(xy, TotalTaken(y), TotalSent(x), x.log.accepted, x.cfg.n)
    && Reduced(yx, x.cfg.n)
    && TotalConfirmed(y) <= AckReach(yx, TotalAcked(x), x.cfg.n) <= TotalTaken(y)
  }

  function Opt(f: Option<Frame>): seq<Frame> { if f.Some? then [f.value] else [] }

  lemma TakenIsSent(x: Link, y: Link, xy: seq<Frame>, yx: seq<Frame>)
    requires Direction(x, y, xy, yx)
    ensures TotalAcked(x) <= TotalTaken(y) <= TotalSent(x) < TotalAcked(x) + x.cfg.n
  {
    CarriesForward(xy, TotalTaken(y), TotalSent(x), x.log.accepted, x.cfg.n);
  }

  /** x acts as the sender; the frame it takes in, if any, comes from y. */
  lemma SenderActs(x: Link, y: Link, xy: seq<Frame>, yx: seq<Frame>, f: Option<Frame>, x': Link, tx: seq<Frame>)
    requires Direction(x, y, xy, Opt(f) + yx) && Acts(x, f, x', tx)
    ensures Direction(x', y, xy + tx, yx)
  {
    var n := x.cfg.n;
    CarriesAppend(xy, tx, TotalTaken(y), TotalSent(x), TotalSent(x'), x.log.accepted, x'.log.accepted, n);
    if f.Some? {
      assert (Opt(f) + yx)[0] == f.value && (Opt(f) + yx)[1..] == yx;
    } else {
      assert Opt(f) + yx == yx;
    }
    assert forall g :: g in yx ==> g in Opt(f) + yx;
  }

  /** y acts as the receiver; the frame it takes in, if any, comes from x. */
  lemma ReceiverActs(x: Link, y: Link, xy: seq<Frame>, yx: seq<Frame>, f: Option<Frame>, y': Link, tx: seq<Frame>)
    requires Direction(x, y, Opt(f) + xy, yx) && Acts(y, f, y', tx)
    ensures Direction(x, y', xy, yx + tx)
  {
    var n := x.cfg.n;
    TakenIsSent(x, y, Opt(f) + xy, yx);
    if f.Some? {
      assert (Opt(f) + xy)[0] == f.value && (Opt(f) + xy)[1..] == xy;
      CarriesForward(xy, TotalTaken(y'), TotalSent(x), x.log.accepted, n);
    } else {
      assert Opt(f) + xy == xy;
    }
    AckReachAppend(yx, tx, TotalAcked(x), TotalTaken(y'), n);
  }

  /** The next frame is one the receiver expects: no rejection branch is taken. */
  lemma NextIsExpected(x: Link, y: Link, xy: seq<Frame>, yx: seq<Frame>)
    requires Direction(x, y, xy, yx) && Direction(y, x, yx, xy) && yx != []
    ensures Expected(x, yx[0])
  {
    TakenIsSent(x, y, xy, yx);
    var f := yx[0];
    assert f in yx;
    if !f.U? {
      AckQueueLength(x);
      assert NextAcked(f, TotalAcked(x), x.cfg.n) <= AckReach(yx, TotalAcked(x), x.cfg.n);
    }
  }

  // ---- both directions ----

  ghost predicate SysInv(s: System)
  {
    Direction(s.a, s.b, s.ab, s.ba) && Direction(s.b, s.a, s.ba, s.ab)
  }

  lemma SysInvLinks(s: System)
    requires SysInv(s)
    ensures Inv(s.a) && Inv(s.b) && InRange(s.a) && InRange(s.b) && s.a.conn && s.b.conn
  {
  }

  predicate SameEnds(s: System, t: System)
  {
    t.a.cfg == s.a.cfg && t.b.cfg == s.b.cfg
  }

  lemma ActKeeps(s: System, op: Op, now: int)
    requires SysInv(s) && CanAct(s, op, now)
    ensures SysInv(ActA(s, op, now)) && SameEnds(s, ActA(s, op, now))
  {
    var e := Apply(s.a, op, now);
    LocalActs(s.a, op, now);
    assert Opt(None) + s.ba == s.ba;
    SenderActs(s.a, s.b, s.ab, s.ba, None, e.link, e.tx);
    ReceiverActs(s.b, s.a, s.ba, s.ab, None, e.link, e.tx);
  }

  lemma DeliverKeeps(s: System, now: int)
    requires SysInv(s) && CanDeliver(s)
    ensures SysInv(DeliverA(s, now)) && SameEnds(s, DeliverA(s, now))
    ensures Expected(s.a, s.ba[0])
  {
    var f := s.ba[0];
    var e := Receive(s.a, f, now);
    NextIsExpected(s.a, s.b, s.ab, s.ba);
    ReceiveActs(s.a, f, now);
    assert Opt(Some(f)) + s.ba[1..] == s.ba;
    SenderActs(s.a, s.b, s.ab, s.ba[1..], Some(f), e.link, e.tx);
    ReceiverActs(s.b, s.a, s.ba[1..], s.ab, Some(f), e.link, e.tx);
  }

  lemma ConnectedFresh(l: Link, now: int)
    requires Inv(l) && l.err == Errors(0, 0)
    ensures var e := Connect(Disconnect(l), now);
            Inv(e.link) && e.link.conn && e.link.err == Errors(0, 0) && e.link.cfg == l.cfg
            && e.link.log.acked == [] && e.link.log.up == [] && e.link.ackq == []
            && forall f :: f in e.tx ==> f.U?
  {
    InvDisconnect(l);
    InvConnect(Disconnect(l), now);
    MasterSlaveFrame(Disconnect(l).(conn := true, mode := PollIn), TcpUp, now);
  }

  lemma {:induction false} OnlyU(tx: seq<Frame>, base: nat, n: nat)
    requires 0 < n && forall f :: f in tx ==> f.U?
    ensures AckReach(tx, base, n) == base
  {
    if tx != [] {
      assert tx[0] in tx;
      OnlyU(tx[1..], base, n);
    }
  }

  lemma FreshDirection(x: Link, y: Link, xy: seq<Frame>, yx: seq<Frame>)
    requires Inv(x) && Inv(y) && x.cfg.n == y.cfg.n && x.conn && y.conn
    requires x.err == y.err == Errors(0, 0)
    requires x.log.acked == [] && x.ackq == [] && y.log.up == []
    requires forall f :: f in xy + yx ==> f.U?
    ensures Direction(x, y, xy, yx)
  {
    assert forall f :: f in xy ==> f in xy + yx;
    assert forall f :: f in yx ==> f in xy + yx;
    CarriesNothing(xy, 0, x.log.accepted, x.cfg.n);
    OnlyU(yx, 0, x.cfg.n);
  }

  lemma ReconnectKeeps(s: System, now: int)
    requires Inv(s.a) && Inv(s.b) && s.a.cfg.n == s.b.cfg.n && s.a.err == s.b.err == Errors(0, 0)
    ensures SysInv(ReconnectAll(s, now)) && SameEnds(s, ReconnectAll(s, now))
  {
    ConnectedFresh(s.a, now);
    ConnectedFresh(s.b, now);
    var t := ReconnectAll(s, now);
    FreshDirection(t.a, t.b, t.ab, t.ba);
    FreshDirection(t.b, t.a, t.ba, t.ab);
  }

  lemma StepKeeps(s: System, st: Step)
    requires SysInv(s) && Can(s, st)
    ensures SysInv(Next(s, st)) && SameEnds(s, Next(s, st))
  {
    match st
    case Act(SideA, op, now) => ActKeeps(s, op, now);
    case Act(SideB, op, now) => ActKeeps(s.Swap(), op, now);
    case Deliver(SideA, now) => DeliverKeeps(s, now);
    case Deliver(SideB, now) => DeliverKeeps(s.Swap(), now);
    case Reconnect(now) => ReconnectKeeps(s, now);
  }

  /** The last step of a run. */
  lemma LastStep(cfgA: Config, cfgB: Config, now: int, run: seq<Step>, s: System) returns (p: System)
    requires SysReaches(cfgA, cfgB, now, run, s) && run != []
    ensures var m := |run| - 1; SysReaches(cfgA, cfgB, now, run[..m], p) && Can(p, run[m]) && s == Next(p, run[m])
  {
    var m := |run| - 1;
    p :| SysReaches(cfgA, cfgB, now, run[..m], p) && Can(p, run[m]) && s == Next(p, run[m]);
  }

  lemma {:induction false} ReachableSysInv(cfgA: Config, cfgB: Config, now: int, run: seq<Step>, s: System)
    requires Compatible(cfgA, cfgB) && SysReaches(cfgA, cfgB, now, run, s)
    ensures SysInv(s) && s.a.cfg == cfgA && s.b.cfg == cfgB
  {
    if run == [] {
      FreshInv(cfgA);
      FreshInv(cfgB);
      ReconnectKeeps(System(Fresh(cfgA), Fresh(cfgB), [], []), now);
    } else {
      var m := |run| - 1;
      var p :| SysReaches(cfgA, cfgB, now, run[..m], p) && Can(p, run[m]) && s == Next(p, run[m]);
      ReachableSysInv(cfgA, cfgB, now, run[..m], p);
      StepKeeps(p, run[m]);
    }
  }

  // ---- the theorems ----

  /** Reliable delivery: in every reachable state, however often the numbers have wrapped, what
      each end handed up is a prefix of what the other end accepted, neither end has refused a
      frame, and no frame in flight is going to be refused next. */
  lemma ReliableDelivery(cfgA: Config, cfgB: Config, now: int, run: seq<Step>, s: System)
    requires Compatible(cfgA, cfgB) && SysReaches(cfgA, cfgB, now, run, s)
    ensures s.b.log.up <= s.a.log.accepted && s.a.log.up <= s.b.log.accepted
    ensures s.a.err == s.b.err == Errors(0, 0)
    ensures Inv(s.a) && Inv(s.b)
    ensures s.ba != [] ==> Expected(s.a, s.ba[0])
    ensures s.ab != [] ==> Expected(s.b, s.ab[0])
  {
    ReachableSysInv(cfgA, cfgB, now, run, s);
    if s.ba != [] { NextIsExpected(s.a, s.b, s.ab, s.ba); }
    if s.ab != [] { NextIsExpected(s.b, s.a, s.ba, s.ab); }
  }

  /** With both channels empty the receiver has everything that was sent, and the sender waits
      for fewer acknowledgements than the receiver's w. */
  lemma QuietDirection(x: Link, y: Link)
    requires Direction(x, y, [], [])
    ensures y.log.up == x.log.accepted[..|x.log.accepted| - |x.outq|]
    ensures |x.ackq| < y.cfg.w
    ensures y.cfg.w <= x.cfg.k ==> x.num.vs != WindowEnd(x)
  {
    WindowClosed(x);
  }

  /** No window deadlock, even without timers: when nothing is in flight, everything sent has
      been delivered, and if w <= k a started link with data sends at least one frame. */
  lemma NoWindowDeadlock(cfgA: Config, cfgB: Config, start: int, run: seq<Step>, s: System,
                         side: Side, budget: nat, now: int)
    requires Compatible(cfgA, cfgB) && SysReaches(cfgA, cfgB, start, run, s)
    requires s.ab == [] && s.ba == [] && 0 < budget
    ensures var x, y := if side.SideA? then s.a else s.b, if side.SideA? then s.b else s.a;
            Inv(x) && |x.ackq| < y.cfg.w && y.log.up + x.outq == x.log.accepted
            && (y.cfg.w <= x.cfg.k && x.ssp.Started? && x.outq != [] ==> RunOut(x, budget, now).tx != [])
  {
    ReachableSysInv(cfgA, cfgB, start, run, s);
    var x, y := if side.SideA? then s.a else s.b, if side.SideA? then s.b else s.a;
    QuietDirection(x, y);
    WindowClosed(x);
    AckQueueLength(x);
  }
}
