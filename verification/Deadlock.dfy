/** Why w <= k matters: without timers, a sender with a window smaller than the w of its peer can
    get stuck. */
module Deadlock {
  import opened SeqNum
  import opened LinkSpec
  import opened LinkProps
  import opened LinkRuns
  import opened LinkActs
  import opened Duplex
  import opened Progress
  import opened Starting

  /** Nothing is in flight, and end a has data that it cannot send. */
  ghost predicate Stuck(s: System)
  {
    && InRange(s.a) && s.ab == [] && s.ba == [] && s.a.conn && s.a.ssp.Started? && s.a.outq != []
    && forall budget, now :: RunOut(s.a, budget, now).tx == []
  }

  // ---- data that is not acknowledged ----

  /** End b has confirmed nothing yet; only data is on its way to it. */
  ghost predicate Unanswered(s: System)
  {
    && Running(s) && s.ba == [] && (forall f :: f in s.ab ==> f.I?)
    && Inv(s.b) && Unconfirmed(s.b) == TotalTaken(s.b)
  }

  lemma TakesQuietly(l: Link, ns: nat, nr: nat, asdu: Asdu, now: int)
    requires Inv(l) && l.conn && l.ssp.Started? && Expected(l, I(ns, nr, asdu))
    requires Unconfirmed(l) == TotalTaken(l) && TotalTaken(l) + 1 < l.cfg.w
    ensures var e := ReceiveI(l, ns, nr, asdu, now);
            e.tx == [] && e.link.num.vapeer == l.num.vapeer && e.link.num.vr == (TotalTaken(l) + 1) % l.cfg.n
  {
    var n := l.cfg.n;
    DistBack(TotalTaken(l), l.num.vapeer, n);
    SuccWraps(TotalTaken(l), n);
    DistExact(TotalTaken(l) + 1, 0, n);
    hide OkNr, FirstNs, RunAck;
    var w := WakeWriter(Acknowledge(l, nr));
    assert TakeI(w, now).tx == [];
    assert MasterSlave(TakeI(w, now).link, IndicationI, now).tx == [];
  }

  lemma TakeCount(l: Link, f: Frame, now: int)
    requires Inv(l) && l.conn && l.ssp.Started? && Expected(l, f) && f.I?
    requires Unconfirmed(l) == TotalTaken(l) && TotalTaken(l) + 1 < l.cfg.w
    ensures var e := Receive(l, f, now);
            e.tx == [] && Inv(e.link) && Unconfirmed(e.link) == TotalTaken(e.link) && e.link.cfg == l.cfg
  {
    var l0 := RestartT3(l, now);
    InvSame(l, l0);
    InvReceive(l, f, now);
    TakesQuietly(l0, f.ns, f.nr, f.asdu, now);
    ReceiveActs(l, f, now);
    var n, c := l.cfg.n, TotalTaken(l);
    DistBack(c, l.num.vapeer, n);
    DistExact(c + 1, 0, n);
    hide Inv, ReceiveI;
  }

  lemma OneToTake(s: System)
    requires Unanswered(s) && s.ab != []
    ensures InRange(s.b) && s.ab[0].I? && Expected(s.b, s.ab[0]) && s.b.conn && TotalTaken(s.b) < TotalSent(s.a)
    ensures forall g :: g in s.ab[1..] ==> g.I?
  {
    NextIsExpected(s.b, s.a, s.ba, s.ab);
    InvInRange(s.b);
    hide Inv, Expected;
    assert s.ab[0] in s.ab && forall g :: g in s.ab[1..] ==> g in s.ab;
  }

  lemma TakeOne(s: System, now: int)
    requires Unanswered(s) && s.ab != [] && TotalSent(s.a) < s.b.cfg.w
    ensures CanDeliver(s.Swap())
    ensures var t := DeliverA(s.Swap(), now).Swap();
            Unanswered(t) && t.a == s.a && t.b.cfg == s.b.cfg && t.ab == s.ab[1..]
  {
    hide Direction, Inv, Receive, Expected, AllHarmless;
    OneToTake(s);
    RunningInv(s);
    DeliverStep(s.Swap(), now);
    TakeCount(s.b, s.ab[0], now);
    assert s.ba + [] == s.ba;
  }

  lemma RunningInv(s: System)
    requires Running(s)
    ensures Inv(s.a) && Inv(s.b) && s.a.conn && s.b.conn && s.a.ssp.Started? && s.b.ssp.Started?
  {
  }

  /** End b takes in everything and answers nothing. */
  lemma {:induction false} TakeAll(s: System, now: int) returns (run: seq<Step>, t: System)
    requires Unanswered(s) && TotalSent(s.a) < s.b.cfg.w
    ensures Follows(s, run, t) && t.a == s.a && t.ab == [] && t.ba == []
    decreases |s.ab|
  {
    if s.ab == [] {
      return [], s;
    }
    var st := Deliver(SideB, now);
    TakeOne(s, now);
    hide Unanswered, Follows;
    run, t := TakeAll(Next(s, st), now);
    FollowsOne(s, st);
    FollowsConcat(s, [st], Next(s, st), run, t);
    run := [st] + run;
  }

  // ---- filling the window ----

  lemma PutOne(s: System, asdu: Asdu, now: int)
    requires Running(s)
    ensures CanAct(s, OpPut(asdu), now)
    ensures var t := ActA(s, OpPut(asdu), now);
            Running(t) && t.b == s.b && t.ab == s.ab && t.ba == s.ba && SameEnds(s, t)
            && t.a == Put(s.a, asdu) && t.a.outq == s.a.outq + [asdu]
  {
    ActKeeps(s, OpPut(asdu), now);
    hide Direction;
    assert s.ab + [] == s.ab;
  }

  /** m messages are put. */
  lemma {:induction false} PutMany(s: System, m: nat, now: int) returns (run: seq<Step>, t: System)
    requires Running(s)
    ensures Follows(s, run, t) && Running(t) && t.b == s.b && t.ab == s.ab && t.ba == s.ba && SameEnds(s, t)
    ensures |t.a.outq| == |s.a.outq| + m && t.a.num == s.a.num && t.a.ackq == s.a.ackq && t.a.log.acked == s.a.log.acked
    decreases m
  {
    if m == 0 {
      return [], s;
    }
    var st := Act(SideA, OpPut([]), now);
    PutOne(s, [], now);
    hide Running, Follows;
    run, t := PutMany(Next(s, st), m - 1, now);
    FollowsOne(s, st);
    FollowsConcat(s, [st], Next(s, st), run, t);
    run := [st] + run;
  }

  /** With an open window and more data than fits, end a fills its window. */
  lemma FillWindow(s: System, now: int)
    requires Running(s) && s.ab == [] && s.ba == [] && s.a.cfg.k < |s.a.outq| && s.a.ackq == []
    requires s.a.log.acked == [] && s.b.log.up == []
    ensures CanAct(s, OpRunOut(s.a.cfg.k), now)
    ensures var t := ActA(s, OpRunOut(s.a.cfg.k), now);
            Unanswered(t) && t.b == s.b && SameEnds(s, t)
            && Inv(t.a) && |t.a.ackq| == TotalSent(t.a) == s.a.cfg.k && t.a.outq != []
  {
    var k := s.a.cfg.k;
    RunningInv(s);
    ActKeeps(s, OpRunOut(k), now);
    FillLink(s.a, now);
    NoneTaken(s.b);
    hide Direction, Inv, RunOut;
    assert [] + RunOut(s.a, k, now).tx == RunOut(s.a, k, now).tx;
  }

  lemma NoneTaken(l: Link)
    requires Inv(l) && l.log.up == []
    ensures Unconfirmed(l) == TotalTaken(l) == 0
  {
  }

  lemma FillLink(l: Link, now: int)
    requires Inv(l) && l.conn && l.ssp.Started? && l.ackq == [] && l.log.acked == [] && l.cfg.k < |l.outq|
    ensures var e := RunOut(l, l.cfg.k, now);
            |e.link.ackq| == TotalSent(e.link) == l.cfg.k && e.link.outq != [] && e.link.ssp.Started?
            && AllHarmless(e.tx) && forall f :: f in e.tx ==> f.I?
  {
    InvRunOut(l, l.cfg.k, now);
    WindowClosed(l);
  }

  lemma FullIsStuck(l: Link)
    requires Inv(l) && |l.ackq| == l.cfg.k
    ensures forall budget, now :: RunOut(l, budget, now).tx == []
  {
    WindowClosed(l);
    InvRunOut(l, 0, 0);
  }

  lemma GetStuck(s0: System, now: int) returns (run: seq<Step>, s: System)
    requires Running(s0) && s0.ab == [] && s0.ba == [] && Unused(s0.a) && Unused(s0.b)
    requires s0.a.cfg.k < s0.b.cfg.w
    ensures Follows(s0, run, s) && Inv(s.a) && Stuck(s)
  {
    hide Follows, Can, Next, Direction, RunOut;
    var r1, s1 := PutMany(s0, s0.a.cfg.k + 1, now);
    var s2, r2 := WriteAll(s1, now);
    var r3, s3 := TakeAll(s2, now);
    FollowsConcat(s0, r1, s1, r2, s2);
    FollowsConcat(s0, r1 + r2, s2, r3, s3);
    run, s := r1 + r2 + r3, s3;
    FullIsStuck(s.a);
    RunningInv(s2);
  }

  lemma WriteAll(s: System, now: int) returns (t: System, run: seq<Step>)
    requires Running(s) && s.ab == [] && s.ba == [] && s.a.cfg.k < |s.a.outq| && s.a.ackq == []
    requires s.a.log.acked == [] && s.b.log.up == []
    ensures Follows(s, run, t) && Unanswered(t) && SameEnds(s, t)
    ensures Inv(t.a) && |t.a.ackq| == TotalSent(t.a) == s.a.cfg.k && t.a.outq != []
  {
    var st := Act(SideA, OpRunOut(s.a.cfg.k), now);
    FillWindow(s, now);
    hide Running, Unanswered, RunOut, Inv;
    FollowsOne(s, st);
    t, run := Next(s, st), [st];
  }

  /** If k < w, there is a run that gets stuck: end a fills its window, and end b, which has not
      got w frames, does not confirm. */
  lemma SmallWindowGetsStuck(cfgA: Config, cfgB: Config, now: int) returns (run: seq<Step>, s: System)
    requires Compatible(cfgA, cfgB) && !(AutoMaster(cfgA) && AutoMaster(cfgB)) && cfgA.k < cfgB.w
    ensures SysReaches(cfgA, cfgB, now, run, s) && Stuck(s)
  {
    hide SysReaches, Running, Stuck, Follows, Unused, Inv;
    var r0, s0 := StartCompletes(cfgA, cfgB, now);
    var r1;
    r1, s := GetStuck(s0, now);
    ReachesOn(cfgA, cfgB, now, r0, s0, r1, s);
    run := r0 + r1;
  }

  lemma WideWindowNotStuck(cfgA: Config, cfgB: Config, now: int, run: seq<Step>, s: System)
    requires Compatible(cfgA, cfgB) && SysReaches(cfgA, cfgB, now, run, s) && Stuck(s)
    ensures cfgA.k < cfgB.w && !(AutoMaster(cfgA) && AutoMaster(cfgB))
  {
    hide SysReaches;
    if AutoMaster(cfgA) && AutoMaster(cfgB) {
      NeverStarted(cfgA, cfgB, now, run, s);
    }
    ReachableSysInv(cfgA, cfgB, now, run, s);
    if cfgB.w <= cfgA.k {
      NoWindowDeadlock(cfgA, cfgB, now, run, s, SideA, 1, now);
    }
  }

  /** For any two compatible links: end a can get stuck exactly if its k is less than the w of its
      peer, and the two can be started at all. */
  lemma StuckExactly(cfgA: Config, cfgB: Config, now: int)
    requires Compatible(cfgA, cfgB)
    ensures (exists run, s :: SysReaches(cfgA, cfgB, now, run, s) && Stuck(s))
            <==> cfgA.k < cfgB.w && !(AutoMaster(cfgA) && AutoMaster(cfgB))
  {
    hide SysReaches, Stuck;
    if cfgA.k < cfgB.w && !(AutoMaster(cfgA) && AutoMaster(cfgB)) {
      var run, s := SmallWindowGetsStuck(cfgA, cfgB, now);
    } else {
      forall run, s | SysReaches(cfgA, cfgB, now, run, s) ensures !Stuck(s) {
        if Stuck(s) { WideWindowNotStuck(cfgA, cfgB, now, run, s); }
      }
    }
  }

  /** And so can end b. */
  lemma OtherStuckExactly(cfgA: Config, cfgB: Config, now: int)
    requires Compatible(cfgA, cfgB)
    ensures (exists run, s :: SysReaches(cfgA, cfgB, now, run, s) && Stuck(s.Swap()))
            <==> cfgB.k < cfgA.w && !(AutoMaster(cfgA) && AutoMaster(cfgB))
  {
    hide SysReaches, Stuck;
    StuckExactly(cfgB, cfgA, now);
    if run, s :| SysReaches(cfgA, cfgB, now, run, s) && Stuck(s.Swap()) {
      ReachesTurned(cfgA, cfgB, now, run, s);
    }
    if run, s :| SysReaches(cfgB, cfgA, now, run, s) && Stuck(s) {
      ReachesTurned(cfgB, cfgA, now, run, s);
      var t := s.Swap();
      assert t.Swap() == s && SysReaches(cfgA, cfgB, now, Turned(run), t) && Stuck(t.Swap());
    }
  }
}
