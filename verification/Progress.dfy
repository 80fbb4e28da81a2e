/** Everything gets through: from any state in which both ends are started, taking in what is in
    flight and writing what is queued, again and again, delivers all data, without any timer. */
module Progress {
  import opened SeqNum
  import opened LinkSpec
  import opened LinkProps
  import opened LinkRuns
  import opened LinkActs
  import opened Duplex

  predicate Harmless(f: Frame) { f.U? ==> f.t.TestFrAct? || f.t.TestFrCon? }

  predicate AllHarmless(ch: seq<Frame>) { forall f :: f in ch ==> Harmless(f) }

  /** Both ends are started and no start or stop frame is in flight. */
  ghost predicate Running(s: System)
  {
    SysInv(s) && s.a.ssp.Started? && s.b.ssp.Started? && AllHarmless(s.ab) && AllHarmless(s.ba)
  }

  /** What a frame can still set off: an I frame an S frame, a test frame its confirmation. */
  function Weight(f: Frame): nat { if f.I? || f == U(TestFrAct) then 2 else 1 }

  function Load(ch: seq<Frame>): nat
  {
    if ch == [] then 0 else Weight(ch[0]) + Load(ch[1..])
  }

  lemma {:induction false} LoadConcat(a: seq<Frame>, b: seq<Frame>)
    ensures Load(a + b) == Load(a) + Load(b)
  {
    if a == [] {
      assert a + b == b;
    } else {
      assert (a + b)[1..] == a[1..] + b;
      LoadConcat(a[1..], b);
    }
  }

  // ---- taking in one frame ----

  /** A started end stays started, keeps its queue, and answers with less than it took in. */
  predicate Answers(l: Link, f: Frame, l': Link, tx: seq<Frame>)
  {
    && l'.ssp.Started? && l'.outq == l.outq && l'.log.accepted == l.log.accepted
    && Load(tx) < Weight(f) && AllHarmless(tx)
  }

  lemma OneFrame(f: Frame)
    ensures Load([f]) == Weight(f) && (AllHarmless([f]) <==> Harmless(f)) && Load([]) == 0 && AllHarmless([])
  {
    assert f in [f];
  }

  lemma AnswersU(l: Link, t: UType, now: int)
    requires l.conn && l.ssp.Started? && (t.TestFrAct? || t.TestFrCon?)
    ensures var e := ReceiveU(l, t, now); Answers(l, U(t), e.link, e.tx)
  {
    hide AllHarmless, Load;
    OneFrame(U(TestFrCon));
  }

  lemma AnswersS(l: Link, ext: Byte, nr: nat, now: int)
    requires Inv(l) && l.ssp.Started? && Expected(l, S(ext, nr))
    ensures var e := ReceiveS(l, nr, now); Answers(l, S(ext, nr), e.link, e.tx)
  {
    hide AllHarmless, Load, OkNr, FirstNs;
    OneFrame(S(ext, nr));
  }

  lemma AnswersI(l: Link, ns: nat, nr: nat, asdu: Asdu, now: int)
    requires Inv(l) && l.conn && l.ssp.Started? && Expected(l, I(ns, nr, asdu))
    ensures var e := ReceiveI(l, ns, nr, asdu, now); Answers(l, I(ns, nr, asdu), e.link, e.tx)
  {
    hide AllHarmless, Load, OkNr, FirstNs, Dist;
    var w := WakeWriter(Acknowledge(l, nr));
    var e := TakeI(w, now);
    OneFrame(S(0, e.link.num.vr));
    assert e.tx == [] || e.tx == [S(0, e.link.num.vr)];
    assert MasterSlave(e.link, IndicationI, now).tx == [];
    assert e.tx + [] == e.tx;
  }

  lemma ReceiveAnswers(l: Link, f: Frame, now: int)
    requires Inv(l) && l.conn && l.ssp.Started? && Expected(l, f) && Harmless(f)
    ensures var e := Receive(l, f, now); Answers(l, f, e.link, e.tx)
  {
    var l0 := RestartT3(l, now);
    InvSame(l, l0);
    assert Expected(l0, f);
    hide Inv, ReceiveU, ReceiveS, ReceiveI, Expected;
    match f
    case U(t) => AnswersU(l0, t, now);
    case S(ext, nr) => AnswersS(l0, ext, nr, now);
    case I(ns, nr, asdu) => AnswersI(l0, ns, nr, asdu, now);
  }

  // ---- runs ----

  /** `t` is where the steps of `run` lead from `s`. */
  ghost predicate Follows(s: System, run: seq<Step>, t: System)
    decreases |run|
  {
    if run == [] then t == s
    else Can(s, run[0]) && Follows(Next(s, run[0]), run[1..], t)
  }

  lemma FollowsOne(s: System, st: Step)
    requires Can(s, st)
    ensures Follows(s, [st], Next(s, st))
  {
    assert [st][1..] == [];
  }

  lemma FollowsHead(s: System, run: seq<Step>, t: System)
    requires Follows(s, run, t)
    ensures run == [] ==> t == s
    ensures run != [] ==> Can(s, run[0]) && Follows(Next(s, run[0]), run[1..], t)
  {
  }

  lemma FollowsCons(s: System, st: Step, run: seq<Step>, t: System)
    requires Can(s, st) && Follows(Next(s, st), run, t)
    ensures Follows(s, [st] + run, t)
  {
    hide Can, Next;
    assert ([st] + run)[1..] == run;
  }

  lemma {:induction false} FollowsConcat(s: System, r1: seq<Step>, t: System, r2: seq<Step>, u: System)
    requires Follows(s, r1, t) && Follows(t, r2, u)
    ensures Follows(s, r1 + r2, u)
    decreases |r1|
  {
    hide Can, Next, Follows;
    FollowsHead(s, r1, t);
    if r1 == [] {
      assert r1 + r2 == r2;
    } else {
      FollowsConcat(Next(s, r1[0]), r1[1..], t, r2, u);
      FollowsCons(s, r1[0], r1[1..] + r2, u);
      assert [r1[0]] + (r1[1..] + r2) == r1 + r2;
    }
  }

  lemma ReachesOne(cfgA: Config, cfgB: Config, now: int, run: seq<Step>, s: System, st: Step)
    requires SysReaches(cfgA, cfgB, now, run, s) && Can(s, st)
    ensures SysReaches(cfgA, cfgB, now, run + [st], Next(s, st))
  {
    hide Can, Next, Start;
    var r := run + [st];
    assert r[..|r| - 1] == run && r[|r| - 1] == st;
  }

  lemma {:induction false} ReachesOn(cfgA: Config, cfgB: Config, now: int, run: seq<Step>, s: System, more: seq<Step>, t: System)
    requires SysReaches(cfgA, cfgB, now, run, s) && Follows(s, more, t)
    ensures SysReaches(cfgA, cfgB, now, run + more, t)
    decreases |more|
  {
    hide Can, Next, SysReaches, Follows;
    FollowsHead(s, more, t);
    if more == [] {
      assert run + more == run;
    } else {
      ReachesOne(cfgA, cfgB, now, run, s, more[0]);
      ReachesOn(cfgA, cfgB, now, run + [more[0]], Next(s, more[0]), more[1..], t);
      assert run + [more[0]] + more[1..] == run + more;
    }
  }

  /** The same users' data, at the same ends. */
  predicate SameData(s: System, t: System)
  {
    SameEnds(s, t) && t.a.log.accepted == s.a.log.accepted && t.b.log.accepted == s.b.log.accepted
  }

  predicate SameQueues(s: System, t: System) { t.a.outq == s.a.outq && t.b.outq == s.b.outq }

  lemma DeliverStep(s: System, now: int)
    requires Running(s) && s.ba != []
    ensures var t := DeliverA(s, now);
            Running(t) && SameData(s, t) && SameQueues(s, t) && Load(t.ab) + Load(t.ba) < Load(s.ab) + Load(s.ba)
  {
    var f := s.ba[0];
    var e := Receive(s.a, f, now);
    assert s.ba == [f] + s.ba[1..] && f in s.ba;
    DeliverKeeps(s, now);
    hide Direction, Receive;
    ReceiveAnswers(s.a, f, now);
    LoadConcat(s.ab, e.tx);
  }

  /** Whatever is in flight can be taken in. */
  lemma {:induction false} Flush(s: System, now: int) returns (run: seq<Step>, t: System)
    requires Running(s)
    ensures Follows(s, run, t) && Running(t) && t.ab == [] && t.ba == [] && SameData(s, t) && SameQueues(s, t)
    decreases Load(s.ab) + Load(s.ba)
  {
    if s.ba == [] && s.ab == [] {
      return [], s;
    }
    hide Running;
    var st := Deliver(if s.ba != [] then SideA else SideB, now);
    FlushStep(s, st);
    run, t := Flush(Next(s, st), now);
    FollowsOne(s, st);
    FollowsConcat(s, [st], Next(s, st), run, t);
    run := [st] + run;
  }

  lemma FlushStep(s: System, st: Step)
    requires Running(s) && st.Deliver? && (if st.side.SideA? then s.ba else s.ab) != []
    ensures Can(s, st)
    ensures var t := Next(s, st);
            Running(t) && SameData(s, t) && SameQueues(s, t) && Load(t.ab) + Load(t.ba) < Load(s.ab) + Load(s.ba)
  {
    if st.side.SideA? {
      DeliverStep(s, st.now);
    } else {
      DeliverStep(s.Swap(), st.now);
    }
  }

  // ---- writing ----

  lemma WriteStep(s: System, now: int)
    requires Running(s) && s.ab == [] && s.ba == [] && s.a.outq != [] && s.b.cfg.w <= s.a.cfg.k
    ensures CanAct(s, OpRunOut(|s.a.outq|), now)
    ensures var t := ActA(s, OpRunOut(|s.a.outq|), now);
            Running(t) && SameData(s, t) && t.b == s.b && |t.a.outq| < |s.a.outq|
  {
    var op := OpRunOut(|s.a.outq|);
    ActKeeps(s, op, now);
    QuietDirection(s.a, s.b);
    WriteMoves(s.a, now);
  }

  lemma WriteMoves(l: Link, now: int)
    requires Inv(l) && l.conn && l.ssp.Started? && l.outq != [] && l.num.vs != WindowEnd(l)
    ensures var e := RunOut(l, |l.outq|, now);
            e.link.ssp == l.ssp && e.link.log == l.log && |e.link.outq| < |l.outq| && AllHarmless(e.tx)
  {
    InvRunOut(l, |l.outq|, now);
    WindowClosed(l);
    AckQueueLength(l);
  }

  ghost predicate Wide(s: System) { s.b.cfg.w <= s.a.cfg.k && s.a.cfg.w <= s.b.cfg.k }

  lemma RoundStep(s: System, st: Step)
    requires Running(s) && Wide(s) && s.ab == [] && s.ba == [] && st.Act?
    requires var l := if st.side.SideA? then s.a else s.b; l.outq != [] && st.op == OpRunOut(|l.outq|)
    ensures Can(s, st)
    ensures var t := Next(s, st);
            Running(t) && Wide(t) && SameData(s, t) && |t.a.outq| + |t.b.outq| < |s.a.outq| + |s.b.outq|
  {
    if st.side.SideA? {
      WriteStep(s, st.now);
    } else {
      WriteStep(s.Swap(), st.now);
    }
  }

  /** Taking in and writing in turn empties both queues. */
  lemma {:induction false} Drain(s: System, now: int) returns (run: seq<Step>, t: System)
    requires Running(s) && Wide(s)
    ensures Follows(s, run, t) && Running(t) && SameData(s, t)
    ensures t.ab == [] && t.ba == [] && t.a.outq == [] && t.b.outq == []
    decreases |s.a.outq| + |s.b.outq|
  {
    hide Running;
    run, t := Flush(s, now);
    if t.a.outq != [] || t.b.outq != [] {
      var side := if t.a.outq != [] then SideA else SideB;
      var st := Act(side, OpRunOut(if side.SideA? then |t.a.outq| else |t.b.outq|), now);
      RoundStep(t, st);
      FollowsOne(t, st);
      FollowsConcat(s, run, t, [st], Next(t, st));
      var run2, t2 := Drain(Next(t, st), now);
      FollowsConcat(s, run + [st], Next(t, st), run2, t2);
      run, t := run + [st] + run2, t2;
    }
  }

  /** From every reachable state in which both ends are started and no start or stop frame is in
      flight, a finite run without timers and further data leads to a state in which each end has
      handed up exactly what the other has accepted, provided w <= k across the ends. */
  lemma EverythingGetsThrough(cfgA: Config, cfgB: Config, start: int, run: seq<Step>, s: System, now: int)
    returns (more: seq<Step>, t: System)
    requires Compatible(cfgA, cfgB) && cfgB.w <= cfgA.k && cfgA.w <= cfgB.k
    requires SysReaches(cfgA, cfgB, start, run, s)
    requires s.a.ssp.Started? && s.b.ssp.Started? && AllHarmless(s.ab) && AllHarmless(s.ba)
    ensures SysReaches(cfgA, cfgB, start, run + more, t)
    ensures t.b.log.up == t.a.log.accepted == s.a.log.accepted
    ensures t.a.log.up == t.b.log.accepted == s.b.log.accepted
  {
    ReachableSysInv(cfgA, cfgB, start, run, s);
    more, t := Drain(s, now);
    ReachesOn(cfgA, cfgB, start, run, s, more, t);
    QuietDirection(t.a, t.b);
    QuietDirection(t.b, t.a);
  }
}
