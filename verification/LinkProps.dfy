/** What every operation of one link keeps, whatever the peer sends. */
module LinkProps {
  import opened SeqNum
  import opened LinkSpec

  /** The unbounded counters behind V(A), V(S), V(R) and the last N(R) sent in an S frame. */
  function TotalAcked(l: Link): nat { |l.log.acked| }
  function TotalSent(l: Link): nat { |l.log.acked| + |l.ackq| }
  function TotalTaken(l: Link): nat { |l.log.up| }

  function Unconfirmed(l: Link): nat
    requires l.num.vapeer < l.cfg.n
  {
    Dist(l.num.vr, l.num.vapeer, l.cfg.n)
  }

  ghost predicate Inv(l: Link)
  {
    && l.cfg.Valid()
    && Counters(l)
    && |l.ackq| <= l.cfg.k
    && (forall i :: 0 <= i < |l.ackq| ==> l.ackq[i].ns == (TotalAcked(l) + i) % l.cfg.n)
    && l.log.accepted == l.log.acked + Payloads(l.ackq) + l.outq
    && |l.log.upAt| == |l.log.up|
    && Unconfirmed(l) < l.cfg.w && Unconfirmed(l) <= |l.log.up|
    && (!l.conn ==> l.ssp.Init? && l.ackq == [] && l.log.acked == [] && l.log.up == [])
  }

  lemma InvInRange(l: Link)
    requires Inv(l)
    ensures InRange(l) && l.cfg.Valid() && Counters(l)
  {
  }

  predicate Counters(l: Link)
    requires 0 < l.cfg.n
  {
    && l.num.va == TotalAcked(l) % l.cfg.n
    && l.num.vs == TotalSent(l) % l.cfg.n
    && l.num.vr == TotalTaken(l) % l.cfg.n
    && l.num.vapeer < l.cfg.n
  }

  lemma AckQueueLength(l: Link)
    requires Inv(l)
    ensures |l.ackq| == Dist(l.num.vs, l.num.va, l.cfg.n) <= l.cfg.k
    ensures l.ackq == [] <==> l.num.vs == l.num.va
  {
    DistExact(TotalSent(l), TotalAcked(l), l.cfg.n);
    WrapInjective(TotalAcked(l), TotalSent(l), l.cfg.n);
  }

  lemma WindowClosed(l: Link)
    requires Inv(l)
    ensures l.num.vs == WindowEnd(l) <==> |l.ackq| == l.cfg.k
    ensures Dist(WindowEnd(l), l.num.vs, l.cfg.n) == l.cfg.k - |l.ackq|
  {
    var n := l.cfg.n;
    ModStep(TotalAcked(l), l.cfg.k, n);
    WrapInjective(TotalSent(l), TotalAcked(l) + l.cfg.k, n);
    DistExact(TotalAcked(l) + l.cfg.k, TotalSent(l), n);
  }

  /** The window invariant in terms of the link's own fields. */
  lemma WindowInvariant(l: Link)
    requires Inv(l)
    ensures |l.ackq| == Dist(l.num.vs, l.num.va, l.cfg.n) <= l.cfg.k
    ensures forall i :: 0 <= i < |l.ackq| ==> l.ackq[i].ns == Nth(l.num.va, i, l.cfg.n)
    ensures l.ackq == [] <==> l.num.vs == l.num.va
    ensures l.num.vs == WindowEnd(l) <==> |l.ackq| == l.cfg.k
  {
    AckQueueLength(l);
    WindowClosed(l);
    forall i | 0 <= i < |l.ackq| ensures l.ackq[i].ns == Nth(l.num.va, i, l.cfg.n) {
      ModStep(TotalAcked(l), i, l.cfg.n);
    }
  }

  /** An accepted, reduced N(R) pops exactly (N(R) - V(A)) mod n messages. */
  lemma AckPops(l: Link, nr: nat)
    requires Inv(l) && nr < l.cfg.n && OkNr(l.num.va, l.num.vs, nr, l.cfg.n)
    ensures FirstNs(l.ackq, nr) == Dist(nr, l.num.va, l.cfg.n) <= |l.ackq|
    ensures nr == (TotalAcked(l) + Dist(nr, l.num.va, l.cfg.n)) % l.cfg.n
  {
    var n, d, i := l.cfg.n, Dist(nr, l.num.va, l.cfg.n), FirstNs(l.ackq, nr);
    AckQueueLength(l);
    DistLandsOn(nr, TotalAcked(l), n);
    assert d < |l.ackq| ==> l.ackq[d].ns == nr;
    if i < d {
      WrapInjective(TotalAcked(l) + i, TotalAcked(l) + d, n);
    }
  }

  lemma NoPayloads()
    ensures Payloads([]) == []
  {
  }

  lemma PayloadsSplit(q: seq<Sent>, i: nat)
    requires i <= |q|
    ensures Payloads(q) == Payloads(q[..i]) + Payloads(q[i..])
  {
  }

  lemma Regroup(a: seq<Asdu>, b: seq<Asdu>, c: seq<Asdu>, d: seq<Asdu>)
    ensures a + (b + c) + d == (a + b) + c + d
  {
  }

  lemma AckConserves(l: Link, nr: nat)
    requires l.log.accepted == l.log.acked + Payloads(l.ackq) + l.outq
    ensures var l' := RunAck(l, nr); l'.log.accepted == l'.log.acked + Payloads(l'.ackq) + l'.outq
  {
    var i := FirstNs(l.ackq, nr);
    PayloadsSplit(l.ackq, i);
    Regroup(l.log.acked, Payloads(l.ackq[..i]), Payloads(l.ackq[i..]), l.outq);
  }

  lemma ShiftNumbers(q: seq<Sent>, base: nat, i: nat, n: nat)
    requires i <= |q| && 0 < n
    requires forall j :: 0 <= j < |q| ==> q[j].ns == (base + j) % n
    ensures forall j :: 0 <= j < |q[i..]| ==> q[i..][j].ns == (base + i + j) % n
  {
    forall j | 0 <= j < |q[i..]| ensures q[i..][j].ns == (base + i + j) % n {
      assert q[i..][j] == q[i + j];
    }
  }

  lemma InvAcknowledge(l: Link, nr: nat)
    requires Inv(l) && nr < l.cfg.n && OkNr(l.num.va, l.num.vs, nr, l.cfg.n)
    ensures Inv(Acknowledge(l, nr))
  {
    AckPops(l, nr);
    AckConserves(l, nr);
    ShiftNumbers(l.ackq, TotalAcked(l), FirstNs(l.ackq, nr), l.cfg.n);
  }

  lemma InvSendS(l: Link)
    requires Inv(l)
    ensures Inv(SendS(l).link)
  {
    DistExact(TotalTaken(l), TotalTaken(l), l.cfg.n);
  }

  lemma InvTakeI(l: Link, now: int, asdu: Asdu)
    requires Inv(l) && l.conn
    ensures Inv(HandUp(TakeI(l, now).link, asdu, now))
  {
    var n, c := l.cfg.n, Unconfirmed(l);
    var base := TotalTaken(l) - c;
    SuccWraps(TotalTaken(l), n);
    DistBack(TotalTaken(l), l.num.vapeer, n);
    DistExact(TotalTaken(l) + 1, base, n);
    DistExact(TotalTaken(l) + 1, TotalTaken(l) + 1, n);
  }

  /** A distance recovers the base it was measured from. */
  lemma DistBack(x: nat, v: nat, n: nat)
    requires v < n && Dist(x % n, v, n) <= x
    ensures (x - Dist(x % n, v, n)) % n == v
  {
    var d, qx := Dist(x % n, v, n), x / n;
    var t := x % n - v + n;
    var qt := t / n;
    Distribute(qx, qt, n);
    ModUnique(x - d, qx + qt - 1, v, n);
  }

  lemma Distribute(a: int, b: int, n: int)
    ensures (a + b - 1) * n == a * n + b * n - n
  {
  }

  /** The start/stop procedure touches the state, two timers and nothing else. */
  lemma MasterSlaveFrame(l: Link, ev: Event, now: int)
    ensures var m := MasterSlave(l, ev, now).link;
            m == l.(ssp := m.ssp, tm := m.tm) && m.tm == l.tm.(tSndAt := m.tm.tSndAt, uSndAt := m.tm.uSndAt)
    ensures !l.conn && l.ssp.Init? && !ev.TcpUp? ==> MasterSlave(l, ev, now).link.ssp.Init?
  {
  }

  lemma InvMasterSlave(l: Link, ev: Event, now: int)
    requires Inv(l) && (l.conn || !ev.TcpUp?)
    ensures Inv(MasterSlave(l, ev, now).link)
  {
    MasterSlaveFrame(l, ev, now);
  }

  lemma InvRunOut(l: Link, budget: nat, now: int)
    requires Inv(l)
    ensures Inv(RunOut(l, budget, now).link)
    ensures ReadjustVs(l) == l
  {
    WindowInvariant(l);
    WindowClosed(l);
    var l' := RunOut(l, budget, now).link;
    if l.ssp.Started? && l.num.vs != WindowEnd(l) {
      var m := |l'.ackq| - |l.ackq|;
      ModStep(TotalSent(l), m, l.cfg.n);
      RunOutConserves(l, m, now);
      forall i | |l.ackq| <= i < |l'.ackq| ensures l'.ackq[i].ns == (TotalAcked(l) + i) % l.cfg.n {
        ModStep(TotalSent(l), i - |l.ackq|, l.cfg.n);
      }
    }
  }

  lemma RunOutConserves(l: Link, m: nat, now: int)
    requires 0 < l.cfg.n && m <= |l.outq|
    ensures Payloads(l.ackq + Numbered(l, m, now)) + l.outq[m..] == Payloads(l.ackq) + l.outq
  {
  }

  lemma InvReject(l: Link)
    requires Inv(l)
    ensures Inv(RejectNr(l).link)
  {
    InvSendS(CountBadNr(l));
  }

  lemma InvReceiveU(l: Link, t: UType, now: int)
    requires Inv(l) && l.conn
    ensures Inv(ReceiveU(l, t, now).link)
  {
    InvMasterSlave(if t.IsAct() then l else StopT1(l), Indication(t), now);
  }

  /** The poll mode, the timers and the error counters have no part in the invariant. */
  lemma InvSame(l: Link, l': Link)
    requires Inv(l) && l' == l.(mode := l'.mode, tm := l'.tm, err := l'.err)
    ensures Inv(l')
  {
  }

  lemma InvPut(l: Link, asdu: Asdu)
    requires Inv(l)
    ensures Inv(Put(l, asdu))
  {
  }

  lemma InvReceiveS(l: Link, nr: nat, now: int)
    requires Inv(l) && l.conn && nr < l.cfg.n
    ensures Inv(ReceiveS(l, nr, now).link)
  {
    if OkNr(l.num.va, l.num.vs, nr, l.cfg.n) {
      var l1 := Acknowledge(l, nr);
      InvAcknowledge(l, nr);
      hide Inv, MasterSlave, Acknowledge;
      InvMasterSlave(l1, IndicationS, now);
      InvSame(MasterSlave(l1, IndicationS, now).link, ReceiveS(l, nr, now).link);
    } else {
      InvReject(l);
    }
  }

  lemma InvReceiveI(l: Link, ns: nat, nr: nat, asdu: Asdu, now: int)
    requires Inv(l) && l.conn && nr < l.cfg.n
    ensures Inv(ReceiveI(l, ns, nr, asdu, now).link)
  {
    if OkNr(l.num.va, l.num.vs, nr, l.cfg.n) {
      var l1 := Acknowledge(l, nr);
      InvAcknowledge(l, nr);
      InvSame(l1, WakeWriter(l1));
      InvReceiveData(WakeWriter(l1), ns, asdu, now);
    } else {
      InvReject(l);
    }
  }

  lemma InvReceive(l: Link, f: Frame, now: int)
    requires Inv(l) && l.conn && (f.U? || f.nr < l.cfg.n)
    ensures Inv(Receive(l, f, now).link)
  {
    var l0 := RestartT3(l, now);
    match f
    case U(t) => InvReceiveU(l0, t, now);
    case S(_, nr) => InvReceiveS(l0, nr, now);
    case I(ns, nr, asdu) => InvReceiveI(l0, ns, nr, asdu, now);
  }

  lemma InvReceiveData(l: Link, ns: nat, asdu: Asdu, now: int)
    requires Inv(l) && l.conn
    ensures Inv(ReceiveData(l, ns, asdu, now).link)
  {
    if ns != l.num.vr {
      InvSendS(CountBadNs(l));
    } else {
      InvTakeI(l, now, asdu);
      InvHandUp(TakeI(l, now).link, IndicationI, asdu, now);
    }
  }

  lemma InvHandUp(l: Link, ev: Event, asdu: Asdu, now: int)
    requires Inv(HandUp(l, asdu, now))
    ensures Inv(HandUp(MasterSlave(l, ev, now).link, asdu, now)) || (!l.conn && ev.TcpUp?)
  {
    MasterSlaveFrame(l, ev, now);
  }

  lemma InvDisconnect(l: Link)
    requires Inv(l)
    ensures Inv(Disconnect(l))
  {
    ModUnique(0, 0, 0, l.cfg.n);
    DistExact(0, 0, l.cfg.n);
  }

  lemma InvConnect(l: Link, now: int)
    requires Inv(l)
    ensures Inv(Connect(l, now).link)
  {
    InvMasterSlave(l.(conn := true, mode := PollIn), TcpUp, now);
  }

  lemma InvTimer(l: Link, now: int)
    requires Inv(l)
    ensures Inv(Timer(l, now).link)
  {
    InvDisconnect(l);
    InvSendS(StopT2(l));
  }

  // ---- one iteration of the two queue loops ----

  lemma AckOneMore(q: seq<Sent>, i: nat)
    requires i < |q|
    ensures q[i..] != [] && q[i..][0] == q[i] && q[i..][1..] == q[i + 1..]
    ensures Payloads(q[..i + 1]) == Payloads(q[..i]) + [q[i].asdu]
  {
    assert q[..i + 1] == q[..i] + [q[i]];
  }

  lemma SendOneMore(l: Link, m: nat, now: int)
    requires m < |l.outq| && 0 < l.cfg.n
    ensures l.outq[m..] != [] && l.outq[m..][0] == l.outq[m] && l.outq[m..][1..] == l.outq[m + 1..]
    ensures Numbered(l, m + 1, now) == Numbered(l, m, now) + [Sent(Nth(l.num.vs, m, l.cfg.n), l.outq[m], now)]
    ensures IFrames(l, m + 1) == IFrames(l, m) + [I(Nth(l.num.vs, m, l.cfg.n), l.num.vr, l.outq[m])]
    ensures Succ(Nth(l.num.vs, m, l.cfg.n), l.cfg.n) == Nth(l.num.vs, m + 1, l.cfg.n)
  {
    SuccWraps(l.num.vs + m, l.cfg.n);
  }

  /** The loop guard `vs != end` holds exactly while the window is open. */
  lemma WindowGuard(l: Link, m: nat)
    requires 0 < l.cfg.n && l.num.vs < l.cfg.n && m <= Dist(WindowEnd(l), l.num.vs, l.cfg.n)
    ensures Nth(l.num.vs, m, l.cfg.n) == WindowEnd(l) <==> m == Dist(WindowEnd(l), l.num.vs, l.cfg.n)
  {
    DistOfNth(l.num.vs, m, l.cfg.n);
    NthOfDist(l.num.vs, WindowEnd(l), l.cfg.n);
  }
}
