/** What one operation of a link means for the peer: how far the data and the acknowledgements
    it wrote go. One relation covers every operation, with or without a received frame. */
module LinkActs {
  import opened SeqNum
  import opened Options
  import opened LinkSpec
  import opened LinkProps
  import opened LinkRuns
  import opened Channel

  /** The unbounded counter that the peer has been told in S frames. */
  function TotalConfirmed(l: Link): int
    requires Inv(l)
  {
    TotalTaken(l) - Unconfirmed(l)
  }

  /** `l` becomes `l'` and writes `tx`, after taking in frame `f` if there is one. */
  ghost predicate Acts(l: Link, f: Option<Frame>, l': Link, tx: seq<Frame>)
    requires Inv(l)
  {
    && Inv(l') && l'.cfg == l.cfg && l'.conn && l'.err == l.err
    // as a sender
    && TotalAcked(l') == (if f.Some? then NextAcked(f.value, TotalAcked(l), l.cfg.n) else TotalAcked(l))
    && l.log.accepted <= l'.log.accepted
    && TotalSent(l') <= |l'.log.accepted|
    && Carries(tx, TotalSent(l), TotalSent(l'), l'.log.accepted, l.cfg.n)
    // as a receiver
    && l'.log.up == l.log.up + (if f.Some? && f.value.I? then [f.value.asdu] else [])
    && AllAck(tx, l'.num.vr)
    && (TotalConfirmed(l') <= TotalConfirmed(l) || HasAck(tx))
  }

  lemma SentIsAccepted(l: Link)
    requires Inv(l)
    ensures TotalSent(l) + |l.outq| == |l.log.accepted|
    ensures forall i :: 0 <= i < |l.ackq| ==> l.log.accepted[TotalAcked(l) + i] == l.ackq[i].asdu
    ensures forall i :: 0 <= i < |l.outq| ==> l.log.accepted[TotalSent(l) + i] == l.outq[i]
  {
  }

  // ---- operations without a received frame ----

  /** The operations of a run that leave the connection up. */
  predicate Local(l: Link, op: Op, now: int)
  {
    match op
    case OpPut(_) => true
    case OpRunOut(_) => true
    case OpRequest(_) => true
    case OpTimer => Timer(l, now).link.conn
    case OpAckTimer => AckTimer(l, now).conn
    case _ => false
  }

  lemma LocalEnabled(l: Link, op: Op, now: int)
    requires Local(l, op, now)
    ensures Enabled(l, op)
  {
  }

  lemma {:induction false} IFramesCarry(l: Link, m: nat, accepted: seq<Asdu>, n: nat, i: nat)
    requires n == l.cfg.n && 0 < n && m <= |l.outq| && i <= m
    requires l.num.vs == TotalSent(l) % n && TotalSent(l) + m <= |accepted|
    requires forall j :: 0 <= j < m ==> accepted[TotalSent(l) + j] == l.outq[j]
    ensures Carries(IFrames(l, m)[i..], TotalSent(l) + i, TotalSent(l) + m, accepted, n)
    decreases m - i
  {
    if i < m {
      ModStep(TotalSent(l), i, n);
      IFramesCarry(l, m, accepted, n, i + 1);
      assert IFrames(l, m)[i..][1..] == IFrames(l, m)[i + 1..];
    } else {
      assert IFrames(l, m)[i..] == [];
    }
  }

  lemma ConfirmedSame(l: Link, l': Link)
    requires Inv(l) && Inv(l') && l'.cfg == l.cfg && l'.log.up == l.log.up
    requires l'.num.vr == l.num.vr && l'.num.vapeer == l.num.vapeer
    ensures TotalConfirmed(l') == TotalConfirmed(l)
  {
  }

  lemma SendManyCarries(l: Link, m: nat, now: int, l': Link)
    requires Inv(l) && m <= |l.outq|
    requires Inv(l') && l' == SendMany(l, m, now).link.(mode := l'.mode)
    ensures TotalSent(l') == TotalSent(l) + m <= |l.log.accepted|
    ensures Carries(IFrames(l, m), TotalSent(l), TotalSent(l'), l.log.accepted, l.cfg.n)
  {
    hide Inv, Carries, IFrames;
    InvInRange(l);
    SentIsAccepted(l);
    IFramesCarry(l, m, l.log.accepted, l.cfg.n, 0);
    assert IFrames(l, m)[0..] == IFrames(l, m);
  }

  /** Sending moves messages from one queue to the other, whatever the poll mode becomes. */
  lemma SendManyActs(l: Link, m: nat, now: int, l': Link)
    requires Inv(l) && l.conn && m <= |l.outq|
    requires Inv(l') && l' == SendMany(l, m, now).link.(mode := l'.mode)
    ensures Acts(l, None, l', IFrames(l, m))
  {
    SendManyCarries(l, m, now, l');
    assert AllAck(IFrames(l, m), l.num.vr);
    hide Inv, Carries, Numbered, TotalConfirmed;
    ConfirmedSame(l, l');
  }

  lemma RunOutActs(l: Link, budget: nat, now: int)
    requires Inv(l) && l.conn
    ensures var e := RunOut(l, budget, now); Acts(l, None, e.link, e.tx)
  {
    InvRunOut(l, budget, now);
    var e := RunOut(l, budget, now);
    if l.ssp.Started? && l.num.vs != WindowEnd(l) {
      hide Acts, Inv;
      SendManyActs(l, Sendable(l, budget), now, e.link);
    } else {
      hide Acts, Inv;
      QuietActs(l, e.link, e.tx);
    }
  }

  lemma QuietActs(l: Link, l': Link, tx: seq<Frame>)
    requires Inv(l) && Inv(l') && l'.conn && l'.cfg == l.cfg && l'.err == l.err
    requires l'.num == l.num && l'.log == l.log && l'.ackq == l.ackq && forall f :: f in tx ==> f.U?
    ensures Acts(l, None, l', tx)
  {
    SentIsAccepted(l);
    CarriesNothing(tx, TotalSent(l), l.log.accepted, l.cfg.n);
  }

  lemma ConfirmActs(l: Link)
    requires Inv(l) && l.conn
    ensures var e := SendS(l); Acts(l, None, e.link, e.tx)
  {
    InvSendS(l);
    SentIsAccepted(l);
    CarriesNothing(SendS(l).tx, TotalSent(l), l.log.accepted, l.cfg.n);
    assert SendS(l).tx[0] in SendS(l).tx;
  }

  lemma PutActs(l: Link, asdu: Asdu)
    requires Inv(l) && l.conn
    ensures Acts(l, None, Put(l, asdu), [])
  {
    SentIsAccepted(l);
    SentIsAccepted(Put(l, asdu));
  }

  /** What an operation amounts to does not depend on where the timers stood. */
  lemma ActsSame(l0: Link, l: Link, f: Option<Frame>, l': Link, tx: seq<Frame>)
    requires Inv(l) && l0 == l.(tm := l0.tm) && Inv(l0) && Acts(l0, f, l', tx)
    ensures Acts(l, f, l', tx)
  {
  }

  lemma TimerActs(l: Link, now: int)
    requires Inv(l) && l.conn && Timer(l, now).link.conn
    ensures var e := Timer(l, now); Acts(l, None, e.link, e.tx)
  {
    InvTimer(l, now);
    InvSame(l, StopT2(l));
    var e := Timer(l, now);
    hide Acts, Inv;
    if l.tm.iRcvAt != 0 && Abs(now - l.tm.iRcvAt) > l.cfg.t2 {
      ConfirmActs(StopT2(l));
      ActsSame(StopT2(l), l, None, e.link, e.tx);
    } else {
      QuietActs(l, e.link, e.tx);
    }
  }

  lemma LocalActs(l: Link, op: Op, now: int)
    requires Inv(l) && l.conn && Local(l, op, now)
    ensures var e := Apply(l, op, now); Acts(l, None, e.link, e.tx)
  {
    match op
    case OpPut(asdu) => PutActs(l, asdu);
    case OpRunOut(budget) => RunOutActs(l, budget, now);
    case OpRequest(t) =>
      InvMasterSlave(l, Request(t), now);
      MasterSlaveFrame(l, Request(t), now);
      var e := MasterSlave(l, Request(t), now);
      QuietActs(l, e.link, e.tx);
    case OpTimer => TimerActs(l, now);
    case OpAckTimer => QuietActs(l, l, []);
  }

  // ---- receiving ----

  /** `f` is what an undisturbed peer sends: its N(R) is in the window and its N(S) is next. */
  predicate Expected(l: Link, f: Frame)
    requires 0 < l.cfg.n && l.num.va < l.cfg.n
  {
    && (f.U? || (f.nr < l.cfg.n && OkNr(l.num.va, l.num.vs, f.nr, l.cfg.n)))
    && (f.I? ==> f.ns == l.num.vr)
  }

  lemma AcknowledgeMeets(l: Link, nr: nat)
    requires Inv(l) && nr < l.cfg.n && OkNr(l.num.va, l.num.vs, nr, l.cfg.n)
    ensures var l' := Acknowledge(l, nr);
            Inv(l') && TotalAcked(l') == TotalAcked(l) + Dist(nr, TotalAcked(l) % l.cfg.n, l.cfg.n)
            && TotalSent(l') == TotalSent(l)
  {
    InvAcknowledge(l, nr);
    AckPops(l, nr);
  }

  lemma ReceiveUActs(l: Link, t: UType, now: int)
    requires Inv(l) && l.conn
    ensures var e := ReceiveU(l, t, now); Acts(l, Some(U(t)), e.link, e.tx)
  {
    InvReceiveU(l, t, now);
    MasterSlaveFrame(if t.IsAct() then l else StopT1(l), Indication(t), now);
    var e := ReceiveU(l, t, now);
    QuietActs(l, e.link, e.tx);
  }

  lemma ReceiveSActs(l: Link, ext: Byte, nr: nat, now: int)
    requires Inv(l) && l.conn && Expected(l, S(ext, nr))
    ensures var e := ReceiveS(l, nr, now); Acts(l, Some(S(ext, nr)), e.link, e.tx)
  {
    InvReceiveS(l, nr, now);
    AcknowledgeMeets(l, nr);
    var l1 := Acknowledge(l, nr);
    MasterSlaveFrame(l1, IndicationS, now);
    var e := ReceiveS(l, nr, now);
    QuietActs(l1, e.link, e.tx);
    hide Inv, MasterSlave;
  }

  lemma TakeIActs(l: Link, asdu: Asdu, now: int)
    requires Inv(l) && l.conn
    ensures var e, l' := TakeI(l, now), HandUp(TakeI(l, now).link, asdu, now);
            Inv(l') && AllAck(e.tx, l'.num.vr) && (forall f :: f in e.tx ==> f.S?)
            && (TotalConfirmed(l') <= TotalConfirmed(l) || HasAck(e.tx))
  {
    InvTakeI(l, now, asdu);
    var n, c := l.cfg.n, Unconfirmed(l);
    var e := TakeI(l, now);
    SuccWraps(TotalTaken(l), n);
    DistBack(TotalTaken(l), l.num.vapeer, n);
    DistExact(TotalTaken(l) + 1, TotalTaken(l) - c, n);
    if e.tx != [] {
      assert e.tx[0] in e.tx;
    }
  }

  lemma ReceiveDataActs(l: Link, asdu: Asdu, now: int)
    requires Inv(l) && l.conn
    ensures var e := ReceiveData(l, l.num.vr, asdu, now);
            Inv(e.link) && e.link.cfg == l.cfg && e.link.conn && e.link.err == l.err
            && e.link.ackq == l.ackq && e.link.log == HandUp(l, asdu, now).log
            && AllAck(e.tx, e.link.num.vr) && (forall f :: f in e.tx ==> !f.I?)
            && (TotalConfirmed(e.link) <= TotalConfirmed(l) || HasAck(e.tx))
  {
    InvReceiveData(l, l.num.vr, asdu, now);
    TakeIActs(l, asdu, now);
    var e := TakeI(l, now);
    MasterSlaveFrame(e.link, IndicationI, now);
    if HasAck(e.tx) {
      var f :| f in e.tx && !f.U?;
      assert f in ReceiveData(l, l.num.vr, asdu, now).tx;
    }
  }

  lemma ReceiveIActs(l: Link, ns: nat, nr: nat, asdu: Asdu, now: int)
    requires Inv(l) && l.conn && Expected(l, I(ns, nr, asdu))
    ensures var e := ReceiveI(l, ns, nr, asdu, now); Acts(l, Some(I(ns, nr, asdu)), e.link, e.tx)
  {
    AcknowledgeMeets(l, nr);
    var l1 := Acknowledge(l, nr);
    InvSame(l1, WakeWriter(l1));
    ReceiveDataActs(WakeWriter(l1), asdu, now);
    var e := ReceiveI(l, ns, nr, asdu, now);
    SentIsAccepted(e.link);
    CarriesNothing(e.tx, TotalSent(l), e.link.log.accepted, l.cfg.n);
    hide ReceiveData;
  }

  /** An expected frame is taken in without an error, and the effect is as for any step. */
  lemma ReceiveActs(l: Link, f: Frame, now: int)
    requires Inv(l) && l.conn && Expected(l, f)
    ensures var e := Receive(l, f, now); Acts(l, Some(f), e.link, e.tx)
  {
    var l0 := RestartT3(l, now);
    var e := Receive(l, f, now);
    InvSame(l, l0);
    assert Expected(l0, f);
    hide Inv, Acts, ReceiveU, ReceiveS, ReceiveI, Expected;
    match f {
      case U(t) => ReceiveUActs(l0, t, now);
      case S(ext, nr) => ReceiveSActs(l0, ext, nr, now);
      case I(ns, nr, asdu) => ReceiveIActs(l0, ns, nr, asdu, now);
    }
    ActsSame(l0, l, Some(f), e.link, e.tx);
  }

  // ---- any I frame ----

  /** Data is handed up exactly in sequence: if N(R) is in the window and N(S) is the number of
      frames handed up so far, modulo n. Every other frame is answered with an S frame that says
      what is expected, and counted as what is wrong with it. */
  lemma HandedUpInSequence(l: Link, ns: nat, nr: nat, asdu: Asdu, now: int)
    requires Inv(l) && l.conn && nr < l.cfg.n
    ensures var e, n, vr := Receive(l, I(ns, nr, asdu), now), l.cfg.n, |l.log.up| % l.cfg.n;
            var acked, next := InWindow(l.num.va, l.num.vs, nr, n), ns == vr;
            && e.link.log.up == l.log.up + (if acked && next then [asdu] else [])
            && (acked && next ==> e.link.err == l.err && e.link.num.vr == (|l.log.up| + 1) % n)
            && (!(acked && next) ==> e.tx == [S(0, vr)] && e.link.num.vr == vr)
            && (!acked ==> e.link.err == Errors(l.err.nr + 1, l.err.ns))
            && (acked && !next ==> e.link.err == Errors(l.err.nr, l.err.ns + 1))
  {
    InvInRange(l);
    OkNrIsWindow(l.num.va, l.num.vs, nr, l.cfg.n);
    SuccWraps(|l.log.up|, l.cfg.n);
    hide Inv, InWindow, OkNr;
    var l0 := RestartT3(l, now);
    var l1 := WakeWriter(Acknowledge(l0, nr));
    MasterSlaveFrame(TakeI(l1, now).link, IndicationI, now);
  }

  /** An N(R) out of the window, on an S frame: refused and counted, and the expected number told. */
  lemma AcknowledgedInWindow(l: Link, ext: Byte, nr: nat, now: int)
    requires Inv(l) && l.conn && nr < l.cfg.n
    ensures var e := Receive(l, S(ext, nr), now);
            if InWindow(l.num.va, l.num.vs, nr, l.cfg.n) then
              e.link.err == l.err && |e.link.log.acked| == |l.log.acked| + Dist(nr, l.num.va, l.cfg.n)
            else
              e.link.err == Errors(l.err.nr + 1, l.err.ns) && e.link.log == l.log && e.tx == [S(0, |l.log.up| % l.cfg.n)]
  {
    InvInRange(l);
    OkNrIsWindow(l.num.va, l.num.vs, nr, l.cfg.n);
    var l0 := RestartT3(l, now);
    InvSame(l, l0);
    if OkNr(l.num.va, l.num.vs, nr, l.cfg.n) {
      AckPops(l0, nr);
      MasterSlaveFrame(Acknowledge(l0, nr), IndicationS, now);
    }
    hide Inv, InWindow, OkNr;
  }

  // ---- confirmations ----

  /** When a received frame is answered with a confirmation. A stop is confirmed with everything
      acknowledged, but for one case: data that reaches a link which has put the confirmation off. */
  lemma ConfirmsExactly(l: Link, f: Frame, now: int)
    requires Inv(l) && l.conn && (f.U? || f.nr < l.cfg.n)
    ensures var e := Receive(l, f, now);
            var acked := f.U? || InWindow(l.num.va, l.num.vs, f.nr, l.cfg.n);
            && (U(TestFrCon) in e.tx <==> f == U(TestFrAct))
            && (U(StartDtCon) in e.tx <==> f == U(StartDtAct) && (l.ssp.Stopped? || l.ssp.Started?))
            && (U(StopDtCon) in e.tx <==>
                  || (l.ssp.Started? && f == U(StopDtAct) && l.ackq == [])
                  || (l.ssp.PendingUnconfd? && f.S? && acked && e.link.ackq == [])
                  || (l.ssp.PendingUnconfd? && f.I? && acked && f.ns == |l.log.up| % l.cfg.n))
            && (U(StopDtCon) in e.tx ==> e.link.ssp.Stopped?)
            && (U(StartDtCon) in e.tx ==> e.link.ssp.Started?)
  {
    var l0 := RestartT3(l, now);
    InvSame(l, l0);
    AckQueueLength(l);
    if !f.U? { OkNrIsWindow(l.num.va, l.num.vs, f.nr, l.cfg.n); }
    hide InWindow;
    match f
    case U(t) => UConfirms(l0, t, now);
    case S(_, nr) => SConfirms(l0, nr, now);
    case I(ns, nr, asdu) => IConfirms(l0, ns, nr, asdu, now);
  }

  lemma UConfirms(l: Link, t: UType, now: int)
    requires l.conn
    ensures var e := ReceiveU(l, t, now);
            && (U(TestFrCon) in e.tx <==> t.TestFrAct?)
            && (U(StartDtCon) in e.tx <==> t.StartDtAct? && (l.ssp.Stopped? || l.ssp.Started?))
            && (U(StopDtCon) in e.tx <==> t.StopDtAct? && l.ssp.Started? && l.num.vs == l.num.va)
            && (U(StopDtCon) in e.tx ==> e.link.ssp.Stopped?) && (U(StartDtCon) in e.tx ==> e.link.ssp.Started?)
  {
  }

  lemma SConfirms(l: Link, nr: nat, now: int)
    requires Inv(l) && l.conn && nr < l.cfg.n
    ensures var e := ReceiveS(l, nr, now);
            && U(TestFrCon) !in e.tx && U(StartDtCon) !in e.tx
            && (U(StopDtCon) in e.tx <==> l.ssp.PendingUnconfd? && OkNr(l.num.va, l.num.vs, nr, l.cfg.n) && e.link.ackq == [])
            && (U(StopDtCon) in e.tx ==> e.link.ssp.Stopped?)
  {
    if OkNr(l.num.va, l.num.vs, nr, l.cfg.n) {
      InvAcknowledge(l, nr);
      AckQueueLength(Acknowledge(l, nr));
    }
    hide Inv, OkNr, FirstNs;
  }

  lemma IConfirms(l: Link, ns: nat, nr: nat, asdu: Asdu, now: int)
    requires Inv(l) && l.conn && nr < l.cfg.n
    ensures var e := ReceiveI(l, ns, nr, asdu, now);
            && U(TestFrCon) !in e.tx && U(StartDtCon) !in e.tx
            && (U(StopDtCon) in e.tx <==>
                  l.ssp.PendingUnconfd? && OkNr(l.num.va, l.num.vs, nr, l.cfg.n) && ns == |l.log.up| % l.cfg.n)
            && (U(StopDtCon) in e.tx ==> e.link.ssp.Stopped?)
  {
    hide Inv, OkNr, FirstNs, ReceiveData;
    InvInRange(l);
    DataConfirms(WakeWriter(Acknowledge(l, nr)), ns, asdu, now);
  }

  lemma DataConfirms(l: Link, ns: nat, asdu: Asdu, now: int)
    requires l.num.vapeer < l.cfg.n && l.conn
    ensures var e := ReceiveData(l, ns, asdu, now);
            && U(TestFrCon) !in e.tx && U(StartDtCon) !in e.tx
            && (U(StopDtCon) in e.tx <==> l.ssp.PendingUnconfd? && ns == l.num.vr)
            && (U(StopDtCon) in e.tx ==> e.link.ssp.Stopped?)
  {
    hide Dist;
  }
}
