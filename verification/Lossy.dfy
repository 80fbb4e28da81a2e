/** Two links joined by channels that may lose any frame: what arrives is still in sequence. */
module Lossy {
  import opened SeqNum
  import opened Options
  import opened LinkSpec
  import opened LinkProps
  import opened LinkRuns
  import opened Channel
  import opened LinkActs
  import opened Duplex

  // ---- channels with gaps ----

  /** The I frames of `ch` carry some of accepted[from..upto], in order, numbered modulo n. */
  ghost predicate Loose(ch: seq<Frame>, from: nat, upto: nat, accepted: seq<Asdu>, n: nat)
    requires 0 < n && upto <= |accepted|
  {
    if ch == [] then from <= upto
    else if ch[0].I? then
      exists j: nat :: from <= j < upto && ch[0].ns == j % n && ch[0].asdu == accepted[j]
                       && Loose(ch[1..], j + 1, upto, accepted, n)
    else Loose(ch[1..], from, upto, accepted, n)
  }

  /** The acknowledgements of `ch` are numbers from..top, never falling, modulo n. */
  ghost predicate Acking(ch: seq<Frame>, from: nat, top: nat, n: nat)
    requires 0 < n
  {
    if ch == [] then from <= top
    else if ch[0].U? then Acking(ch[1..], from, top, n)
    else exists t: nat :: from <= t <= top && ch[0].nr == t % n && Acking(ch[1..], t, top, n)
  }

  lemma {:induction false} LooseFrom(ch: seq<Frame>, from: nat, from': nat, upto: nat, accepted: seq<Asdu>, n: nat)
    requires 0 < n && upto <= |accepted| && Loose(ch, from, upto, accepted, n) && from' <= from
    ensures Loose(ch, from', upto, accepted, n) && from <= upto
    decreases |ch|
  {
    if ch != [] {
      if ch[0].I? {
        var j: nat :| from <= j < upto && ch[0].ns == j % n && ch[0].asdu == accepted[j]
                      && Loose(ch[1..], j + 1, upto, accepted, n);
      } else {
        LooseFrom(ch[1..], from, from', upto, accepted, n);
      }
    }
  }

  lemma {:induction false} AckingFrom(ch: seq<Frame>, from: nat, from': nat, top: nat, n: nat)
    requires 0 < n && Acking(ch, from, top, n) && from' <= from
    ensures Acking(ch, from', top, n) && from <= top
    decreases |ch|
  {
    if ch != [] {
      if ch[0].U? {
        AckingFrom(ch[1..], from, from', top, n);
      } else {
        var t: nat :| from <= t <= top && ch[0].nr == t % n && Acking(ch[1..], t, top, n);
      }
    }
  }

  lemma NextData(ch: seq<Frame>, from: nat, upto: nat, accepted: seq<Asdu>, n: nat) returns (j: nat)
    requires 0 < n && upto <= |accepted| && Loose(ch, from, upto, accepted, n) && ch != [] && ch[0].I?
    ensures from <= j < upto && ch[0].ns == j % n && ch[0].asdu == accepted[j] && Loose(ch[1..], j + 1, upto, accepted, n)
  {
    j :| from <= j < upto && ch[0].ns == j % n && ch[0].asdu == accepted[j] && Loose(ch[1..], j + 1, upto, accepted, n);
  }

  lemma OtherNext(ch: seq<Frame>, from: nat, upto: nat, accepted: seq<Asdu>, n: nat)
    requires 0 < n && upto <= |accepted| && ch != [] && !ch[0].I?
    ensures Loose(ch, from, upto, accepted, n) <==> Loose(ch[1..], from, upto, accepted, n)
  {
  }

  lemma DataFirst(ch: seq<Frame>, from: nat, j: nat, upto: nat, accepted: seq<Asdu>, n: nat)
    requires 0 < n && upto <= |accepted| && ch != [] && ch[0].I?
    requires from <= j < upto && ch[0].ns == j % n && ch[0].asdu == accepted[j] && Loose(ch[1..], j + 1, upto, accepted, n)
    ensures Loose(ch, from, upto, accepted, n)
  {
  }

  lemma Without(ch: seq<Frame>, i: nat)
    requires i < |ch|
    ensures var r := ch[..i] + ch[i + 1..];
            if i == 0 then r == ch[1..] else r[0] == ch[0] && r[1..] == ch[1..][..i - 1] + ch[1..][i..]
  {
  }

  /** Losing a frame leaves one more gap. */
  lemma {:induction false} LooseLoses(ch: seq<Frame>, i: nat, from: nat, upto: nat, accepted: seq<Asdu>, n: nat)
    requires 0 < n && upto <= |accepted| && Loose(ch, from, upto, accepted, n) && i < |ch|
    ensures Loose(ch[..i] + ch[i + 1..], from, upto, accepted, n)
    decreases i
  {
    hide Loose;
    Without(ch, i);
    var r := ch[..i] + ch[i + 1..];
    if ch[0].I? {
      var j := NextData(ch, from, upto, accepted, n);
      if i == 0 {
        LooseFrom(ch[1..], j + 1, from, upto, accepted, n);
      } else {
        LooseLoses(ch[1..], i - 1, j + 1, upto, accepted, n);
        DataFirst(r, from, j, upto, accepted, n);
      }
    } else {
      OtherNext(ch, from, upto, accepted, n);
      if i > 0 {
        LooseLoses(ch[1..], i - 1, from, upto, accepted, n);
        OtherNext(r, from, upto, accepted, n);
      }
    }
  }

  lemma {:induction false} AckingLoses(ch: seq<Frame>, i: nat, from: nat, top: nat, n: nat)
    requires 0 < n && Acking(ch, from, top, n) && i < |ch|
    ensures Acking(ch[..i] + ch[i + 1..], from, top, n)
    decreases i
  {
    Without(ch, i);
    if i == 0 {
      if !ch[0].U? {
        var t: nat :| from <= t <= top && ch[0].nr == t % n && Acking(ch[1..], t, top, n);
        AckingFrom(ch[1..], t, from, top, n);
      }
    } else {
      if ch[0].U? {
        AckingLoses(ch[1..], i - 1, from, top, n);
      } else {
        var t: nat :| from <= t <= top && ch[0].nr == t % n && Acking(ch[1..], t, top, n);
        AckingLoses(ch[1..], i - 1, t, top, n);
      }
    }
  }

  /** Frames written later carry on, even if more data was accepted. */
  lemma {:induction false} LooseAppend(
    ch: seq<Frame>, tx: seq<Frame>, from: nat, mid: nat, upto: nat,
    accepted: seq<Asdu>, accepted': seq<Asdu>, n: nat)
    requires 0 < n && mid <= |accepted| && upto <= |accepted'| && accepted <= accepted'
    requires Loose(ch, from, mid, accepted, n) && Carries(tx, mid, upto, accepted', n)
    ensures Loose(ch + tx, from, upto, accepted', n)
    decreases |ch|
  {
    CarriesForward(tx, mid, upto, accepted', n);
    if ch == [] {
      assert ch + tx == tx;
      CarriesLoosely(tx, mid, upto, accepted', n);
      LooseFrom(tx, mid, from, upto, accepted', n);
    } else {
      assert (ch + tx)[1..] == ch[1..] + tx;
      if ch[0].I? {
        var j: nat :| from <= j < mid && ch[0].ns == j % n && ch[0].asdu == accepted[j]
                      && Loose(ch[1..], j + 1, mid, accepted, n);
        LooseAppend(ch[1..], tx, j + 1, mid, upto, accepted, accepted', n);
      } else {
        LooseAppend(ch[1..], tx, from, mid, upto, accepted, accepted', n);
      }
    }
  }

  lemma {:induction false} CarriesLoosely(ch: seq<Frame>, from: nat, upto: nat, accepted: seq<Asdu>, n: nat)
    requires 0 < n && upto <= |accepted| && Carries(ch, from, upto, accepted, n)
    ensures Loose(ch, from, upto, accepted, n)
    decreases |ch|
  {
    if ch != [] {
      CarriesLoosely(ch[1..], if ch[0].I? then from + 1 else from, upto, accepted, n);
    }
  }

  lemma {:induction false} AckingAppend(ch: seq<Frame>, tx: seq<Frame>, from: nat, top: nat, top': nat, n: nat)
    requires 0 < n && Acking(ch, from, top, n) && AllAck(tx, top' % n) && top <= top'
    ensures Acking(ch + tx, from, top', n)
    decreases |ch|
  {
    if ch == [] {
      assert ch + tx == tx;
      AckingAll(tx, from, top', n);
    } else {
      assert (ch + tx)[1..] == ch[1..] + tx;
      if ch[0].U? {
        AckingAppend(ch[1..], tx, from, top, top', n);
      } else {
        var t: nat :| from <= t <= top && ch[0].nr == t % n && Acking(ch[1..], t, top, n);
        AckingAppend(ch[1..], tx, t, top, top', n);
      }
    }
  }

  lemma {:induction false} AckingAll(tx: seq<Frame>, from: nat, top: nat, n: nat)
    requires 0 < n && AllAck(tx, top % n) && from <= top
    ensures Acking(tx, from, top, n)
    decreases |tx|
  {
    if tx != [] {
      assert tx[0] in tx && forall f :: f in tx[1..] ==> f in tx;
      AckingAll(tx[1..], if tx[0].U? then from else top, top, n);
    }
  }

  // ---- one operation ----

  /** As `Acts`, for a frame that may be out of sequence. */
  ghost predicate LooseActs(l: Link, f: Option<Frame>, l': Link, tx: seq<Frame>)
    requires Inv(l)
  {
    && Inv(l') && l'.cfg == l.cfg && l'.conn && l'.err.nr == l.err.nr
    && TotalAcked(l') == (if f.Some? then NextAcked(f.value, TotalAcked(l), l.cfg.n) else TotalAcked(l))
    && l.log.accepted <= l'.log.accepted
    && TotalSent(l') <= |l'.log.accepted|
    && Carries(tx, TotalSent(l), TotalSent(l'), l'.log.accepted, l.cfg.n)
    && l'.log.up == l.log.up + (if f.Some? && f.value.I? && f.value.ns == l.num.vr then [f.value.asdu] else [])
    && AllAck(tx, l'.num.vr)
  }

  /** Data out of sequence is acknowledged with what was expected, and not handed up. */
  lemma OutOfSequence(l: Link, ns: nat, nr: nat, asdu: Asdu, now: int)
    requires Inv(l) && l.conn && nr < l.cfg.n && OkNr(l.num.va, l.num.vs, nr, l.cfg.n) && ns != l.num.vr
    ensures var e := Receive(l, I(ns, nr, asdu), now); LooseActs(l, Some(I(ns, nr, asdu)), e.link, e.tx)
  {
    var l0 := RestartT3(l, now);
    InvSame(l, l0);
    AcknowledgeMeets(l0, nr);
    var l1 := WakeWriter(Acknowledge(l0, nr));
    InvSame(Acknowledge(l0, nr), l1);
    var l2 := CountBadNs(l1);
    InvSame(l1, l2);
    ConfirmActs(l2);
    hide Inv, OkNr, Carries, Acknowledge;
  }

  lemma ReceivesLoosely(l: Link, f: Frame, now: int)
    requires Inv(l) && l.conn && (f.U? || (f.nr < l.cfg.n && OkNr(l.num.va, l.num.vs, f.nr, l.cfg.n)))
    ensures var e := Receive(l, f, now); LooseActs(l, Some(f), e.link, e.tx)
  {
    if f.I? && f.ns != l.num.vr {
      OutOfSequence(l, f.ns, f.nr, f.asdu, now);
    } else {
      ReceiveActs(l, f, now);
      hide Inv, Carries, Receive;
    }
  }

  // ---- one direction ----

  ghost predicate LooseDirection(x: Link, y: Link, xy: seq<Frame>, yx: seq<Frame>)
  {
    && Inv(x) && Inv(y) && x.cfg.n == y.cfg.n && x.conn && y.conn && x.err.nr == y.err.nr == 0
    && TotalSent(x) <= |x.log.accepted| && y.log.up <= x.log.accepted
    && Loose(xy, TotalTaken(y), TotalSent(x), x.log.accepted, x.cfg.n)
    && Reduced(yx, x.cfg.n) && Acking(yx, TotalAcked(x), TotalTaken(y), x.cfg.n)
  }

  lemma Between(x: Link, y: Link, xy: seq<Frame>, yx: seq<Frame>)
    requires LooseDirection(x, y, xy, yx)
    ensures TotalAcked(x) <= TotalTaken(y) <= TotalSent(x) < TotalAcked(x) + x.cfg.n
    ensures x.num.va == TotalAcked(x) % x.cfg.n && x.num.vs == TotalSent(x) % x.cfg.n
    ensures y.num.vr == TotalTaken(y) % x.cfg.n && x.num.va < x.cfg.n
  {
    LooseFrom(xy, TotalTaken(y), TotalTaken(y), TotalSent(x), x.log.accepted, x.cfg.n);
    AckingFrom(yx, TotalAcked(x), TotalAcked(x), TotalTaken(y), x.cfg.n);
  }

  lemma NextAck(ch: seq<Frame>, from: nat, top: nat, n: nat) returns (t: nat)
    requires 0 < n && Acking(ch, from, top, n) && ch != [] && !ch[0].U?
    ensures from <= t <= top && ch[0].nr == t % n && Acking(ch[1..], t, top, n)
  {
    t :| from <= t <= top && ch[0].nr == t % n && Acking(ch[1..], t, top, n);
  }

  /** An acknowledgement taken off the channel is in the window, and moves V(A) along with it. */
  lemma AckTaken(x: Link, y: Link, xy: seq<Frame>, yx: seq<Frame>)
    requires LooseDirection(x, y, xy, yx) && yx != [] && !yx[0].U?
    ensures yx[0].nr < x.cfg.n && x.num.va < x.cfg.n && OkNr(x.num.va, x.num.vs, yx[0].nr, x.cfg.n)
    ensures var t := NextAcked(yx[0], TotalAcked(x), x.cfg.n);
            t <= TotalTaken(y) && Acking(yx[1..], t, TotalTaken(y), x.cfg.n)
  {
    hide Inv, Loose, Acking, Dist;
    Between(x, y, xy, yx);
    var n := x.cfg.n;
    var t := NextAck(yx, TotalAcked(x), TotalTaken(y), n);
    DistExact(t, TotalAcked(x), n);
    DistExact(TotalSent(x), TotalAcked(x), n);
    assert yx[0] in yx;
  }

  lemma FirstIsFine(x: Link, y: Link, xy: seq<Frame>, yx: seq<Frame>)
    requires LooseDirection(x, y, xy, yx) && yx != []
    ensures x.num.va < x.cfg.n
    ensures yx[0].U? || (yx[0].nr < x.cfg.n && OkNr(x.num.va, x.num.vs, yx[0].nr, x.cfg.n))
  {
    Between(x, y, xy, yx);
    if !yx[0].U? { AckTaken(x, y, xy, yx); }
  }

  /** x acts as the sender; the frame it takes in, if any, comes from y. */
  lemma SendsLoosely(x: Link, y: Link, xy: seq<Frame>, yx: seq<Frame>, f: Option<Frame>, x': Link, tx: seq<Frame>)
    requires LooseDirection(x, y, xy, Opt(f) + yx) && LooseActs(x, f, x', tx)
    ensures LooseDirection(x', y, xy + tx, yx)
  {
    var all := Opt(f) + yx;
    LooseAppend(xy, tx, TotalTaken(y), TotalSent(x), TotalSent(x'), x.log.accepted, x'.log.accepted, x.cfg.n);
    if f.Some? {
      assert all[0] == f.value && all[1..] == yx;
      if !f.value.U? { AckTaken(x, y, xy, all); }
    } else {
      assert all == yx;
    }
    hide Inv;
    assert forall g :: g in yx ==> g in all;
  }

  /** y acts as the receiver; the frame it takes in, if any, comes from x. */
  lemma ReceivesFrom(x: Link, y: Link, xy: seq<Frame>, yx: seq<Frame>, f: Option<Frame>, y': Link, tx: seq<Frame>)
    requires LooseDirection(x, y, Opt(f) + xy, yx) && LooseActs(y, f, y', tx)
    ensures LooseDirection(x, y', xy, yx + tx)
  {
    var all, n := Opt(f) + xy, x.cfg.n;
    Between(x, y, all, yx);
    if f.Some? {
      assert all[0] == f.value && all[1..] == xy;
      if f.value.I? { DataTaken(x, y, all, yx); }
    } else {
      assert all == xy;
    }
    AckingAppend(yx, tx, TotalAcked(x), TotalTaken(y), TotalTaken(y'), n);
    AcksReduced(y', tx);
  }

  lemma AcksReduced(l: Link, tx: seq<Frame>)
    requires Inv(l) && AllAck(tx, l.num.vr)
    ensures Reduced(tx, l.cfg.n) && l.num.vr == TotalTaken(l) % l.cfg.n
  {
  }

  /** A data frame taken off the channel is in sequence exactly if it is the very next one. */
  lemma DataTaken(x: Link, y: Link, xy: seq<Frame>, yx: seq<Frame>)
    requires LooseDirection(x, y, xy, yx) && xy != [] && xy[0].I?
    ensures var c, n := TotalTaken(y), x.cfg.n;
            if xy[0].ns == y.num.vr then
              c < TotalSent(x) && xy[0].asdu == x.log.accepted[c] && Loose(xy[1..], c + 1, TotalSent(x), x.log.accepted, n)
            else Loose(xy[1..], c, TotalSent(x), x.log.accepted, n)
  {
    Between(x, y, xy, yx);
    var c, n, upto, acc := TotalTaken(y), x.cfg.n, TotalSent(x), x.log.accepted;
    var j: nat :| c <= j < upto && xy[0].ns == j % n && xy[0].asdu == acc[j] && Loose(xy[1..], j + 1, upto, acc, n);
    LooseFrom(xy[1..], j + 1, c, upto, acc, n);
    if xy[0].ns == y.num.vr { WrapInjective(c, j, n); }
    hide Inv;
  }

  // ---- the system ----

  datatype LossyStep = Usual(st: Step) | Lose(side: Side, i: nat)

  function Drop(ch: seq<Frame>, i: nat): seq<Frame> { if i < |ch| then ch[..i] + ch[i + 1..] else ch }

  ghost predicate CanLose(s: System, st: LossyStep) { st.Usual? ==> Can(s, st.st) }

  function AfterLoss(s: System, st: LossyStep): System
    requires CanLose(s, st)
  {
    match st
    case Usual(u) => Next(s, u)
    case Lose(SideA, i) => s.(ab := Drop(s.ab, i))
    case Lose(SideB, i) => s.(ba := Drop(s.ba, i))
  }

  ghost predicate LossyReaches(cfgA: Config, cfgB: Config, now: int, run: seq<LossyStep>, s: System)
  {
    if run == [] then s == Start(cfgA, cfgB, now)
    else
      var m := |run| - 1;
      exists p :: LossyReaches(cfgA, cfgB, now, run[..m], p) && CanLose(p, run[m]) && s == AfterLoss(p, run[m])
  }

  ghost predicate LooseInv(s: System)
  {
    LooseDirection(s.a, s.b, s.ab, s.ba) && LooseDirection(s.b, s.a, s.ba, s.ab)
  }

  lemma ActsLoosely(l: Link, op: Op, now: int)
    requires Inv(l) && l.conn && Local(l, op, now)
    ensures InRange(l) && Enabled(l, op)
    ensures var e := Apply(l, op, now); LooseActs(l, None, e.link, e.tx)
  {
    InvInRange(l);
    LocalActs(l, op, now);
    hide Inv, Carries, Apply;
  }

  lemma LooseLinks(s: System)
    requires LooseInv(s)
    ensures Inv(s.a) && Inv(s.b) && InRange(s.a) && InRange(s.b) && s.a.conn && s.b.conn
    ensures s.a.cfg.n == s.b.cfg.n && s.a.err.nr == s.b.err.nr == 0
  {
  }

  lemma ActLoose(s: System, op: Op, now: int)
    requires LooseInv(s) && CanAct(s, op, now)
    ensures LooseInv(ActA(s, op, now)) && SameEnds(s, ActA(s, op, now))
  {
    hide Inv, LooseDirection, Apply, Local;
    LooseLinks(s);
    ActsLoosely(s.a, op, now);
    var e := Apply(s.a, op, now);
    assert Opt(None) + s.ba == s.ba;
    SendsLoosely(s.a, s.b, s.ab, s.ba, None, e.link, e.tx);
    ReceivesFrom(s.b, s.a, s.ba, s.ab, None, e.link, e.tx);
  }

  lemma DeliverLoose(s: System, now: int)
    requires LooseInv(s) && CanDeliver(s)
    ensures LooseInv(DeliverA(s, now)) && SameEnds(s, DeliverA(s, now))
  {
    hide Inv, LooseDirection, Receive, OkNr;
    LooseLinks(s);
    var f := s.ba[0];
    FirstIsFine(s.a, s.b, s.ab, s.ba);
    ReceivesLoosely(s.a, f, now);
    var e := Receive(s.a, f, now);
    assert Opt(Some(f)) + s.ba[1..] == s.ba;
    SendsLoosely(s.a, s.b, s.ab, s.ba[1..], Some(f), e.link, e.tx);
    ReceivesFrom(s.b, s.a, s.ba[1..], s.ab, Some(f), e.link, e.tx);
  }

  lemma LoseLoose(s: System, i: nat)
    requires LooseInv(s)
    ensures LooseInv(s.(ab := Drop(s.ab, i)))
  {
    if i < |s.ab| {
      LooseLoses(s.ab, i, TotalTaken(s.b), TotalSent(s.a), s.a.log.accepted, s.a.cfg.n);
      AckingLoses(s.ab, i, TotalAcked(s.b), TotalTaken(s.a), s.b.cfg.n);
      assert forall f :: f in Drop(s.ab, i) ==> f in s.ab;
      hide Inv;
    }
  }

  lemma FreshLoose(x: Link, y: Link, xy: seq<Frame>, yx: seq<Frame>)
    requires Inv(x) && Inv(y) && x.cfg.n == y.cfg.n && x.conn && y.conn && x.err.nr == y.err.nr == 0
    requires x.log.acked == [] && x.ackq == [] && y.log.up == []
    requires forall f :: f in xy + yx ==> f.U?
    ensures LooseDirection(x, y, xy, yx)
  {
    assert forall f :: f in xy ==> f in xy + yx;
    assert forall f :: f in yx ==> f in xy + yx;
    CarriesNothing(xy, 0, x.log.accepted, x.cfg.n);
    CarriesLoosely(xy, 0, 0, x.log.accepted, x.cfg.n);
    AckingAll(yx, 0, 0, x.cfg.n);
  }

  lemma ReconnectLoose(s: System, now: int)
    requires Inv(s.a) && Inv(s.b) && s.a.cfg.n == s.b.cfg.n && s.a.err.nr == s.b.err.nr == 0
    ensures LooseInv(ReconnectAll(s, now)) && SameEnds(s, ReconnectAll(s, now))
  {
    hide LooseDirection, Inv, Connect, Disconnect;
    ConnectedLoose(s.a, now);
    ConnectedLoose(s.b, now);
    var t := ReconnectAll(s, now);
    FreshLoose(t.a, t.b, t.ab, t.ba);
    FreshLoose(t.b, t.a, t.ba, t.ab);
  }

  lemma ConnectedLoose(l: Link, now: int)
    requires Inv(l) && l.err.nr == 0
    ensures var e := Connect(Disconnect(l), now);
            Inv(e.link) && e.link.conn && e.link.err.nr == 0 && e.link.cfg == l.cfg
            && e.link.log.acked == [] && e.link.log.up == [] && e.link.ackq == []
            && forall f :: f in e.tx ==> f.U?
  {
    InvDisconnect(l);
    InvConnect(Disconnect(l), now);
    MasterSlaveFrame(Disconnect(l).(conn := true, mode := PollIn), TcpUp, now);
  }

  lemma StepLoose(s: System, st: LossyStep)
    requires LooseInv(s) && CanLose(s, st)
    ensures LooseInv(AfterLoss(s, st)) && SameEnds(s, AfterLoss(s, st))
  {
    LooseLinks(s);
    hide LooseDirection, Inv;
    match st
    case Usual(Act(SideA, op, now)) => ActLoose(s, op, now);
    case Usual(Act(SideB, op, now)) => ActLoose(s.Swap(), op, now);
    case Usual(Deliver(SideA, now)) => DeliverLoose(s, now);
    case Usual(Deliver(SideB, now)) => DeliverLoose(s.Swap(), now);
    case Usual(Reconnect(now)) => ReconnectLoose(s, now);
    case Lose(SideA, i) => LoseLoose(s, i);
    case Lose(SideB, i) => LoseLoose(s.Swap(), i);
  }

  /** Delivery over channels that may lose any frame at any time: what each end hands up is still a
      prefix of what the other has accepted, and no acknowledgement is ever refused. */
  lemma {:induction false} DeliveryInSequence(cfgA: Config, cfgB: Config, now: int, run: seq<LossyStep>, s: System)
    requires Compatible(cfgA, cfgB) && LossyReaches(cfgA, cfgB, now, run, s)
    ensures s.b.log.up <= s.a.log.accepted && s.a.log.up <= s.b.log.accepted
    ensures s.a.err.nr == s.b.err.nr == 0
    ensures LooseInv(s) && s.a.cfg == cfgA && s.b.cfg == cfgB
  {
    if run == [] {
      FreshInv(cfgA);
      FreshInv(cfgB);
      ReconnectLoose(System(Fresh(cfgA), Fresh(cfgB), [], []), now);
    } else {
      var m := |run| - 1;
      var p :| LossyReaches(cfgA, cfgB, now, run[..m], p) && CanLose(p, run[m]) && s == AfterLoss(p, run[m]);
      DeliveryInSequence(cfgA, cfgB, now, run[..m], p);
      StepLoose(p, run[m]);
    }
  }
}
