/** The T1 timer of the I frames, said from the frames written: no frame stays unacknowledged for t1. */
module AckWatch {
  import opened SeqNum
  import opened LinkSpec
  import opened LinkProps
  import opened LinkRuns
  import opened Watchdog

  function DataFrames(tx: seq<Frame>): nat
  {
    if tx == [] then 0 else (if tx[0].I? then 1 else 0) + DataFrames(tx[1..])
  }

  function Times(at: int, m: nat): (ts: seq<int>)
    ensures |ts| == m && forall i :: 0 <= i < m ==> ts[i] == at
  {
    seq(m, _ => at)
  }

  /** The times at which the I frames of the connection were written, in order. */
  function Written(j: seq<Note>): seq<int>
  {
    if j == [] then []
    else
      var n := j[|j| - 1];
      Written(j[..|j| - 1]) + Times(n.at, DataFrames(n.wrote))
  }

  /** The ack queue keeps the times of the frames that are not acknowledged yet. */
  predicate Dated(l: Link, ts: seq<int>)
  {
    |ts| == TotalSent(l) && forall i :: 0 <= i < |l.ackq| ==> l.ackq[i].at == ts[TotalAcked(l) + i]
  }

  lemma {:induction false} OnlyData(tx: seq<Frame>)
    requires forall f :: f in tx ==> f.I?
    ensures DataFrames(tx) == |tx|
  {
    if tx != [] {
      assert tx[0] in tx && forall f :: f in tx[1..] ==> f in tx;
      OnlyData(tx[1..]);
    }
  }

  lemma {:induction false} NoData(tx: seq<Frame>)
    requires forall f :: f in tx ==> !f.I?
    ensures DataFrames(tx) == 0
  {
    if tx != [] {
      assert tx[0] in tx && forall f :: f in tx[1..] ==> f in tx;
      NoData(tx[1..]);
    }
  }

  lemma RunOutDated(l: Link, budget: nat, now: int, ts: seq<int>)
    requires Inv(l) && InRange(l) && Dated(l, ts)
    ensures var e := RunOut(l, budget, now); Dated(e.link, ts + Times(now, DataFrames(e.tx)))
  {
    var e := RunOut(l, budget, now);
    InvRunOut(l, budget, now);
    hide Inv;
    OnlyData(e.tx);
  }

  lemma ReceiveDated(l: Link, f: Frame, now: int, ts: seq<int>)
    requires InRange(l) && l.conn && (f.U? || f.nr < l.cfg.n) && Dated(l, ts)
    ensures var e := Receive(l, f, now); Dated(e.link, ts) && DataFrames(e.tx) == 0
  {
    hide OkNr, ReceiveU, ReceiveS, ReceiveI;
    var l1 := RestartT3(l, now);
    match f
    case U(t) => ReceiveUDated(l1, t, now, ts);
    case S(_, nr) => ReceiveSDated(l1, nr, now, ts);
    case I(ns, nr, asdu) => ReceiveIDated(l1, ns, nr, asdu, now, ts);
  }

  lemma ReceiveUDated(l: Link, t: UType, now: int, ts: seq<int>)
    requires Dated(l, ts)
    ensures var e := ReceiveU(l, t, now); Dated(e.link, ts) && DataFrames(e.tx) == 0
  {
    NoData(ReceiveU(l, t, now).tx);
  }

  lemma ReceiveSDated(l: Link, nr: nat, now: int, ts: seq<int>)
    requires InRange(l) && Dated(l, ts)
    ensures var e := ReceiveS(l, nr, now); Dated(e.link, ts) && DataFrames(e.tx) == 0
  {
    hide OkNr, Acknowledge;
    AckDated(l, nr, ts);
    NoData(ReceiveS(l, nr, now).tx);
  }

  lemma ReceiveIDated(l: Link, ns: nat, nr: nat, asdu: Asdu, now: int, ts: seq<int>)
    requires InRange(l) && Dated(l, ts)
    ensures var e := ReceiveI(l, ns, nr, asdu, now); Dated(e.link, ts) && DataFrames(e.tx) == 0
  {
    hide OkNr, FirstNs, ReceiveData;
    AckDated(l, nr, ts);
    DataKeepsQueue(WakeWriter(Acknowledge(l, nr)), ns, asdu, now);
    NoData(ReceiveI(l, ns, nr, asdu, now).tx);
  }

  lemma AckDated(l: Link, nr: nat, ts: seq<int>)
    requires Dated(l, ts)
    ensures Dated(Acknowledge(l, nr), ts) && Dated(WakeWriter(Acknowledge(l, nr)), ts)
  {
    hide FirstNs;
  }

  lemma DataKeepsQueue(l: Link, ns: nat, asdu: Asdu, now: int)
    requires l.num.vapeer < l.cfg.n
    ensures var e := ReceiveData(l, ns, asdu, now);
            e.link.ackq == l.ackq && e.link.log.acked == l.log.acked && forall f :: f in e.tx ==> !f.I?
  {
    hide Dist;
  }

  lemma QuietDated(l: Link, l': Link, tx: seq<Frame>, ts: seq<int>)
    requires Dated(l, ts) && l'.ackq == l.ackq && l'.log.acked == l.log.acked && forall f :: f in tx ==> !f.I?
    ensures Dated(l', ts) && DataFrames(tx) == 0
  {
    NoData(tx);
  }

  lemma ApplyDated(l: Link, op: Op, now: int, ts: seq<int>)
    requires Inv(l) && InRange(l) && Enabled(l, op) && Dated(l, ts) && Apply(l, op, now).link.conn
    ensures var e := Apply(l, op, now); Dated(e.link, ts + Times(now, DataFrames(e.tx)))
  {
    var e := Apply(l, op, now);
    assert ts + Times(now, 0) == ts;
    hide Inv, Dated, Receive, RunOut;
    match op
    case OpRunOut(budget) => RunOutDated(l, budget, now, ts);
    case OpReceive(f) => ReceiveDated(l, f, now, ts);
    case _ => QuietDated(l, e.link, e.tx, ts);
  }

  lemma {:induction false} KeptDated(cfg: Config, run: seq<Timed>, l: Link, j: seq<Note>)
    requires cfg.Valid() && Kept(cfg, run, l, j)
    ensures Inv(l) && l.cfg == cfg && Dated(l, Written(j)) && (!l.conn ==> j == [])
  {
    hide Apply, Enabled, Inv;
    if run == [] {
      FreshInv(cfg);
    } else {
      var m := |run| - 1;
      var p, i :| Kept(cfg, run[..m], p, i) && StepTo(p, run[m], l) && j == Noted(i, p, run[m].op, run[m].now);
      KeptDated(cfg, run[..m], p, i);
      StepKeepsInv(p, run[m], l);
      if l.conn {
        ApplyDated(p, run[m].op, run[m].now, Written(i));
        assert j == i + [NoteOf(p, run[m].op, run[m].now)] && j[..|j| - 1] == i;
      } else {
        ClosedHasNothing(l);
      }
    }
  }

  lemma ClosedHasNothing(l: Link)
    requires Inv(l) && !l.conn
    ensures Dated(l, [])
  {
  }

  /** The supervision of data: a check of the ack queue ends the connection exactly if some data
      frame that was written t1 ago or earlier has not been acknowledged. */
  lemma AckTickExactly(cfg: Config, run: seq<Timed>, l: Link, j: seq<Note>, now: int)
    requires cfg.Valid() && Kept(cfg, run, l, j) && Clock(run) && l.conn && LastTime(run) <= now && 0 < now
    ensures |Written(j)| == TotalSent(l)
    ensures !AckTimer(l, now).conn <==>
            exists i :: TotalAcked(l) <= i < |Written(j)| && now - Written(j)[i] >= cfg.t1
  {
    hide Inv, Kept, Written, Clock, Disconnect;
    KeptDated(cfg, run, l, j);
    WrittenBefore(cfg, run, l, j);
    DatedLength(l, Written(j));
    var w, a := Written(j), TotalAcked(l);
    EndedIfOverdue(l, now);
    if !AckTimer(l, now).conn {
      var i :| 0 <= i < |l.ackq| && Abs(now - l.ackq[i].at) >= cfg.t1;
      assert w[a + i] == l.ackq[i].at;
    }
    forall i | a <= i < |w| && now - w[i] >= cfg.t1 ensures !AckTimer(l, now).conn {
      assert l.ackq[i - a].at == w[i];
    }
  }

  lemma EndedIfOverdue(l: Link, now: int)
    requires l.conn
    ensures !AckTimer(l, now).conn <==> exists i :: 0 <= i < |l.ackq| && Abs(now - l.ackq[i].at) >= l.cfg.t1
  {
  }

  lemma DatedLength(l: Link, ts: seq<int>)
    requires Inv(l) && Dated(l, ts)
    ensures |ts| == TotalAcked(l) + |l.ackq|
  {
  }

  lemma WrittenBefore(cfg: Config, run: seq<Timed>, l: Link, j: seq<Note>)
    requires cfg.Valid() && Kept(cfg, run, l, j) && Clock(run)
    ensures forall i :: 0 <= i < |Written(j)| ==> Written(j)[i] <= LastTime(run)
  {
    KeptTells(cfg, run, l, j);
    hide Shows, LastHeard;
    WrittenTimes(j, LastTime(run));
  }

  lemma {:induction false} WrittenTimes(j: seq<Note>, last: int)
    requires Clocked(j, last)
    ensures forall i :: 0 <= i < |Written(j)| ==> Written(j)[i] <= last
    decreases |j|
  {
    if j != [] { WrittenTimes(j[..|j| - 1], last); }
  }
}
