/** What the error counters count. */
module Refusals {
  import opened SeqNum
  import opened LinkSpec
  import opened LinkProps
  import opened LinkRuns
  import opened LinkActs

  /** The acknowledgement of `f` is none that could have been sent. */
  ghost predicate BadNr(l: Link, f: Frame)
    requires InRange(l)
  {
    !f.U? && !InWindow(l.num.va, l.num.vs, f.nr, l.cfg.n)
  }

  /** The data of `f` is not the next. */
  ghost predicate BadNs(l: Link, f: Frame)
    requires InRange(l)
  {
    f.I? && !BadNr(l, f) && f.ns != |l.log.up| % l.cfg.n
  }

  /** Counts refused frames; a disconnect in full starts again. */
  ghost function Tally(c: Errors, l: Link, op: Op, now: int): Errors
    requires InRange(l) && Enabled(l, op)
  {
    if op.OpDisconnect? || (l.conn && !Apply(l, op, now).link.conn) then (if l.cfg.FullReset() then Errors(0, 0) else c)
    else if op.OpReceive? && BadNr(l, op.f) then c.(nr := c.nr + 1)
    else if op.OpReceive? && BadNs(l, op.f) then c.(ns := c.ns + 1)
    else c
  }

  ghost predicate Tallied(cfg: Config, run: seq<Timed>, l: Link, c: Errors)
  {
    if run == [] then l == Fresh(cfg) && c == Errors(0, 0)
    else
      var m := |run| - 1;
      exists p, b :: Tallied(cfg, run[..m], p, b) && StepTo(p, run[m], l) && c == Tally(b, p, run[m].op, run[m].now)
  }

  lemma OtherOps(l: Link, op: Op, now: int)
    requires Inv(l) && InRange(l) && Enabled(l, op) && !op.OpReceive?
    ensures var r := Apply(l, op, now).link;
            if op.OpDisconnect? || (l.conn && !r.conn) then r.err == (if l.cfg.FullReset() then Errors(0, 0) else l.err)
            else r.err == l.err
  {
    match op
    case OpRequest(t) => MasterSlaveFrame(l, Request(t), now);
    case OpConnect => MasterSlaveFrame(l.(conn := true, mode := PollIn), TcpUp, now);
    case _ =>
  }

  lemma ReceiveTally(l: Link, f: Frame, now: int)
    requires Inv(l) && InRange(l) && l.conn && (f.U? || f.nr < l.cfg.n)
    ensures var r := Receive(l, f, now).link;
            r.conn && r.err == if BadNr(l, f) then l.err.(nr := l.err.nr + 1)
                               else if BadNs(l, f) then l.err.(ns := l.err.ns + 1) else l.err
  {
    match f
    case U(t) => UKeepsErrors(l, t, now);
    case S(ext, nr) =>
      AcknowledgedInWindow(l, ext, nr, now);
      StaysConnected(l, f, now);
    case I(ns, nr, asdu) =>
      HandedUpInSequence(l, ns, nr, asdu, now);
      StaysConnected(l, f, now);
  }

  lemma UKeepsErrors(l: Link, t: UType, now: int)
    requires InRange(l) && l.conn
    ensures var r := Receive(l, U(t), now).link; r.conn && r.err == l.err
  {
  }

  lemma StaysConnected(l: Link, f: Frame, now: int)
    requires InRange(l) && l.conn
    ensures Receive(l, f, now).link.conn
  {
    hide OkNr, FirstNs, Dist;
  }

  /** In every run the counters say how many frames were refused since the last full reset: for an
      acknowledgement outside the window, and for data out of sequence. */
  lemma {:induction false} ErrorsCounted(cfg: Config, run: seq<Timed>, l: Link, c: Errors)
    requires cfg.Valid() && Tallied(cfg, run, l, c)
    ensures Inv(l) && l.cfg == cfg && l.err == c
  {
    hide Inv, Apply, Receive, BadNr, BadNs, Enabled;
    if run == [] {
      FreshInv(cfg);
    } else {
      var m := |run| - 1;
      var p, b :| Tallied(cfg, run[..m], p, b) && StepTo(p, run[m], l) && c == Tally(b, p, run[m].op, run[m].now);
      ErrorsCounted(cfg, run[..m], p, b);
      StepKeepsInv(p, run[m], l);
      StepTally(p, run[m].op, run[m].now);
    }
  }

  lemma StepTally(l: Link, op: Op, now: int)
    requires Inv(l) && InRange(l) && Enabled(l, op)
    ensures Apply(l, op, now).link.err == Tally(l.err, l, op, now)
  {
    hide Receive, BadNr, BadNs, Inv;
    if op.OpReceive? {
      ReceiveTally(l, op.f, now);
    } else {
      OtherOps(l, op, now);
    }
  }
}
