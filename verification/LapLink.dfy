/** One link, as lib/elap.c keeps it: fields updated in place, two queues, a poll mode. Every
    method is specified by the effect of the same name in `LinkSpec`. The socket is the ghost
    sequence `wire`, the user's callback the ghost record `log`. */
module LapLinks {
  import opened SeqNum
  import opened LinkSpec
  import opened LinkProps
  import opened LinkRuns
  import opened Codec

  class LapLink {
    const cfg: Config
    var conn: bool
    var ssp: Ssp
    var mode: PollMode

    var num: Counters
    var tm: Timers
    var err: Errors

    var outq: seq<Asdu>
    var outcount: nat
    var ackq: seq<Sent>
    var ackcount: nat
    var inWaitAck: bool

    /** The socket and the serial number of its registration; -1 and 0 when there is none. */
    var fd: int
    var serial: nat

    ghost var log: Log
    ghost var wire: seq<Frame>

    ghost function State(): Link
      reads this
    {
      Link(cfg, conn, ssp, mode, num, tm, err, outq, ackq, log)
    }

    /** The separate counters agree with the queues. */
    ghost predicate Counted()
      reads this
    {
      outcount == |outq| && ackcount == |ackq|
    }

    ghost predicate Valid()
      reads this
    {
      Inv(State()) && Counted()
    }

    constructor (cfg: Config)
      requires cfg.Valid()
      ensures Valid() && State() == Fresh(cfg) && wire == [] && !inWaitAck && this.cfg == cfg
      ensures fd == -1 && serial == 0
    {
      this.cfg := cfg;
      conn, ssp, mode := false, Init, PollOut;
      num, tm, err := Counters(0, 0, 0, 0), Timers(0, 0, 0, 0), Errors(0, 0);
      outq, outcount, ackq, ackcount := [], 0, [], 0;
      inWaitAck, fd, serial := false, -1, 0;
      log := Log([], [], [], [], []);
      wire := [];
      new;
      FreshInv(cfg);
    }

    // ---- sending ----

    method SendFrameU(t: UType, now: int)
      modifies this`tm, this`wire
      ensures var e := SendU(old(State()), t, now); State() == e.link && wire == old(wire) + e.tx
    {
      if !conn {
        return;
      }
      if t.TestFrAct? && tm.tSndAt == 0 {
        tm := tm.(tSndAt := now);
      }
      if t.IsAct() && tm.uSndAt == 0 {
        tm := tm.(uSndAt := now);
      }
      if !t.IsAct() {
        tm := tm.(uSndAt := 0);
      }
      wire := wire + [U(t)];
    }

    method SendFrameS()
      modifies this`num, this`wire
      ensures var e := SendS(old(State())); State() == e.link && wire == old(wire) + e.tx
    {
      if !conn {
        return;
      }
      num := num.(vapeer := num.vr);
      wire := wire + [S(0, num.vr)];
    }

    /** `taken` tells whether the socket takes the frame. */
    method SendFrameI(asdu: Asdu, taken: bool) returns (ok: bool)
      requires 0 < cfg.n
      modifies this`wire
      ensures ok <==> conn && num.vs != (num.va + cfg.k) % cfg.n && taken
      ensures wire == old(wire) + if ok then [I(num.vs, num.vr, asdu)] else []
    {
      if !conn || num.vs == (num.va + cfg.k) % cfg.n || !taken {
        return false;
      }
      wire := wire + [I(num.vs, num.vr, asdu)];
      return true;
    }

    // ---- queues ----

    /** Drops messages from the ack queue up to the one numbered `nr`. */
    method RunAckQueue(nr: nat)
      requires Counted()
      modifies this`ackq, this`ackcount, this`log
      ensures ackcount == |ackq| && ackq == old(ackq)[FirstNs(old(ackq), nr)..]
      ensures log == old(log).(acked := old(log).acked + Payloads(old(ackq)[..FirstNs(old(ackq), nr)]))
    {
      hide FirstNs, Payloads;
      ghost var q, i := ackq, 0;
      NoPayloads();
      while ackq != [] && ackq[0].ns != nr
        invariant i <= FirstNs(q, nr) && ackq == q[i..] && ackcount == |ackq|
        invariant log == old(log).(acked := old(log).acked + Payloads(q[..i]))
      {
        AckOneMore(q, i);
        log := log.(acked := log.acked + [ackq[0].asdu]);
        ackq, ackcount := ackq[1..], ackcount - 1;
        i := i + 1;
      }
    }

    /** Of the link `l`, `m` messages have been sent, after the frames `was`. */
    ghost predicate Sending(l: Link, was: seq<Frame>, m: nat, now: int)
      requires m <= |l.outq| && 0 < l.cfg.n
      reads this
    {
      && cfg == l.cfg && conn == l.conn && outq == l.outq[m..] && ackq == l.ackq + Numbered(l, m, now)
      && num == l.num.(vs := Nth(l.num.vs, m, l.cfg.n)) && wire == was + IFrames(l, m) && Counted()
    }

    lemma NothingSent(now: int)
      requires Counted() && num.vs < cfg.n
      ensures Sending(State(), wire, 0, now)
    {
      ModUnique(num.vs, 0, num.vs, cfg.n);
    }

    /** Moves the first message of the out queue to the ack queue if its frame is sent. */
    method SendNext(ghost l: Link, ghost was: seq<Frame>, ghost m: nat, taken: bool, now: int) returns (sent: bool)
      requires m < |l.outq| && 0 < l.cfg.n && Sending(l, was, m, now)
      modifies this`outq, this`outcount, this`ackq, this`ackcount, this`num, this`wire
      ensures sent <==> l.conn && Nth(l.num.vs, m, l.cfg.n) != WindowEnd(l) && taken
      ensures Sending(l, was, if sent then m + 1 else m, now)
    {
      hide Nth, Numbered, IFrames;
      SendOneMore(l, m, now);
      sent := SendFrameI(outq[0], taken);
      if sent {
        ackq, ackcount := ackq + [Sent(num.vs, outq[0], now)], ackcount + 1;
        outq, outcount := outq[1..], outcount - 1;
        num := num.(vs := (num.vs + 1) % cfg.n);
      }
    }

    /** The sending loop of `RunOutQueue`; `budget` writes succeed before one fails. */
    method SendWhileOpen(end: nat, budget: nat, now: int)
      requires Counted() && 0 < cfg.n && num.vs < cfg.n && end == WindowEnd(State())
      modifies this`outq, this`outcount, this`ackq, this`ackcount, this`num, this`wire
      ensures var e := SendMany(old(State()), Sendable(old(State()), budget), now);
              outq == e.link.outq && ackq == e.link.ackq && num == e.link.num && wire == old(wire) + e.tx
      ensures Counted()
    {
      hide Nth, Numbered, IFrames, Dist;
      ghost var l, was, m := State(), wire, 0;
      var left := budget;
      NothingSent(now);
      WindowGuard(l, 0);
      while outq != [] && num.vs != end
        invariant m <= |l.outq| && m <= Dist(end, l.num.vs, l.cfg.n) && left == budget - m
        invariant Sending(l, was, m, now) && (m > 0 ==> l.conn)
        decreases |l.outq| - m
      {
        WindowGuard(l, m);
        var sent := SendNext(l, was, m, left > 0, now);
        if !sent {
          break;
        }
        left, m := left - 1, m + 1;
      }
      WindowGuard(l, m);
    }

    /** Sends from the out queue while the window is open. `ran` is false if the loop was not
        reached. */
    method RunOutQueue(budget: nat, now: int) returns (ran: bool)
      requires Valid()
      modifies this`mode, this`num, this`outq, this`outcount, this`ackq, this`ackcount, this`wire
      ensures var e := RunOut(old(State()), budget, now); State() == e.link && wire == old(wire) + e.tx
      ensures Valid()
      ensures !ran ==> ackq == old(ackq)
    {
      InvRunOut(State(), budget, now);
      if !ssp.Started? {
        return false;
      }
      var end := (num.va + cfg.k) % cfg.n;
      if ackq == [] {
        num := num.(vs := num.va);
      }
      if num.vs == end {
        mode := PollIn;
        return false;
      }
      SendWhileOpen(end, budget, now);
      mode := if outcount > 0 then PollInOut else PollIn;
      ran := true;
    }

    /** Accepts data from the user. */
    method PutOutQueue(asdu: Asdu) returns (ret: nat)
      requires Counted()
      modifies this`mode, this`outq, this`outcount, this`log
      ensures State() == Put(old(State()), asdu) && Counted()
      ensures old(Valid()) ==> Valid()
      ensures ret == if old(ssp).Started? then |outq| else 0
    {
      if Valid() {
        InvPut(State(), asdu);
      }
      if !ssp.Started? {
        return 0;
      }
      mode := PollIn;
      outq, outcount := outq + [asdu], outcount + 1;
      log := log.(accepted := log.accepted + [asdu]);
      mode := PollInOut;
      return outcount;
    }

    // ---- start/stop procedure ----

    method Confirm(t: UType, next: Ssp, now: int)
      modifies this`ssp, this`tm, this`wire
      ensures var e := SendU(old(State()), t, now); State() == e.link.(ssp := next) && wire == old(wire) + e.tx
    {
      SendFrameU(t, now);
      ssp := next;
    }

    method EventMasterSlave(ev: Event, now: int)
      modifies this`ssp, this`tm, this`wire
      ensures var e := MasterSlave(old(State()), ev, now); State() == e.link && wire == old(wire) + e.tx
    {
      match ev {
        case Indication(TestFrAct) => SendFrameU(TestFrCon, now);
        case Indication(TestFrCon) => tm := tm.(tSndAt := 0);
        case Request(TestFrAct) => SendFrameU(TestFrAct, now);
        case _ => ChangeState(ev, now);
      }
    }

    /** The state changes of the start/stop procedure. */
    method ChangeState(ev: Event, now: int)
      requires ev != Indication(TestFrAct) && ev != Indication(TestFrCon) && ev != Request(TestFrAct)
      modifies this`ssp, this`tm, this`wire
      ensures var e := MasterSlave(old(State()), ev, now); State() == e.link && wire == old(wire) + e.tx
    {
      match (ssp, ev) {
        case (Init, TcpUp) =>
          if cfg.slave {
            ssp := Stopped;
          } else if cfg.autostart {
            Confirm(StartDtAct, PendingStarted, now);
          } else {
            ssp := Stopped;
          }
        case (Stopped, Indication(StartDtAct)) => Confirm(StartDtCon, Started, now);
        case (Stopped, Request(StartDtAct)) => Confirm(StartDtAct, PendingStarted, now);
        case (PendingStarted, Indication(StartDtCon)) => ssp := Started;
        case (Started, Indication(StopDtAct)) =>
          if num.vs == num.va {
            Confirm(StopDtCon, Stopped, now);
          } else {
            ssp := PendingUnconfd;
          }
        case (PendingUnconfd, IndicationS) =>
          if num.vs == num.va {
            Confirm(StopDtCon, Stopped, now);
          }
        case (PendingUnconfd, IndicationI) => Confirm(StopDtCon, Stopped, now);
        case (Started, Indication(StartDtAct)) => SendFrameU(StartDtCon, now);
        case (Started, Request(StopDtAct)) => Confirm(StopDtAct, PendingStopped, now);
        case (PendingStopped, Indication(StopDtCon)) => ssp := Stopped;
        case _ =>
      }
    }

    // ---- receiving ----

    method AcceptNr(nr: nat)
      requires Counted()
      modifies this`ackq, this`ackcount, this`num, this`log
      ensures State() == Acknowledge(old(State()), nr) && Counted() && num.vapeer == old(num.vapeer)
    {
      RunAckQueue(nr);
      num := num.(va := nr);
    }

    method RefuseNr()
      modifies this`err, this`num, this`wire
      ensures var e := RejectNr(old(State())); State() == e.link && wire == old(wire) + e.tx
    {
      err := err.(nr := err.nr + 1);
      SendFrameS();
    }

    method RequestWrite()
      modifies this`mode
      ensures State() == WakeWriter(old(State()))
    {
      if outq != [] {
        mode := PollInOut;
      }
    }

    method IncomingS(nr: nat, now: int)
      requires Counted() && num.va < cfg.n
      modifies this`mode, this`ackq, this`ackcount, this`num, this`log, this`ssp, this`tm, this`err, this`wire
      ensures var e := ReceiveS(old(State()), nr, now); State() == e.link && wire == old(wire) + e.tx
      ensures Counted()
    {
      hide Acknowledge, MasterSlave, RejectNr, WakeWriter;
      if (nr - num.va + cfg.n) % cfg.n > (num.vs - num.va + cfg.n) % cfg.n {
        RefuseNr();
      } else {
        AcceptNr(nr);
        EventMasterSlave(IndicationS, now);
        RequestWrite();
      }
    }

    /** Counts an I frame in sequence and acknowledges every w-th one. */
    method CountData(now: int)
      requires 0 < cfg.n && num.vapeer < cfg.n
      modifies this`num, this`tm, this`wire
      ensures var e := TakeI(old(State()), now); State() == e.link && wire == old(wire) + e.tx
    {
      num := num.(vr := (num.vr + 1) % cfg.n);
      if tm.iRcvAt == 0 {
        tm := tm.(iRcvAt := now);
      }
      if (num.vr - num.vapeer + cfg.n) % cfg.n == cfg.w {
        SendFrameS();
      }
    }

    method RefuseNs()
      modifies this`err, this`num, this`wire
      ensures var e := SendS(CountBadNs(old(State()))); State() == e.link && wire == old(wire) + e.tx
    {
      err := err.(ns := err.ns + 1);
      SendFrameS();
    }

    /** The data part of an I frame. */
    method IncomingData(ns: nat, asdu: Asdu, now: int)
      requires 0 < cfg.n && num.vapeer < cfg.n
      modifies this`num, this`tm, this`log, this`ssp, this`err, this`wire
      ensures var e := ReceiveData(old(State()), ns, asdu, now); State() == e.link && wire == old(wire) + e.tx
    {
      hide TakeI, MasterSlave;
      if ns != num.vr {
        RefuseNs();
      } else {
        CountData(now);
        EventMasterSlave(IndicationI, now);
        log := log.(up := log.up + [asdu], upAt := log.upAt + [now]);
      }
    }

    method IncomingI(ns: nat, nr: nat, asdu: Asdu, now: int)
      requires Counted() && num.va < cfg.n && num.vapeer < cfg.n
      modifies this`mode, this`ackq, this`ackcount, this`num, this`tm, this`log, this`ssp, this`err, this`wire
      ensures var e := ReceiveI(old(State()), ns, nr, asdu, now); State() == e.link && wire == old(wire) + e.tx
      ensures Counted()
    {
      hide Acknowledge, WakeWriter, ReceiveData, RejectNr;
      if (nr - num.va + cfg.n) % cfg.n > (num.vs - num.va + cfg.n) % cfg.n {
        RefuseNr();
      } else {
        AcceptNr(nr);
        RequestWrite();
        IncomingData(ns, asdu, now);
      }
    }

    /** A complete, well-formed frame. Any peer may have sent it: the invariant survives exactly
        when its N(R) is reduced modulo n or refused. */
    method IncomingFrame(f: Frame, now: int)
      requires Valid() && conn
      modifies this`mode, this`ackq, this`ackcount, this`num, this`tm, this`log, this`ssp, this`err, this`wire
      ensures var e := Receive(old(State()), f, now); State() == e.link && wire == old(wire) + e.tx
      ensures Counted()
      ensures Valid() <==> f.U? || f.nr < cfg.n || !InWindow(old(num.va), old(num.vs), f.nr % cfg.n, cfg.n)
    {
      ghost var l := State();
      if f.U? {
        InvReceive(l, f, now);
      } else {
        ReceiveKeepsInvExactly(l, f, now);
      }
      tm := tm.(xRcvAt := now);
      match f
      case U(t) =>
        if !t.IsAct() {
          tm := tm.(uSndAt := 0);
        }
        EventMasterSlave(Indication(t), now);
      case S(_, nr) => IncomingS(nr, now);
      case I(ns, nr, asdu) => IncomingI(ns, nr, asdu, now);
    }

    /** A frame as the receive buffer delimits it. What cannot be decoded only restarts T3, and is
        reported if its control field is malformed. */
    method IncomingBytes(buf: seq<Byte>, longMode: bool, now: int)
      requires Valid() && conn && buf != [] && !Decode(buf, longMode).Runt?
      modifies this`mode, this`ackq, this`ackcount, this`num, this`tm, this`log, this`ssp, this`err, this`wire
      ensures var d := Decode(buf, longMode);
              var e := if d.Got? then Receive(old(State()), d.f, now) else Effect(RestartT3(old(State()), now), []);
              State() == e.link && wire == old(wire) + e.tx
      ensures Counted()
    {
      var d := Decode(buf, longMode);
      hide Decode, Receive, Inv;
      if d.Got? {
        IncomingFrame(d.f, now);
      } else {
        tm := tm.(xRcvAt := now);
      }
    }

    // ---- connection ----

    /** Reports every message of the ack queue as lost, in order. */
    method ReportLost()
      modifies this`log
      ensures log == old(log).(lost := old(log).lost + Payloads(ackq))
    {
      for i := 0 to |ackq|
        invariant log == old(log).(lost := old(log).lost + Payloads(ackq[..i]))
      {
        AckOneMore(ackq, i);
        log := log.(lost := log.lost + [ackq[i].asdu]);
      }
      assert ackq[..|ackq|] == ackq;
    }

    /** Frees the ack queue and, on a full reset, the out queue and the error counters. */
    method FreeQueues(full: bool)
      modifies this`outq, this`outcount, this`ackq, this`ackcount, this`err, this`mode
      ensures ackq == [] && ackcount == 0
      ensures full ==> outq == [] && outcount == 0 && err == Errors(0, 0) && mode == PollOut
      ensures !full ==> outq == old(outq) && outcount == old(outcount) && err == old(err) && mode == old(mode)
    {
      ackq, ackcount := [], 0;
      if full {
        err := Errors(0, 0);
        outq, outcount := [], 0;
        mode := PollOut;
      }
    }

    method ClearFields()
      modifies this`conn, this`ssp, this`num, this`tm, this`fd, this`serial
      ensures !conn && ssp == Init && num == Counters(0, 0, 0, 0) && tm == Timers(0, 0, 0, 0) && fd == -1 && serial == 0
    {
      ssp, conn, fd, serial := Init, false, -1, 0;
      num, tm := Counters(0, 0, 0, 0), Timers(0, 0, 0, 0);
    }

    method ResetLink(full: bool)
      modifies this`conn, this`ssp, this`mode, this`num, this`tm, this`err
      modifies this`outq, this`outcount, this`ackq, this`ackcount, this`log, this`fd, this`serial
      ensures State() == Reset(old(State()), full) && fd == -1 && serial == 0
      ensures ackcount == 0 && outcount == if full then 0 else old(outcount)
    {
      ClearFields();
      FreeQueues(full);
      log := Log(outq, [], [], [], log.lost);
    }

    method Disconnected()
      requires Valid()
      modifies this
      ensures State() == Disconnect(old(State())) && Valid() && fd == -1 && serial == 0
      ensures wire == old(wire) && inWaitAck == old(inWaitAck)
    {
      InvDisconnect(State());
      ReportLost();
      ResetLink(cfg.server || !cfg.noFullReset);
    }

    /** The TCP connection is up. */
    method Connected(now: int)
      requires Valid() && !conn
      modifies this`conn, this`mode, this`ssp, this`tm, this`wire
      ensures var e := Connect(old(State()), now); State() == e.link && wire == old(wire) + e.tx
      ensures Valid()
    {
      InvConnect(State(), now);
      conn := true;
      mode := PollIn;
      EventMasterSlave(TcpUp, now);
    }

    method EventRequest(t: UType, now: int)
      requires Valid()
      modifies this`ssp, this`tm, this`wire
      ensures var e := MasterSlave(old(State()), Request(t), now); State() == e.link && wire == old(wire) + e.tx
      ensures Valid()
    {
      InvMasterSlave(State(), Request(t), now);
      EventMasterSlave(Request(t), now);
    }

    // ---- timers ----

    method TimerT1T2T3(now: int)
      requires Valid()
      modifies this
      ensures var e := Timer(old(State()), now); State() == e.link && wire == old(wire) + e.tx
      ensures Valid() && inWaitAck == old(inWaitAck)
    {
      InvTimer(State(), now);
      if !conn {
        return;
      }
      if tm.uSndAt != 0 && Abs(now - tm.uSndAt) > cfg.t1 {
        Disconnected();
        return;
      }
      if tm.iRcvAt != 0 && Abs(now - tm.iRcvAt) > cfg.t2 {
        tm := tm.(iRcvAt := 0);
        SendFrameS();
        return;
      }
      if tm.xRcvAt == 0 || Abs(now - tm.xRcvAt) > cfg.t3 {
        if tm.tSndAt == 0 {
          SendFrameU(TestFrAct, now);
        }
      }
    }

    /** T1 of the I frames, as lib/xlap.c runs it. */
    method TimerAckQueue(now: int)
      requires Valid()
      modifies this
      ensures State() == AckTimer(old(State()), now) && Valid()
      ensures wire == old(wire) && inWaitAck == old(inWaitAck)
    {
      InvDisconnect(State());
      var nb := 0;
      for i := 0 to |ackq|
        invariant unchanged(this)
        invariant 0 <= nb
        invariant nb > 0 <==> exists j :: 0 <= j < i && Abs(now - ackq[j].at) >= cfg.t1
      {
        if Abs(now - ackq[i].at) >= cfg.t1 {
          nb := nb + 1;
        }
      }
      if nb > 0 {
        Disconnected();
      }
    }

    /** The mode lib/xlap.c asks for before every poll. */
    method LapRequest() returns (m: PollMode)
      requires Valid()
      ensures m == RecomputedMode(State())
    {
      var end := (num.va + cfg.k) % cfg.n;
      if !conn {
        return PollOut;
      }
      if num.vs == end {
        return PollIn;
      }
      if outcount > 0 && ssp.Started? {
        return PollInOut;
      }
      return PollIn;
    }
  }
}
