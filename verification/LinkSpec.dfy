/** Frames, link state and what each operation of a link does to that state.
    These are the specifications of the methods of class `LapLink`; the theorems about single
    links and about two coupled links are proved about them. */
module LinkSpec {
  import opened SeqNum
  import opened Options

  type Byte = x: int | 0 <= x < 256
  type Asdu = seq<Byte>

  datatype UType = TestFrAct | TestFrCon | StopDtAct | StopDtCon | StartDtAct | StartDtCon {
    predicate IsAct() { TestFrAct? || StopDtAct? || StartDtAct? }
  }

  datatype Frame =
    | U(t: UType)
    | S(ext: Byte, nr: nat)
    | I(ns: nat, nr: nat, asdu: Asdu)

  /** States of the start/stop procedure. */
  datatype Ssp = Init | Stopped | PendingStarted | Started | PendingStopped | PendingUnconfd

  datatype PollMode = PollIn | PollOut | PollInOut {
    predicate Writes() { !PollIn? }
  }

  /** A message of the ack queue: the N(S) written into its frame, the user data, the send time. */
  datatype Sent = Sent(ns: nat, asdu: Asdu, at: int)

  datatype Config = Config(k: nat, w: nat, n: nat, t1: nat, t2: nat, t3: nat,
                           slave: bool, autostart: bool, server: bool, noFullReset: bool) {
    /** The window parameters fit the modulus, and the modulus the 15-bit number fields. */
    predicate Valid() { 1 <= k < n && 1 <= w < n <= 32768 }

    /** Whether a disconnect empties the out queue as well. */
    predicate FullReset() { server || !noFullReset }
  }

  datatype Counters = Counters(va: nat, vs: nat, vr: nat, vapeer: nat)

  /** Zero means not running, as in the source. */
  datatype Timers = Timers(xRcvAt: int, iRcvAt: int, uSndAt: int, tSndAt: int)

  /** Counters of refused frames: bad N(R), bad N(S). */
  datatype Errors = Errors(nr: nat, ns: nat)

  /** What passed between the link and its user: data accepted, data acknowledged by the peer
      and data handed up (with the times) since the connection came up, data reported lost. */
  datatype Log = Log(accepted: seq<Asdu>, acked: seq<Asdu>, up: seq<Asdu>, upAt: seq<int>, lost: seq<Asdu>)

  datatype Link = Link(
    cfg: Config, conn: bool, ssp: Ssp, mode: PollMode,
    num: Counters, tm: Timers, err: Errors,
    outq: seq<Asdu>, ackq: seq<Sent>, log: Log)

  /** A new state together with the frames written to the socket, in order. */
  datatype Effect = Effect(link: Link, tx: seq<Frame>)

  /** The ranges in which the operations are defined. */
  predicate InRange(l: Link)
  {
    l.num.va < l.cfg.n && l.num.vs < l.cfg.n && l.num.vapeer < l.cfg.n
  }

  datatype Event = TcpUp | Indication(t: UType) | IndicationS | IndicationI | Request(t: UType)

  function Abs(x: int): nat { if x > 0 then x else -x }

  function Min(a: nat, b: nat): nat { if a < b then a else b }

  function Payloads(q: seq<Sent>): (r: seq<Asdu>)
    ensures |r| == |q|
  {
    seq(|q|, i requires 0 <= i < |q| => q[i].asdu)
  }

  // ---- small updates ----

  function StopT1(l: Link): Link { l.(tm := l.tm.(uSndAt := 0)) }

  function StartT2(l: Link, now: int): Link
  {
    if l.tm.iRcvAt == 0 then l.(tm := l.tm.(iRcvAt := now)) else l
  }

  function StopT2(l: Link): Link { l.(tm := l.tm.(iRcvAt := 0)) }

  function RestartT3(l: Link, now: int): Link { l.(tm := l.tm.(xRcvAt := now)) }

  function CountBadNr(l: Link): Link { l.(err := l.err.(nr := l.err.nr + 1)) }

  function CountBadNs(l: Link): Link { l.(err := l.err.(ns := l.err.ns + 1)) }

  function HandUp(l: Link, asdu: Asdu, now: int): Link
  {
    l.(log := l.log.(up := l.log.up + [asdu], upAt := l.log.upAt + [now]))
  }

  // ---- sending ----

  function SendU(l: Link, t: UType, now: int): (e: Effect)
    ensures e.link.cfg == l.cfg
  {
    if !l.conn then Effect(l, [])
    else
      var tSnd := if t.TestFrAct? && l.tm.tSndAt == 0 then now else l.tm.tSndAt;
      var uSnd := if t.IsAct() then (if l.tm.uSndAt == 0 then now else l.tm.uSndAt) else 0;
      Effect(l.(tm := l.tm.(tSndAt := tSnd, uSndAt := uSnd)), [U(t)])
  }

  function SendS(l: Link): (e: Effect)
    ensures e.link.cfg == l.cfg
  {
    if !l.conn then Effect(l, []) else Effect(l.(num := l.num.(vapeer := l.num.vr)), [S(0, l.num.vr)])
  }

  /** The number at which sending stops: V(A) + k. */
  function WindowEnd(l: Link): nat
    requires 0 < l.cfg.n
  {
    (l.num.va + l.cfg.k) % l.cfg.n
  }

  /** `m` messages of the out queue, numbered from V(S), as they enter the ack queue. */
  function Numbered(l: Link, m: nat, now: int): (r: seq<Sent>)
    requires m <= |l.outq| && 0 < l.cfg.n
    ensures |r| == m
  {
    seq(m, i requires 0 <= i < m => Sent(Nth(l.num.vs, i, l.cfg.n), l.outq[i], now))
  }

  /** The same messages as I frames on the wire, each acknowledging V(R). */
  function IFrames(l: Link, m: nat): (r: seq<Frame>)
    requires m <= |l.outq| && 0 < l.cfg.n
    ensures |r| == m
  {
    seq(m, i requires 0 <= i < m => I(Nth(l.num.vs, i, l.cfg.n), l.num.vr, l.outq[i]))
  }

  /** The first `m` messages of the out queue leave for the wire and the ack queue. */
  function SendMany(l: Link, m: nat, now: int): Effect
    requires m <= |l.outq| && 0 < l.cfg.n
  {
    Effect(l.(outq := l.outq[m..],
              ackq := l.ackq + Numbered(l, m, now),
              num := l.num.(vs := Nth(l.num.vs, m, l.cfg.n))),
           IFrames(l, m))
  }

  /** How many messages the window, the out queue and the socket let through; `budget` is the
      number of writes that succeed before one fails. */
  function Sendable(l: Link, budget: nat): (m: nat)
    requires 0 < l.cfg.n && l.num.vs < l.cfg.n
    ensures m <= |l.outq|
  {
    if l.conn then Min(Min(|l.outq|, Dist(WindowEnd(l), l.num.vs, l.cfg.n)), budget) else 0
  }

  /** In case of lost frames: with an empty ack queue V(S) restarts at V(A). */
  function ReadjustVs(l: Link): Link
  {
    if l.ackq == [] then l.(num := l.num.(vs := l.num.va)) else l
  }

  function RunOut(l: Link, budget: nat, now: int): (e: Effect)
    requires 0 < l.cfg.n && l.num.vs < l.cfg.n && l.num.va < l.cfg.n
    ensures e.link.cfg == l.cfg
  {
    if !l.ssp.Started? then Effect(l, [])
    else
      var l1 := ReadjustVs(l);
      if l1.num.vs == WindowEnd(l1) then Effect(l1.(mode := PollIn), [])
      else
        var m := Sendable(l1, budget);
        var e := SendMany(l1, m, now);
        Effect(e.link.(mode := if m < |l1.outq| then PollInOut else PollIn), e.tx)
  }

  /** Only a started link accepts data. */
  function Put(l: Link, asdu: Asdu): (r: Link)
    ensures r.cfg == l.cfg
  {
    if !l.ssp.Started? then l
    else l.(outq := l.outq + [asdu], log := l.log.(accepted := l.log.accepted + [asdu]), mode := PollInOut)
  }

  // ---- acknowledgement ----

  /** Index of the first message numbered `nr`, or the length of the queue. */
  function FirstNs(q: seq<Sent>, nr: nat): (i: nat)
    ensures i <= |q|
    ensures forall j :: 0 <= j < i ==> q[j].ns != nr
    ensures i < |q| ==> q[i].ns == nr
  {
    if q == [] || q[0].ns == nr then 0 else 1 + FirstNs(q[1..], nr)
  }

  /** The first `i` messages of the ack queue are acknowledged. */
  function AckMany(l: Link, i: nat): Link
    requires i <= |l.ackq|
  {
    l.(ackq := l.ackq[i..], log := l.log.(acked := l.log.acked + Payloads(l.ackq[..i])))
  }

  function RunAck(l: Link, nr: nat): Link
  {
    AckMany(l, FirstNs(l.ackq, nr))
  }

  /** An accepted N(R): acknowledge, move V(A), and ask for POLLOUT if data is waiting. */
  function Acknowledge(l: Link, nr: nat): Link
  {
    var l1 := RunAck(l, nr);
    l1.(num := l1.num.(va := nr))
  }

  function WakeWriter(l: Link): Link
  {
    if l.outq == [] then l else l.(mode := PollInOut)
  }

  // ---- start/stop procedure ----

  /** The next state and the U frame sent on the way; `idle` says that V(S) == V(A). */
  datatype Move = Move(next: Ssp, reply: Option<UType>)

  function Transition(cfg: Config, ssp: Ssp, ev: Event, idle: bool): Move
  {
    match (ssp, ev)
    case (_, Indication(TestFrAct)) => Move(ssp, Some(TestFrCon))
    case (_, Request(TestFrAct)) => Move(ssp, Some(TestFrAct))
    case (Init, TcpUp) =>
      if !cfg.slave && cfg.autostart then Move(PendingStarted, Some(StartDtAct)) else Move(Stopped, None)
    case (Stopped, Indication(StartDtAct)) => Move(Started, Some(StartDtCon))
    case (Stopped, Request(StartDtAct)) => Move(PendingStarted, Some(StartDtAct))
    case (PendingStarted, Indication(StartDtCon)) => Move(Started, None)
    case (Started, Indication(StopDtAct)) =>
      if idle then Move(Stopped, Some(StopDtCon)) else Move(PendingUnconfd, None)
    case (PendingUnconfd, IndicationS) =>
      if idle then Move(Stopped, Some(StopDtCon)) else Move(PendingUnconfd, None)
    case (PendingUnconfd, IndicationI) => Move(Stopped, Some(StopDtCon))
    case (Started, Indication(StartDtAct)) => Move(Started, Some(StartDtCon))
    case (Started, Request(StopDtAct)) => Move(PendingStopped, Some(StopDtAct))
    case (PendingStopped, Indication(StopDtCon)) => Move(Stopped, None)
    case _ => Move(ssp, None)
  }

  function MasterSlave(l: Link, ev: Event, now: int): (e: Effect)
    ensures e.link.cfg == l.cfg
  {
    var m := Transition(l.cfg, l.ssp, ev, l.num.vs == l.num.va);
    if ev == Indication(TestFrCon) then Effect(l.(tm := l.tm.(tSndAt := 0)), [])
    else if m.reply.None? then Effect(l.(ssp := m.next), [])
    else
      var e := SendU(l, m.reply.value, now);
      Effect(e.link.(ssp := m.next), e.tx)
  }

  // ---- receiving ----

  function RejectNr(l: Link): (e: Effect)
    ensures e.link.cfg == l.cfg
  {
    SendS(CountBadNr(l))
  }

  function ReceiveS(l: Link, nr: nat, now: int): (e: Effect)
    requires l.num.va < l.cfg.n
    ensures e.link.cfg == l.cfg
  {
    if !OkNr(l.num.va, l.num.vs, nr, l.cfg.n) then RejectNr(l)
    else
      var e := MasterSlave(Acknowledge(l, nr), IndicationS, now);
      Effect(WakeWriter(e.link), e.tx)
  }

  /** An I frame in sequence: count it, and acknowledge every w-th one with an S frame. */
  function TakeI(l: Link, now: int): (e: Effect)
    requires 0 < l.cfg.n && l.num.vapeer < l.cfg.n
    ensures e.link.cfg == l.cfg
  {
    var l1 := StartT2(l.(num := l.num.(vr := Succ(l.num.vr, l.cfg.n))), now);
    if Dist(l1.num.vr, l1.num.vapeer, l1.cfg.n) == l1.cfg.w then SendS(l1) else Effect(l1, [])
  }

  /** The data part of an I frame whose N(R) was accepted. */
  function ReceiveData(l: Link, ns: nat, asdu: Asdu, now: int): (e: Effect)
    requires 0 < l.cfg.n && l.num.vapeer < l.cfg.n
    ensures e.link.cfg == l.cfg
  {
    if ns != l.num.vr then SendS(CountBadNs(l))
    else
      var e := TakeI(l, now);
      var e2 := MasterSlave(e.link, IndicationI, now);
      Effect(HandUp(e2.link, asdu, now), e.tx + e2.tx)
  }

  function ReceiveI(l: Link, ns: nat, nr: nat, asdu: Asdu, now: int): (e: Effect)
    requires l.num.va < l.cfg.n && l.num.vapeer < l.cfg.n
    ensures e.link.cfg == l.cfg
  {
    if !OkNr(l.num.va, l.num.vs, nr, l.cfg.n) then RejectNr(l)
    else ReceiveData(WakeWriter(Acknowledge(l, nr)), ns, asdu, now)
  }

  function ReceiveU(l: Link, t: UType, now: int): (e: Effect)
    ensures e.link.cfg == l.cfg
  {
    MasterSlave(if t.IsAct() then l else StopT1(l), Indication(t), now)
  }

  function Receive(l: Link, f: Frame, now: int): (e: Effect)
    requires l.num.va < l.cfg.n && l.num.vapeer < l.cfg.n
    ensures e.link.cfg == l.cfg
  {
    var l1 := RestartT3(l, now);
    match f
    case U(t) => ReceiveU(l1, t, now)
    case S(_, nr) => ReceiveS(l1, nr, now)
    case I(ns, nr, asdu) => ReceiveI(l1, ns, nr, asdu, now)
  }

  // ---- connection ----

  function Reset(l: Link, full: bool): Link
  {
    var outq := if full then [] else l.outq;
    Link(l.cfg, false, Init, if full then PollOut else l.mode,
         Counters(0, 0, 0, 0), Timers(0, 0, 0, 0), if full then Errors(0, 0) else l.err,
         outq, [], Log(outq, [], [], [], l.log.lost))
  }

  function Disconnect(l: Link): (r: Link)
    ensures r.cfg == l.cfg
  {
    Reset(l.(log := l.log.(lost := l.log.lost + Payloads(l.ackq))), l.cfg.FullReset())
  }

  function Connect(l: Link, now: int): (e: Effect)
    ensures e.link.cfg == l.cfg
  {
    MasterSlave(l.(conn := true, mode := PollIn), TcpUp, now)
  }

  // ---- timers ----

  function Timer(l: Link, now: int): (e: Effect)
    ensures e.link.cfg == l.cfg
  {
    if !l.conn then Effect(l, [])
    else if l.tm.uSndAt != 0 && Abs(now - l.tm.uSndAt) > l.cfg.t1 then Effect(Disconnect(l), [])
    else if l.tm.iRcvAt != 0 && Abs(now - l.tm.iRcvAt) > l.cfg.t2 then SendS(StopT2(l))
    else if (l.tm.xRcvAt == 0 || Abs(now - l.tm.xRcvAt) > l.cfg.t3) && l.tm.tSndAt == 0 then SendU(l, TestFrAct, now)
    else Effect(l, [])
  }

  /** T1 of the I frames, as lib/xlap.c runs it. */
  function AckTimer(l: Link, now: int): Link
  {
    if exists i :: 0 <= i < |l.ackq| && Abs(now - l.ackq[i].at) >= l.cfg.t1 then Disconnect(l) else l
  }

  // ---- poll mode ----

  /** The mode lib/xlap.c recomputes before every poll. */
  function RecomputedMode(l: Link): PollMode
    requires 0 < l.cfg.n
  {
    if !l.conn then PollOut
    else if l.num.vs == WindowEnd(l) then PollIn
    else if l.outq != [] && l.ssp.Started? then PollInOut
    else PollIn
  }
}
