/** What the timers of a link do, said from the frames it has written and received: the timer fields
    of the link are not mentioned in the results. */
module Watchdog {
  import opened SeqNum
  import opened Options
  import opened LinkSpec
  import opened LinkProps
  import opened LinkRuns

  /** One step of a connection: the time, the frame received, the frames written, whether it was a
      timer tick, and whether data was handed up. */
  datatype Note = Note(at: int, got: Option<Frame>, wrote: seq<Frame>, tick: bool, took: bool)

  predicate Cons(f: Frame) { f.U? && !f.t.IsAct() }

  /** A frame that has to be confirmed was written. */
  predicate Asks(n: Note) { exists f :: f in n.wrote && f.U? && f.t.IsAct() }

  /** A confirmation was received or written. */
  predicate Settles(n: Note) { (n.got.Some? && Cons(n.got.value)) || exists f :: f in n.wrote && Cons(f) }

  /** A test frame was written; its confirmation was received. */
  predicate Tests(n: Note) { U(TestFrAct) in n.wrote }

  predicate Answered(n: Note) { n.got == Some(U(TestFrCon)) }

  predicate Takes(n: Note) { n.took }

  /** A tick has confirmed the data. */
  predicate Confirms(n: Note) { n.tick && exists f :: f in n.wrote && f.S? }

  /** Begun at the i-th step and not ended since. */
  predicate Open(j: seq<Note>, i: int, begins: Note -> bool, ends: Note -> bool)
  {
    0 <= i < |j| && begins(j[i]) && forall k :: i <= k < |j| ==> !ends(j[k])
  }

  // ---- journals ----

  function NoteOf(l: Link, op: Op, now: int): Note
    requires InRange(l) && Enabled(l, op)
  {
    var e := Apply(l, op, now);
    Note(now, if op.OpReceive? then Some(op.f) else None, e.tx, op.OpTimer?, |e.link.log.up| > |l.log.up|)
  }

  /** The journal of the present connection. */
  function Noted(j: seq<Note>, l: Link, op: Op, now: int): seq<Note>
    requires InRange(l) && Enabled(l, op)
  {
    if Apply(l, op, now).link.conn then (if l.conn then j else []) + [NoteOf(l, op, now)] else []
  }

  /** A run from a fresh link, with its journal. */
  ghost predicate Kept(cfg: Config, run: seq<Timed>, l: Link, j: seq<Note>)
  {
    if run == [] then l == Fresh(cfg) && j == []
    else
      var m := |run| - 1;
      exists p, i :: Kept(cfg, run[..m], p, i) && StepTo(p, run[m], l) && j == Noted(i, p, run[m].op, run[m].now)
  }

  // ---- what a timer field shows ----

  /** `t` is the time of the first step that is still open, or 0 if there is none. */
  ghost predicate Shows(t: int, j: seq<Note>, begins: Note -> bool, ends: Note -> bool)
  {
    if t == 0 then forall i :: 0 <= i < |j| ==> !Open(j, i, begins, ends)
    else exists i :: 0 <= i < |j| && First(j, i, begins, ends) && j[i].at == t
  }

  /** The first step that is still open. */
  ghost predicate First(j: seq<Note>, i: int, begins: Note -> bool, ends: Note -> bool)
  {
    Open(j, i, begins, ends) && forall k :: Open(j, k, begins, ends) ==> i <= k
  }

  /** The times of a journal are positive and never go back, up to `last`. */
  predicate Clocked(j: seq<Note>, last: int)
  {
    && (forall i :: 0 <= i < |j| ==> 0 < j[i].at <= last)
    && (forall i, k :: 0 <= i <= k < |j| ==> j[i].at <= j[k].at)
  }

  lemma OpenNext(j: seq<Note>, n: Note, i: int, begins: Note -> bool, ends: Note -> bool)
    ensures Open(j + [n], i, begins, ends) <==>
            !ends(n) && (Open(j, i, begins, ends) || (i == |j| && begins(n)))
  {
    var r := j + [n];
    assert forall k :: 0 <= k < |j| ==> r[k] == j[k];
    assert r[|j|] == n;
  }

  lemma ShowsNext(t: int, j: seq<Note>, n: Note, begins: Note -> bool, ends: Note -> bool)
    requires Shows(t, j, begins, ends) && 0 < n.at
    ensures Shows(if ends(n) then 0 else if t == 0 && begins(n) then n.at else t, j + [n], begins, ends)
  {
    hide Open;
    var r := j + [n];
    forall i ensures Open(r, i, begins, ends) <==>
                     !ends(n) && (Open(j, i, begins, ends) || (i == |j| && begins(n))) {
      OpenNext(j, n, i, begins, ends);
    }
    forall i ensures Open(j, i, begins, ends) ==> 0 <= i < |j| { OpenInside(j, i, begins, ends); }
    if !ends(n) && t == 0 && begins(n) {
      assert First(r, |j|, begins, ends) && r[|j|] == n;
    } else if !ends(n) && t != 0 {
      var i :| 0 <= i < |j| && First(j, i, begins, ends) && j[i].at == t;
      assert First(r, i, begins, ends) && r[i] == j[i];
    }
  }

  lemma OpenInside(j: seq<Note>, i: int, begins: Note -> bool, ends: Note -> bool)
    ensures Open(j, i, begins, ends) ==> 0 <= i < |j|
  {
  }

  lemma ShowsNothing(begins: Note -> bool, ends: Note -> bool)
    ensures Shows(0, [], begins, ends)
  {
  }

  /** The field has run longer than `d` exactly if some open step is older than `d`. */
  lemma OlderExactly(t: int, j: seq<Note>, begins: Note -> bool, ends: Note -> bool, last: int, now: int, d: nat)
    requires Shows(t, j, begins, ends) && Clocked(j, last) && last <= now
    ensures (exists i :: Open(j, i, begins, ends) && now - j[i].at > d) <==> t != 0 && Abs(now - t) > d
    ensures (exists i :: Open(j, i, begins, ends)) <==> t != 0
    ensures 0 <= t <= last || t == 0
  {
    if t == 0 {
      forall i ensures !Open(j, i, begins, ends) { OpenInside(j, i, begins, ends); }
    } else {
      var i :| 0 <= i < |j| && First(j, i, begins, ends) && j[i].at == t;
    }
  }

  /** Something was received at most `d` ago. */
  predicate HeardWithin(j: seq<Note>, now: int, d: nat)
  {
    exists i :: 0 <= i < |j| && j[i].got.Some? && now - j[i].at <= d
  }

  /** `t` is the time of the last step that received something, or 0. */
  ghost predicate LastHeard(t: int, j: seq<Note>)
  {
    if t == 0 then forall i :: 0 <= i < |j| ==> j[i].got.None?
    else exists i :: 0 <= i < |j| && j[i].got.Some? && j[i].at == t && forall k :: i < k < |j| ==> j[k].got.None?
  }

  lemma HeardNext(t: int, j: seq<Note>, n: Note)
    requires LastHeard(t, j) && 0 < n.at
    ensures LastHeard(if n.got.Some? then n.at else t, j + [n])
  {
    var r := j + [n];
    assert r[|j|] == n && forall k :: 0 <= k < |j| ==> r[k] == j[k];
    if n.got.None? && t != 0 {
      var i :| 0 <= i < |j| && j[i].got.Some? && j[i].at == t && forall k :: i < k < |j| ==> j[k].got.None?;
      assert r[i].got.Some? && r[i].at == t;
    }
  }

  lemma HeardExactly(t: int, j: seq<Note>, last: int, now: int, d: nat)
    requires LastHeard(t, j) && Clocked(j, last) && last <= now
    ensures HeardWithin(j, now, d) <==> t != 0 && Abs(now - t) <= d
  {
    if t != 0 {
      var i :| 0 <= i < |j| && j[i].got.Some? && j[i].at == t && forall k :: i < k < |j| ==> j[k].got.None?;
    }
  }

  // ---- every step ----

  /** The four timer fields agree with the journal. */
  ghost predicate Tells(l: Link, j: seq<Note>, last: int)
  {
    && Clocked(j, last)
    && (!l.conn ==> j == [])
    && Shows(l.tm.uSndAt, j, Asks, Settles)
    && Shows(l.tm.tSndAt, j, Tests, Answered)
    && Shows(l.tm.iRcvAt, j, Takes, Confirms)
    && LastHeard(l.tm.xRcvAt, j)
  }

  /** How one step moves the timers, in terms of what it writes and receives. */
  predicate Moves(a: Timers, n: Note, b: Timers)
  {
    && b.uSndAt == (if Settles(n) then 0 else if a.uSndAt == 0 && Asks(n) then n.at else a.uSndAt)
    && b.tSndAt == (if Answered(n) then 0 else if a.tSndAt == 0 && Tests(n) then n.at else a.tSndAt)
    && b.iRcvAt == (if Confirms(n) then 0 else if a.iRcvAt == 0 && Takes(n) then n.at else a.iRcvAt)
    && b.xRcvAt == (if n.got.Some? then n.at else a.xRcvAt)
  }

  lemma WroteNothing(n: Note)
    requires n.wrote == []
    ensures !Asks(n) && !Tests(n) && !Confirms(n) && (Settles(n) <==> n.got.Some? && Cons(n.got.value))
  {
  }

  lemma WroteU(n: Note, t: UType)
    requires n.wrote == [U(t)]
    ensures (Asks(n) <==> t.IsAct()) && (Tests(n) <==> t.TestFrAct?) && !Confirms(n)
    ensures Settles(n) <==> (n.got.Some? && Cons(n.got.value)) || !t.IsAct()
  {
    assert U(t) in n.wrote;
  }

  lemma WroteS(n: Note, nr: nat)
    requires n.wrote == [S(0, nr)]
    ensures !Asks(n) && !Tests(n) && (Confirms(n) <==> n.tick) && (Settles(n) <==> n.got.Some? && Cons(n.got.value))
  {
    assert S(0, nr) in n.wrote;
  }

  lemma WroteSU(n: Note, nr: nat, t: UType)
    requires n.wrote == [S(0, nr)] + [U(t)] && !n.tick
    ensures (Asks(n) <==> t.IsAct()) && (Tests(n) <==> t.TestFrAct?) && !Confirms(n)
    ensures Settles(n) <==> (n.got.Some? && Cons(n.got.value)) || !t.IsAct()
  {
    assert U(t) in n.wrote;
  }

  lemma WroteI(n: Note)
    requires forall f :: f in n.wrote ==> f.I?
    ensures !Asks(n) && !Tests(n) && !Confirms(n) && (Settles(n) <==> n.got.Some? && Cons(n.got.value))
  {
  }

  lemma TimerMoves(l: Link, now: int)
    requires InRange(l) && l.conn && Timer(l, now).link.conn
    ensures Moves(l.tm, NoteOf(l, OpTimer, now), Timer(l, now).link.tm)
  {
    var n := NoteOf(l, OpTimer, now);
    hide Asks, Settles, Tests, Confirms;
    WroteNothingIf(n);
    if n.wrote == [U(TestFrAct)] { WroteU(n, TestFrAct); }
    if n.wrote == [S(0, l.num.vr)] { WroteS(n, l.num.vr); }
  }

  lemma WroteNothingIf(n: Note)
    ensures n.wrote == [] ==> !Asks(n) && !Tests(n) && !Confirms(n) && (Settles(n) <==> n.got.Some? && Cons(n.got.value))
  {
  }

  lemma RequestMoves(l: Link, t: UType, now: int)
    requires InRange(l) && l.conn
    ensures Moves(l.tm, NoteOf(l, OpRequest(t), now), MasterSlave(l, Request(t), now).link.tm)
  {
    var n := NoteOf(l, OpRequest(t), now);
    hide Asks, Settles, Tests, Confirms;
    WroteNothingIf(n);
    if n.wrote != [] { WroteU(n, n.wrote[0].t); }
  }

  lemma ConnectMoves(l: Link, now: int)
    requires InRange(l) && !l.conn
    ensures Moves(l.tm, NoteOf(l, OpConnect, now), Connect(l, now).link.tm)
  {
    var n := NoteOf(l, OpConnect, now);
    hide Asks, Settles, Tests, Confirms;
    WroteNothingIf(n);
    if n.wrote != [] { WroteU(n, n.wrote[0].t); }
  }

  lemma RunOutMoves(l: Link, budget: nat, now: int)
    requires InRange(l) && l.conn
    ensures Moves(l.tm, NoteOf(l, OpRunOut(budget), now), RunOut(l, budget, now).link.tm)
  {
    hide Asks, Settles, Tests, Confirms;
    WroteI(NoteOf(l, OpRunOut(budget), now));
  }

  lemma ReceiveUMoves(l: Link, t: UType, now: int)
    requires InRange(l) && l.conn
    ensures Moves(l.tm, NoteOf(l, OpReceive(U(t)), now), Receive(l, U(t), now).link.tm)
  {
    var n := NoteOf(l, OpReceive(U(t)), now);
    hide Asks, Settles, Tests, Confirms;
    WroteNothingIf(n);
    if n.wrote != [] { WroteU(n, n.wrote[0].t); }
  }

  lemma ReceiveSMoves(l: Link, ext: Byte, nr: nat, now: int)
    requires InRange(l) && l.conn && nr < l.cfg.n
    ensures Moves(l.tm, NoteOf(l, OpReceive(S(ext, nr)), now), Receive(l, S(ext, nr), now).link.tm)
  {
    var n := NoteOf(l, OpReceive(S(ext, nr)), now);
    hide Asks, Settles, Tests, Confirms, OkNr, FirstNs;
    WroteNothingIf(n);
    if n.wrote == [S(0, l.num.vr)] { WroteS(n, l.num.vr); }
    if n.wrote != [] && n.wrote[0].U? { WroteU(n, n.wrote[0].t); }
  }

  /** An S frame, a confirmation, both or none. */
  predicate Reply(tx: seq<Frame>, vr: nat)
  {
    || tx == [] || tx == [S(0, vr)] || (|tx| == 1 && Cons(tx[0]))
    || (|tx| == 2 && tx == [S(0, vr)] + [tx[1]] && Cons(tx[1]))
  }

  predicate Confirming(tx: seq<Frame>) { tx != [] && tx[|tx| - 1].U? }

  lemma ReplyIsNoted(n: Note, vr: nat)
    requires Reply(n.wrote, vr) && !n.tick
    ensures !Asks(n) && !Tests(n) && !Confirms(n)
    ensures Settles(n) <==> (n.got.Some? && Cons(n.got.value)) || Confirming(n.wrote)
  {
    hide Asks, Settles, Tests, Confirms;
    WroteNothingIf(n);
    if n.wrote != [] {
      if n.wrote[0].U? {
        WroteU(n, n.wrote[0].t);
      } else if |n.wrote| == 1 {
        WroteS(n, vr);
      } else {
        WroteSU(n, vr, n.wrote[1].t);
      }
    }
  }

  lemma DataMoves(l: Link, ns: nat, asdu: Asdu, now: int)
    requires l.num.vapeer < l.cfg.n && l.conn
    ensures var e, took := ReceiveData(l, ns, asdu, now), ns == l.num.vr;
            && Reply(e.tx, if took then Succ(l.num.vr, l.cfg.n) else l.num.vr)
            && (|e.link.log.up| > |l.log.up| <==> took)
            && e.link.tm == l.tm.(uSndAt := if Confirming(e.tx) then 0 else l.tm.uSndAt,
                                  iRcvAt := if took && l.tm.iRcvAt == 0 then now else l.tm.iRcvAt)
  {
    hide Dist, Succ;
  }

  lemma ReceiveIMoves(l: Link, ns: nat, nr: nat, asdu: Asdu, now: int)
    requires InRange(l) && l.conn && nr < l.cfg.n
    ensures Moves(l.tm, NoteOf(l, OpReceive(I(ns, nr, asdu)), now), Receive(l, I(ns, nr, asdu), now).link.tm)
  {
    hide Asks, Settles, Tests, Confirms, OkNr, FirstNs, ReceiveData, Reply, Confirming;
    var n := NoteOf(l, OpReceive(I(ns, nr, asdu)), now);
    var l1 := WakeWriter(Acknowledge(RestartT3(l, now), nr));
    DataMoves(l1, ns, asdu, now);
    ReplyIsS(l.num.vr);
    ReplyIsNoted(n, if OkNr(l.num.va, l.num.vs, nr, l.cfg.n) && ns == l.num.vr then Succ(l.num.vr, l.cfg.n) else l.num.vr);
  }

  lemma ReplyIsS(vr: nat)
    ensures Reply([S(0, vr)], vr) && !Confirming([S(0, vr)])
  {
  }

  lemma ApplyMoves(l: Link, op: Op, now: int)
    requires InRange(l) && Enabled(l, op) && Apply(l, op, now).link.conn
    ensures Moves(l.tm, NoteOf(l, op, now), Apply(l, op, now).link.tm)
  {
    hide Moves, Receive, Timer, RunOut, MasterSlave, Connect;
    match op
    case OpConnect => ConnectMoves(l, now);
    case OpReceive(U(t)) => ReceiveUMoves(l, t, now);
    case OpReceive(S(ext, nr)) => ReceiveSMoves(l, ext, nr, now);
    case OpReceive(I(ns, nr, asdu)) => ReceiveIMoves(l, ns, nr, asdu, now);
    case OpRunOut(budget) => ApplyConn(l, op, now); RunOutMoves(l, budget, now);
    case OpRequest(t) => ApplyConn(l, op, now); RequestMoves(l, t, now);
    case OpTimer => ApplyConn(l, op, now); TimerMoves(l, now);
    case OpPut(asdu) => StillMoves(l, NoteOf(l, op, now));
    case OpAckTimer => StillMoves(l, NoteOf(l, op, now));
    case OpDisconnect =>
  }

  lemma ApplyConn(l: Link, op: Op, now: int)
    requires InRange(l) && Enabled(l, op) && !op.OpConnect? && Apply(l, op, now).link.conn
    ensures l.conn
  {
  }

  lemma StillMoves(l: Link, n: Note)
    requires n.wrote == [] && n.got.None? && !n.took
    ensures Moves(l.tm, n, l.tm)
  {
    WroteNothingIf(n);
  }

  // ---- every run ----

  lemma ClosedTimers(l: Link, op: Op, now: int)
    requires InRange(l) && Enabled(l, op) && !Apply(l, op, now).link.conn
    ensures var t := Apply(l, op, now).link.tm; t == Timers(0, 0, 0, 0) || (!l.conn && t == l.tm)
  {
    match op
    case OpReceive(f) => ReceiveStaysUp(l, f, now);
    case OpConnect => MasterSlaveFrame(l.(conn := true, mode := PollIn), TcpUp, now);
    case _ =>
  }

  lemma ReceiveStaysUp(l: Link, f: Frame, now: int)
    requires InRange(l) && l.conn
    ensures Receive(l, f, now).link.conn
  {
    hide OkNr, FirstNs, Dist;
  }

  lemma NothingShown(l: Link, j: seq<Note>, last: int)
    requires Tells(l, j, last) && !l.conn
    ensures l.tm == Timers(0, 0, 0, 0)
  {
    ShownNothing(l.tm.uSndAt, Asks, Settles);
    ShownNothing(l.tm.tSndAt, Tests, Answered);
    ShownNothing(l.tm.iRcvAt, Takes, Confirms);
    hide Shows;
  }

  lemma ShownNothing(t: int, begins: Note -> bool, ends: Note -> bool)
    ensures Shows(t, [], begins, ends) <==> t == 0
  {
  }

  lemma TellsNothing(l: Link, last: int)
    requires l.tm == Timers(0, 0, 0, 0)
    ensures Tells(l, [], last)
  {
    ShownNothing(0, Asks, Settles);
    ShownNothing(0, Tests, Answered);
    ShownNothing(0, Takes, Confirms);
    hide Shows;
  }

  lemma ApplyTells(l: Link, j: seq<Note>, op: Op, last: int, now: int)
    requires InRange(l) && Enabled(l, op) && Tells(l, j, last) && last <= now && 0 < now
    ensures Tells(Apply(l, op, now).link, Noted(j, l, op, now), now)
  {
    hide Apply, Enabled, Shows, LastHeard, Asks, Settles, Tests, Answered, Takes, Confirms;
    var l' := Apply(l, op, now).link;
    if l'.conn {
      var n := NoteOf(l, op, now);
      ApplyMoves(l, op, now);
      assert Noted(j, l, op, now) == j + [n];
      ShowsNext(l.tm.uSndAt, j, n, Asks, Settles);
      ShowsNext(l.tm.tSndAt, j, n, Tests, Answered);
      ShowsNext(l.tm.iRcvAt, j, n, Takes, Confirms);
      HeardNext(l.tm.xRcvAt, j, n);
    } else {
      ClosedTimers(l, op, now);
      if !l.conn { NothingShown(l, j, last); }
      TellsNothing(l', now);
    }
  }

  lemma {:induction false} KeptTells(cfg: Config, run: seq<Timed>, l: Link, j: seq<Note>)
    requires cfg.Valid() && Kept(cfg, run, l, j) && Clock(run)
    ensures Inv(l) && l.cfg == cfg && Tells(l, j, LastTime(run))
  {
    hide Inv, Tells, Apply, Enabled, Noted;
    if run == [] {
      FreshInv(cfg);
      TellsNothing(l, 0);
    } else {
      var m := |run| - 1;
      var p, i :| Kept(cfg, run[..m], p, i) && StepTo(p, run[m], l) && j == Noted(i, p, run[m].op, run[m].now);
      KeptTells(cfg, run[..m], p, i);
      StepKeepsInv(p, run[m], l);
      ApplyTells(p, i, run[m].op, LastTime(run[..m]), run[m].now);
    }
  }

  // ---- the ticks ----

  /** What one tick does, from the journal: it ends the connection exactly if an act frame that was
      written has been neither answered nor overtaken by a confirmation for more than t1; else it
      confirms the data exactly if data was handed up more than t2 ago and no tick has confirmed
      since; else it writes a test frame exactly if nothing was received for t3 and no test frame
      is outstanding; and it writes nothing else. */
  lemma TickExactly(cfg: Config, run: seq<Timed>, l: Link, j: seq<Note>, now: int)
    requires cfg.Valid() && Kept(cfg, run, l, j) && Clock(run) && l.conn && LastTime(run) <= now && 0 < now
    ensures var e := Timer(l, now);
            var overdue := exists i :: Open(j, i, Asks, Settles) && now - j[i].at > cfg.t1;
            var unconfirmed := exists i :: Open(j, i, Takes, Confirms) && now - j[i].at > cfg.t2;
            var silent := !HeardWithin(j, now, cfg.t3) && !exists i :: Open(j, i, Tests, Answered);
            && (e.link.conn <==> !overdue)
            && e.tx == (if overdue then []
                        else if unconfirmed then [S(0, l.num.vr)]
                        else if silent then [U(TestFrAct)]
                        else [])
  {
    hide Inv, Kept, Open, Shows, LastHeard, HeardWithin, Clocked;
    KeptTells(cfg, run, l, j);
    var last := LastTime(run);
    OlderExactly(l.tm.uSndAt, j, Asks, Settles, last, now, cfg.t1);
    OlderExactly(l.tm.iRcvAt, j, Takes, Confirms, last, now, cfg.t2);
    OlderExactly(l.tm.tSndAt, j, Tests, Answered, last, now, 0);
    HeardExactly(l.tm.xRcvAt, j, last, now, cfg.t3);
  }

  /** Supervision: a tick that keeps the connection leaves no unanswered act frame older than t1,
      and unless it confirms data, something was received within t3 or a test frame is out. */
  lemma TickSupervises(cfg: Config, run: seq<Timed>, l: Link, j: seq<Note>, now: int)
    requires cfg.Valid() && Kept(cfg, run, l, j) && Clock(run) && l.conn && LastTime(run) <= now && 0 < now
    requires Timer(l, now).link.conn
    ensures InRange(l)
    ensures var j' := Noted(j, l, OpTimer, now);
            && (forall i :: Open(j', i, Asks, Settles) ==> now - j'[i].at <= cfg.t1)
            && (HeardWithin(j', now, cfg.t3) || (exists i :: Open(j', i, Tests, Answered)) || Timer(l, now).tx == [S(0, l.num.vr)])
  {
    hide Inv, Kept, Open, Shows, LastHeard, HeardWithin, Clocked, Noted, Timer;
    KeptTells(cfg, run, l, j);
    InvInRange(l);
    ApplyTells(l, j, OpTimer, LastTime(run), now);
    TimerAfter(l, now);
    var l', j' := Timer(l, now).link, Noted(j, l, OpTimer, now);
    OlderExactly(l'.tm.uSndAt, j', Asks, Settles, now, now, cfg.t1);
    OlderExactly(l'.tm.tSndAt, j', Tests, Answered, now, now, 0);
    HeardExactly(l'.tm.xRcvAt, j', now, now, cfg.t3);
  }

  lemma TimerAfter(l: Link, now: int)
    requires l.conn && Timer(l, now).link.conn && 0 < now
    ensures var e := Timer(l, now);
            var t := e.link.tm;
            && (t.uSndAt == 0 || Abs(now - t.uSndAt) <= l.cfg.t1)
            && (e.tx == [S(0, l.num.vr)] || t.tSndAt != 0 || (t.xRcvAt != 0 && Abs(now - t.xRcvAt) <= l.cfg.t3))
  {
  }
}
