/** What becomes of a link that receives nothing more: the ticks end it, but for one case. */
module Silence {
  import opened LinkSpec
  import opened LinkProps
  import opened LinkRuns
  import opened Restart
  import opened Watchdog

  /** Every run has a journal. */
  lemma {:induction false} HasJournal(cfg: Config, run: seq<Timed>, l: Link) returns (j: seq<Note>)
    requires Reaches(cfg, run, l)
    ensures Kept(cfg, run, l, j)
  {
    hide Noted, Apply, Enabled;
    if run == [] {
      j := [];
    } else {
      var m := |run| - 1;
      var p :| Reaches(cfg, run[..m], p) && StepTo(p, run[m], l);
      var i := HasJournal(cfg, run[..m], p);
      j := Noted(i, p, run[m].op, run[m].now);
    }
  }

  /** Ticks and nothing else. */
  function Ticked(l: Link, ticks: seq<int>): Link
    decreases |ticks|
  {
    if ticks == [] then l else Ticked(Timer(l, ticks[0]).link, ticks[1..])
  }

  /** Each tick comes more than any of the times t1, t2 and t3 after the one before. */
  predicate Spaced(cfg: Config, last: int, ticks: seq<int>)
    decreases |ticks|
  {
    ticks == [] || (last + cfg.t1 < ticks[0] && last + cfg.t2 < ticks[0] && last + cfg.t3 < ticks[0]
                    && Spaced(cfg, ticks[0], ticks[1..]))
  }

  /** No timer was started after `last`. */
  predicate Before(t: Timers, last: int)
  {
    0 <= last && 0 <= t.uSndAt <= last && 0 <= t.iRcvAt <= last && t.xRcvAt <= last
  }

  lemma {:induction false} EndedStays(l: Link, ticks: seq<int>)
    requires !l.conn
    ensures !Ticked(l, ticks).conn
    decreases |ticks|
  {
    if ticks != [] { EndedStays(Timer(l, ticks[0]).link, ticks[1..]); }
  }

  /** A test frame is out, but the timer that supervises it is not running: ticks never end it. */
  lemma {:induction false} HungStays(l: Link, ticks: seq<int>)
    requires l.conn && l.tm.uSndAt == 0 && l.tm.tSndAt != 0
    ensures Ticked(l, ticks).conn
    decreases |ticks|
  {
    if ticks != [] { HungStays(Timer(l, ticks[0]).link, ticks[1..]); }
  }

  /** How many spaced ticks it takes at most. */
  function Left(t: Timers): nat { if t.uSndAt != 0 then 1 else if t.iRcvAt == 0 then 2 else 3 }

  lemma TickCounts(l: Link, last: int, now: int)
    requires l.conn && Before(l.tm, last) && Spaced(l.cfg, last, [now])
    requires !(l.tm.uSndAt == 0 && l.tm.tSndAt != 0)
    ensures var r := Timer(l, now).link;
            r.conn ==> Left(r.tm) < Left(l.tm) && Before(r.tm, now) && r.cfg == l.cfg
                       && !(r.tm.uSndAt == 0 && r.tm.tSndAt != 0)
  {
  }

  lemma {:induction false} SilentEnds(l: Link, last: int, ticks: seq<int>)
    requires l.conn && Before(l.tm, last) && Spaced(l.cfg, last, ticks) && Left(l.tm) <= |ticks|
    requires !(l.tm.uSndAt == 0 && l.tm.tSndAt != 0)
    ensures !Ticked(l, ticks).conn
    decreases |ticks|
  {
    var now := ticks[0];
    var r := Timer(l, now).link;
    assert [now][1..] == [];
    TickCounts(l, last, now);
    hide Timer;
    if r.conn {
      SilentEnds(r, now, ticks[1..]);
    } else {
      EndedStays(r, ticks[1..]);
    }
  }

  lemma StartedBefore(l: Link, j: seq<Note>, last: int)
    requires Tells(l, j, last) && 0 <= last
    ensures Before(l.tm, last)
    ensures (exists i :: Open(j, i, Asks, Settles)) <==> l.tm.uSndAt != 0
    ensures (exists i :: Open(j, i, Tests, Answered)) <==> l.tm.tSndAt != 0
  {
    hide Open, Shows;
    OlderExactly(l.tm.uSndAt, j, Asks, Settles, last, last, 0);
    OlderExactly(l.tm.iRcvAt, j, Takes, Confirms, last, last, 0);
    OlderExactly(l.tm.tSndAt, j, Tests, Answered, last, last, 0);
  }

  /** A link that receives nothing more is ended by three spaced ticks, exactly if it is not waiting
      for the answer to a test frame while every act frame it has written is settled: writing or
      receiving any confirmation stops the timer that supervises the test frame as well. */
  lemma SilentLinkEndsExactly(cfg: Config, run: seq<Timed>, l: Link, j: seq<Note>, ticks: seq<int>)
    requires cfg.Valid() && Kept(cfg, run, l, j) && Clock(run) && l.conn
    requires Spaced(cfg, LastTime(run), ticks) && 3 <= |ticks|
    ensures !Ticked(l, ticks).conn <==>
            !((exists i :: Open(j, i, Tests, Answered)) && !exists i :: Open(j, i, Asks, Settles))
  {
    hide Inv, Kept, Tells, Open, Spaced, Ticked, Before;
    KeptTells(cfg, run, l, j);
    StartedBefore(l, j, LastTime(run));
    if l.tm.uSndAt == 0 && l.tm.tSndAt != 0 {
      HungStays(l, ticks);
    } else {
      SilentEnds(l, LastTime(run), ticks);
    }
  }

  /** Every configuration can get there: the link writes a test frame, confirms one of its peer, and
      if it then receives nothing more, no number of ticks ends it. */
  lemma HangsForEver(cfg: Config) returns (run: seq<Timed>, l: Link)
    requires cfg.Valid()
    ensures Reaches(cfg, run, l) && Inv(l) && l.conn
    ensures forall ticks :: Ticked(l, ticks).conn
  {
    hide Reaches, Inv, Connect;
    var f := Fresh(cfg);
    ReachesFresh(cfg);
    ReachableInv(cfg, [], f);
    InvInRange(f);
    OneStep(cfg, [], f, OpConnect);
    var l1 := Connect(f, 1).link;
    InvConnect(f, 1);
    InvInRange(l1);
    ConnectStays(f);
    OneStep(cfg, [] + [Timed(OpConnect, 1)], l1, OpRequest(TestFrAct));
    var l2 := MasterSlave(l1, Request(TestFrAct), 1).link;
    InvMasterSlave(l1, Request(TestFrAct), 1);
    InvInRange(l2);
    OneStep(cfg, [] + [Timed(OpConnect, 1)] + [Timed(OpRequest(TestFrAct), 1)], l2, OpReceive(U(TestFrAct)));
    run := [] + [Timed(OpConnect, 1)] + [Timed(OpRequest(TestFrAct), 1)] + [Timed(OpReceive(U(TestFrAct)), 1)];
    l := Receive(l2, U(TestFrAct), 1).link;
    InvReceive(l2, U(TestFrAct), 1);
    forall ticks ensures Ticked(l, ticks).conn { HungStays(l, ticks); }
  }
}
