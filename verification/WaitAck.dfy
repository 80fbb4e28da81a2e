/** The wait-ack list of a context: the links that have unacknowledged messages, kept beside the
    full list so that the acknowledgement timer need not visit every link. */
module WaitAck {
  import opened LinkSpec
  import opened LapLinks

  ghost predicate Distinct<T>(s: seq<T>)
  {
    forall i, j :: 0 <= i < j < |s| ==> s[i] != s[j]
  }

  /** Unlinks `x` from the list. */
  function Unlink(s: seq<LapLink>, x: LapLink): (r: seq<LapLink>)
    ensures forall y :: y in r ==> y in s
    ensures Distinct(s) ==> Distinct(r) && x !in r && forall y :: y in s && y != x ==> y in r
  {
    if s == [] then []
    else if s[0] == x then s[1..]
    else
      var r := [s[0]] + Unlink(s[1..], x);
      assert forall y :: y in s ==> y == s[0] || y in s[1..];
      assert Distinct(s) ==> s[0] !in s[1..];
      r
  }

  lemma ReceiveShrinksAckQueue(l: Link, f: Frame, now: int)
    requires l.num.va < l.cfg.n && l.num.vapeer < l.cfg.n
    ensures |Receive(l, f, now).link.ackq| <= |l.ackq|
  {
  }

  class Context {
    var fulllist: seq<LapLink>
    var waitAck: seq<LapLink>

    /** Some message of `lk` has waited T1 or longer. */
    static ghost predicate Overdue(lk: LapLink, now: int)
      reads lk
    {
      exists i :: 0 <= i < |lk.ackq| && Abs(now - lk.ackq[i].at) >= lk.cfg.t1
    }

    ghost predicate Listed()
      reads this, fulllist
    {
      && Distinct(fulllist) && Distinct(waitAck)
      && (forall lk :: lk in waitAck ==> lk in fulllist)
      && (forall lk :: lk in fulllist ==> lk.Counted() && (lk.inWaitAck <==> lk in waitAck))
    }

    /** The wait-ack list is an exact index of the links with a non-empty ack queue. */
    ghost predicate Valid()
      reads this, fulllist
    {
      Listed() && forall lk :: lk in fulllist ==> (lk.inWaitAck <==> lk.ackq != [])
    }

    /** Exact, except perhaps for `x`. */
    ghost predicate ValidBut(x: LapLink)
      reads this, fulllist
    {
      Listed() && forall lk :: lk in fulllist && lk != x ==> (lk.inWaitAck <==> lk.ackq != [])
    }

    constructor ()
      ensures Valid() && fulllist == [] && waitAck == []
    {
      fulllist, waitAck := [], [];
    }

    method AddWaitAckList(lk: LapLink)
      requires ValidBut(lk) && lk in fulllist && (lk.inWaitAck ==> lk.ackq != [])
      modifies this`waitAck, lk`inWaitAck
      ensures Valid()
    {
      if !lk.inWaitAck && lk.ackcount > 0 {
        waitAck := waitAck + [lk];
        lk.inWaitAck := true;
      }
    }

    /** Takes a link off the list: unconditionally, or if its ack queue is empty. With `nocond` the
        ack queue may still be full; the caller is about to free it. */
    method DelWaitAckList(lk: LapLink, nocond: bool)
      requires ValidBut(lk) && lk in fulllist && (lk.ackq != [] && !nocond ==> lk.inWaitAck)
      modifies this`waitAck, lk`inWaitAck
      ensures ValidBut(lk) && (lk.inWaitAck <==> !nocond && lk.ackq != [])
      ensures !nocond || lk.ackq == [] ==> Valid()
    {
      if lk.inWaitAck && (nocond || lk.ackcount <= 0) {
        waitAck := Unlink(waitAck, lk);
        lk.inWaitAck := false;
      }
    }

    // ---- every operation on a link of the context keeps the index exact ----

    method AddLink(lk: LapLink)
      requires Valid() && lk !in fulllist && lk.Counted() && !lk.inWaitAck && lk.ackq == []
      modifies this`fulllist
      ensures Valid() && fulllist == old(fulllist) + [lk]
    {
      fulllist := fulllist + [lk];
    }

    method RunOutQueue(lk: LapLink, budget: nat, now: int)
      requires Valid() && lk in fulllist && lk.Valid()
      modifies this`waitAck, lk
      ensures Valid() && lk.Valid()
      ensures var e := RunOut(old(lk.State()), budget, now); lk.State() == e.link && lk.wire == old(lk.wire) + e.tx
    {
      var ran := lk.RunOutQueue(budget, now);
      if ran {
        AddWaitAckList(lk);
      }
    }

    method IncomingFrame(lk: LapLink, f: Frame, now: int)
      requires Valid() && lk in fulllist && lk.Valid() && lk.conn
      modifies this`waitAck, lk
      ensures Valid()
      ensures var e := Receive(old(lk.State()), f, now); lk.State() == e.link && lk.wire == old(lk.wire) + e.tx
    {
      ReceiveShrinksAckQueue(lk.State(), f, now);
      lk.IncomingFrame(f, now);
      DelWaitAckList(lk, false);
    }

    method Disconnected(lk: LapLink)
      requires Valid() && lk in fulllist && lk.Valid()
      modifies this`waitAck, lk
      ensures Valid() && lk.Valid() && lk.State() == Disconnect(old(lk.State()))
    {
      DelWaitAckList(lk, true);
      lk.Disconnected();
    }

    method TimerT1T2T3(lk: LapLink, now: int)
      requires Valid() && lk in fulllist && lk.Valid()
      modifies this`waitAck, lk
      ensures Valid() && lk.Valid() && lk.State() == Timer(old(lk.State()), now).link
    {
      lk.TimerT1T2T3(now);
      if !lk.conn {
        DelWaitAckList(lk, true);
      }
    }

    /** T1 of the I frames, for one link. */
    method TimerAckQueue(lk: LapLink, now: int)
      requires Valid() && lk in fulllist && lk.Valid()
      modifies this`waitAck, lk
      ensures Valid() && lk.Valid() && lk.State() == AckTimer(old(lk.State()), now)
    {
      lk.TimerAckQueue(now);
      if lk.ackcount == 0 {
        DelWaitAckList(lk, true);
      }
    }

    method PutOutQueue(lk: LapLink, asdu: Asdu) returns (ret: nat)
      requires Valid() && lk in fulllist && lk.Valid()
      modifies lk`mode, lk`outq, lk`outcount, lk`log
      ensures Valid() && lk.Valid() && lk.State() == Put(old(lk.State()), asdu)
    {
      ret := lk.PutOutQueue(asdu);
    }

    method Connected(lk: LapLink, now: int)
      requires Valid() && lk in fulllist && lk.Valid() && !lk.conn
      modifies lk`conn, lk`mode, lk`ssp, lk`tm, lk`wire
      ensures Valid() && lk.Valid() && lk.State() == Connect(old(lk.State()), now).link
    {
      lk.Connected(now);
    }

    method EventRequest(lk: LapLink, t: UType, now: int)
      requires Valid() && lk in fulllist && lk.Valid()
      modifies lk`ssp, lk`tm, lk`wire
      ensures Valid() && lk.Valid() && lk.State() == MasterSlave(old(lk.State()), Request(t), now).link
    {
      lk.EventRequest(t, now);
    }

    /** Walks the wait-ack list only, and finds exactly the links of the full list that have an
        overdue message, each once. */
    method ScanWaitAck(now: int) returns (late: seq<LapLink>)
      requires Valid()
      ensures Distinct(late)
      ensures forall lk :: lk in late <==> lk in fulllist && Overdue(lk, now)
    {
      late := [];
      for i := 0 to |waitAck|
        invariant Distinct(late)
        invariant forall lk :: lk in late <==> lk in waitAck[..i] && Overdue(lk, now)
      {
        var lk := waitAck[i];
        assert lk !in waitAck[..i];
        var k := 0;
        while k < |lk.ackq| && Abs(now - lk.ackq[k].at) < lk.cfg.t1
          invariant k <= |lk.ackq|
          invariant forall j :: 0 <= j < k ==> Abs(now - lk.ackq[j].at) < lk.cfg.t1
        {
          k := k + 1;
        }
        if k < |lk.ackq| {
          late := late + [lk];
        }
        assert waitAck[..i + 1] == waitAck[..i] + [lk];
      }
      assert waitAck[..|waitAck|] == waitAck;
    }
  }
}
