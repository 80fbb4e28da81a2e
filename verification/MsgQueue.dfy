/** The message queue as it runs: message objects whose flags, deadlines and serial numbers are
    rewritten in place, two lists, and three counters. Each method does to the ghost `q` what the
    functions of MsgSpec say. */
module MsgQueue {
  import opened Options
  import opened Serials
  import opened MsgTime
  import opened TimerList
  import opened MsgSpec
  import opened MsgProps
  import opened MsgSteps

  class IMsg {
    const cls: int
    const typ: int
    const to: nat
    var serial: nat
    var timer: bool
    var delayed: bool
    var end: Time
    var diffms: int

    /** The number of the last insertion. */
    ghost var stamp: nat

    constructor Timer(cls: int, typ: int, delta: int, to: nat, now: Time)
      ensures this.cls == cls && this.typ == typ && this.to == to
      ensures timer && !delayed && diffms == delta && end.Total() == now.Total() + delta * NS_PER_MS
      ensures now.Normal() && 0 <= delta ==> end.Normal()
    {
      this.cls, this.typ, this.to := cls, typ, to;
      serial, timer, delayed, end, diffms := 0, true, false, Deadline(now, delta), delta;
      new;
      if now.Normal() { DeadlineNormalExactly(now, delta); }
    }

    constructor (cls: int, typ: int, to: nat, now: Time)
      ensures this.cls == cls && this.typ == typ && this.to == to
      ensures !timer && !delayed && diffms == 0 && end == now
    {
      this.cls, this.typ, this.to := cls, typ, to;
      serial, timer, delayed, end, diffms := 0, false, false, now, 0;
    }

    ghost function Item(): Item<IMsg>
      reads this
    {
      MsgSpec.Item(this, stamp, end, timer, delayed)
    }

    ghost predicate Shows(x: Item<IMsg>)
      reads this
    {
      x == Item() && 1 <= stamp && serial == SerialOf(stamp)
    }
  }

  predicate Matches(m: IMsg, to: nat, cls: int, typ: int) {
    m.to == to && (cls == -1 || m.cls == cls) && (typ == -1 || m.typ == typ)
  }

  function Matching(to: nat, cls: int, typ: int): IMsg -> bool {
    (m: IMsg) => Matches(m, to, cls, typ)
  }

  function All(): IMsg -> bool { (m: IMsg) => true }

  // ---- linked lists of messages and what they show ----

  ghost predicate Linked(l: seq<IMsg>, xs: seq<Item<IMsg>>)
    reads l
  {
    && |l| == |xs| && (forall i :: 0 <= i < |l| ==> l[i].Shows(xs[i]))
    && (forall i, j :: 0 <= i < j < |l| ==> l[i] != l[j])
  }

  lemma InsertLinked(l: seq<IMsg>, xs: seq<Item<IMsg>>, p: nat, m: IMsg, x: Item<IMsg>)
    requires Linked(l, xs) && m !in l && m.Shows(x) && p <= |l|
    ensures Linked(Inserted(l, p, m), Inserted(xs, p, x))
    ensures m in Inserted(l, p, m) && |Inserted(l, p, m)| == |l| + 1
  {
  }

  lemma WithoutLinked(l: seq<IMsg>, xs: seq<Item<IMsg>>, p: nat)
    requires Linked(l, xs) && p < |l|
    ensures Linked(Without(l, p), Without(xs, p)) && l[p] !in Without(l, p)
  {
  }

  /** Lists with different flags have no message in common. */
  lemma ListsApart(l: seq<IMsg>, xs: seq<Item<IMsg>>, l2: seq<IMsg>, ys: seq<Item<IMsg>>)
    requires Linked(l, xs) && Linked(l2, ys)
    requires (forall x :: x in xs ==> !x.Timed()) && (forall y :: y in ys ==> y.Timed())
    ensures forall m :: m in l ==> m !in l2
  {
    forall i, j | 0 <= i < |l| && 0 <= j < |l2| ensures l[i] != l2[j] {
      assert l[i].Shows(xs[i]) && l2[j].Shows(ys[j]) && xs[i] in xs && ys[j] in ys;
    }
  }

  lemma LinkedAt(l: seq<IMsg>, xs: seq<Item<IMsg>>)
    requires Linked(l, xs)
    ensures |l| == |xs| && forall i :: 0 <= i < |l| ==> l[i].Shows(xs[i])
  {
  }

  lemma EndsLinked(l: seq<IMsg>, xs: seq<Item<IMsg>>)
    requires Linked(l, xs)
    ensures |l| == |Ends(xs)| && forall i :: 0 <= i < |l| ==> l[i].end == Ends(xs)[i]
  {
  }

  lemma AddFlags<M>(q: Queue<M>, x: Item<M>, last: nat)
    requires ByFlags(q)
    ensures ByFlags(Add(q.(stamp := last), x))
  {
  }

  lemma TimerLinked(l: seq<IMsg>, q: Queue<IMsg>, p: nat, m: IMsg)
    requires Linked(l, q.timers) && ByFlags(q) && m !in l && m.Shows(m.Item()) && (m.timer || m.delayed)
    requires p == InsertAt(Ends(q.timers), m.end)
    ensures p <= |l| && m in Inserted(l, p, m) && |Inserted(l, p, m)| == |l| + 1
    ensures var r := Add(q.(stamp := m.stamp - 1), m.Item());
            Linked(Inserted(l, p, m), r.timers) && ByFlags(r) && r.msgs == q.msgs
  {
    hide CmpTime, LastNotLater;
    LinkedAt(l, q.timers);
    AddFlags(q, m.Item(), m.stamp - 1);
    InsertLinked(l, q.timers, p, m, m.Item());
    assert m.Item().(stamp := m.stamp - 1 + 1) == m.Item();
  }

  lemma CutTimerLinked(l: seq<IMsg>, q: Queue<IMsg>, i: nat)
    requires Linked(l, q.timers) && ByFlags(q) && i < |l|
    ensures |Without(l, i)| == |l| - 1 && l[i] !in Without(l, i) && |l| == |q.timers|
    ensures l[i].Shows(q.timers[i]) && q.timers[i].Timed()
    ensures forall m :: m in Without(l, i) ==> m in l
    ensures var r := q.(timers := Without(q.timers, i));
            Linked(Without(l, i), r.timers) && ByFlags(r) && r.msgs == q.msgs
  {
    WithoutLinked(l, q.timers, i);
  }

  lemma CutMsgLinked(l: seq<IMsg>, q: Queue<IMsg>, i: nat)
    requires Linked(l, q.msgs) && ByFlags(q) && i < |l|
    ensures |Without(l, i)| == |l| - 1 && l[i] !in Without(l, i) && |l| == |q.msgs|
    ensures l[i].Shows(q.msgs[i]) && !q.msgs[i].Timed()
    ensures forall m :: m in Without(l, i) ==> m in l
    ensures var r := q.(msgs := Without(q.msgs, i));
            Linked(Without(l, i), r.msgs) && ByFlags(r) && r.timers == q.timers
  {
    WithoutLinked(l, q.msgs, i);
  }

  class IqMsg {
    const serials: SerialCounter
    var msglist: seq<IMsg>
    var timerlist: seq<IMsg>
    var msgcount: int
    var timercount: int
    var count: int

    ghost var q: Queue<IMsg>
    ghost var ops: seq<Op<IMsg>>

    ghost predicate Core()
      reads this, serials, msglist, timerlist
    {
      serials.Valid() && q.stamp <= serials.issued && Lists()
    }

    /** The lists hold what `q` says, and are counted. */
    ghost predicate Lists()
      reads this`msglist, this`timerlist, this`msgcount, this`timercount, this`count, this`q, msglist, timerlist
    {
      && ByFlags(q) && Linked(msglist, q.msgs) && Linked(timerlist, q.timers)
      && msgcount == |msglist| && timercount == |timerlist| && count == |msglist| + |timerlist|
    }

    constructor (serials: SerialCounter)
      requires serials.Valid()
      ensures Core() && q == Empty().q && ops == [] && this.serials == serials
    {
      this.serials := serials;
      msglist, timerlist, msgcount, timercount, count := [], [], 0, 0, 0;
      q, ops := Empty().q, [];
    }

    /** Where a timer goes: searched for from the end of the list. */
    method TimerPosition(end: Time) returns (p: nat)
      requires Linked(timerlist, q.timers)
      ensures p == InsertAt(Ends(q.timers), end)
    {
      hide Linked, Ends, CmpTime;
      ghost var ends := Ends(q.timers);
      EndsLinked(timerlist, q.timers);
      if timerlist != [] && CmpTime(timerlist[|timerlist| - 1].end, end) > 0 {
        p := |timerlist|;
        while p > 0
          invariant p <= |ends| && LastNotLater(ends, end) == LastNotLater(ends[..p], end)
        {
          p := p - 1;
          if CmpTime(timerlist[p].end, end) <= 0 {
            return;
          }
          assert ends[..p + 1][..p] == ends[..p];
        }
      }
      p := |timerlist|;
    }

    /** Puts a numbered message into the timer list. */
    method LinkTimer(msg: IMsg)
      requires Lists() && msg !in timerlist && msg.Shows(msg.Item()) && (msg.timer || msg.delayed)
      modifies this`timerlist, this`timercount, this`count, this`q
      ensures Lists() && q == Add(old(q).(stamp := msg.stamp - 1), msg.Item())
      ensures msg in timerlist && timercount == old(timercount) + 1
    {
      var p := TimerPosition(msg.end);
      LinkTimerAt(p, msg);
    }

    method LinkTimerAt(p: nat, msg: IMsg)
      requires Lists() && msg !in timerlist && msg.Shows(msg.Item()) && (msg.timer || msg.delayed)
      requires p == InsertAt(Ends(q.timers), msg.end)
      modifies this`timerlist, this`timercount, this`count, this`q
      ensures Lists() && q == Add(old(q).(stamp := msg.stamp - 1), msg.Item())
      ensures msg in timerlist && timercount == old(timercount) + 1
    {
      TimerLinked(timerlist, q, p, msg);
      ghost var r := Add(q.(stamp := msg.stamp - 1), msg.Item());
      hide Linked, ByFlags, Inserted, Add, InsertAt, Ends, IMsg.Shows, IMsg.Item;
      timerlist, q := Inserted(timerlist, p, msg), r;
      timercount, count := timercount + 1, count + 1;
    }

    /** Puts a numbered message at the end of the message list. */
    method LinkMsg(msg: IMsg)
      requires Lists() && msg !in msglist && msg.Shows(msg.Item()) && !msg.timer && !msg.delayed
      modifies this`msglist, this`msgcount, this`count, this`q
      ensures Lists() && q == Add(old(q).(stamp := msg.stamp - 1), msg.Item())
      ensures msglist == old(msglist) + [msg]
    {
      LinkedAt(msglist, q.msgs);
      AddFlags(q, msg.Item(), msg.stamp - 1);
      InsertLinked(msglist, q.msgs, |msglist|, msg, msg.Item());
      hide Linked, ByFlags;
      assert Inserted(msglist, |msglist|, msg) == msglist + [msg];
      assert Inserted(q.msgs, |msglist|, msg.Item()) == q.msgs + [msg.Item()];
      q := Add(q.(stamp := msg.stamp - 1), msg.Item());
      msglist := msglist + [msg];
      msgcount, count := msgcount + 1, count + 1;
    }

    /** Adds a message that is in neither list. */
    method MsgAdd(msg: IMsg) returns (ret: int)
      requires Core() && msg !in msglist && msg !in timerlist
      modifies this`msglist, this`timerlist, this`msgcount, this`timercount, this`count, this`q, serials, msg`serial, msg`stamp
      ensures Core() && q == Add(old(q).(stamp := old(serials.issued)), old(msg.Item())) && q.stamp == serials.issued
      ensures msg.timer || msg.delayed ==>
                ret == timercount && msglist == old(msglist) && msg in timerlist && timercount == old(timercount) + 1
      ensures !msg.timer && !msg.delayed ==>
                ret == msgcount && timerlist == old(timerlist) && msglist == old(msglist) + [msg]
    {
      hide Linked, ByFlags;
      msg.serial := serials.NextSerial();
      msg.stamp := serials.issued;
      if msg.timer || msg.delayed {
        LinkTimer(msg);
        return timercount;
      }
      LinkMsg(msg);
      return msgcount;
    }

    /** Unlinks the i-th timer. */
    method CutTimer(i: nat) returns (msg: IMsg)
      requires Lists() && i < |timerlist|
      modifies this`timerlist, this`timercount, this`count, this`q
      ensures |old(q).timers| == old(|timerlist|) && Lists() && q == old(q).(timers := Without(old(q).timers, i))
      ensures timerlist == Without(old(timerlist), i) && forall m :: m in timerlist ==> m in old(timerlist)
      ensures msg == old(timerlist)[i] && msg !in timerlist && msg !in msglist && msg.Shows(old(q).timers[i])
    {
      msg := timerlist[i];
      CutTimerLinked(timerlist, q, i);
      ListsApart(msglist, q.msgs, timerlist, q.timers);
      ghost var r := q.(timers := Without(q.timers, i));
      hide Linked, ByFlags, Without, IMsg.Shows, IMsg.Item;
      timerlist, q := Without(timerlist, i), r;
      timercount, count := timercount - 1, count - 1;
    }

    /** Unlinks the i-th message. */
    method CutMsg(i: nat) returns (msg: IMsg)
      requires Lists() && i < |msglist|
      modifies this`msglist, this`msgcount, this`count, this`q
      ensures |old(q).msgs| == old(|msglist|) && Lists() && q == old(q).(msgs := Without(old(q).msgs, i))
      ensures msglist == Without(old(msglist), i)
      ensures msg == old(msglist)[i] && msg !in msglist && msg !in timerlist && msg.Shows(old(q).msgs[i])
    {
      msg := msglist[i];
      CutMsgLinked(msglist, q, i);
      ListsApart(msglist, q.msgs, timerlist, q.timers);
      ghost var r := q.(msgs := Without(q.msgs, i));
      hide Linked, ByFlags, Without, IMsg.Shows, IMsg.Item;
      msglist, q := Without(msglist, i), r;
      msgcount, count := msgcount - 1, count - 1;
    }

    /** A delayed message that was unlinked becomes a plain one. */
    method PromoteMsg(msg: IMsg)
      requires Core() && q.stamp == serials.issued && msg !in msglist && msg !in timerlist
      modifies this`msglist, this`timerlist, this`msgcount, this`timercount, this`count, this`q, serials
      modifies msg`serial, msg`stamp, msg`timer, msg`delayed
      ensures Core() && q == Promote(old(q), old(msg.Item())) && q.stamp == serials.issued
      ensures timerlist == old(timerlist)
    {
      hide Linked, ByFlags, Add;
      msg.timer, msg.delayed := false, false;
      var ret := MsgAdd(msg);
    }

    /** The timers are in the set `all`. */
    ghost predicate Among(all: set<IMsg>)
      reads this`timerlist
    {
      forall m :: m in timerlist ==> m in all
    }

    /** Examines the i-th timer; the scan goes on at `next`, or ends with `r`. */
    method ScanOne(i: nat, now: Time, ghost all: set<IMsg>) returns (r: IMsg?, next: nat)
      requires Core() && Among(all) && q.stamp == serials.issued && i < |timerlist| == |q.timers|
      modifies this`msglist, this`timerlist, this`msgcount, this`timercount, this`count, this`q, serials, all
      ensures Core() && q.stamp == serials.issued && i <= next && old(|timerlist| - i) > |timerlist| - next >= 0
      ensures |timerlist| == |q.timers| && Among(all)
      ensures r == null ==> ScanFrom(q, next, now) == ScanFrom(old(q), i, now)
      ensures r != null ==> ScanFrom(old(q), i, now) == (q, Some(r.Item())) && r !in msglist && r !in timerlist
    {
      var msg := timerlist[i];
      assert msg in timerlist;
      LinkedAt(timerlist, q.timers);
      assert msg.Item() == q.timers[i];
      var diff := CmpTime(now, msg.end);
      if diff < -ANTICIP_NS {
        ScanSkips(q, i, now);
        return null, i + 1;
      }
      msg := CutTimer(i);
      msg.diffms := CDiv(diff, NS_PER_MS);
      if !msg.delayed {
        ScanStops(old(q), i, now);
        return msg, i;
      }
      ScanPromotes(old(q), i, now);
      PromoteMsg(msg);
      return null, i;
    }

    /** Goes through the timers: promotes the delayed messages that have expired, and stops at the
        first plain timer that has. */
    method ScanTimerList(now: Time, ghost all: set<IMsg>) returns (r: IMsg?)
      requires Core() && Among(all) && q.stamp == serials.issued
      modifies this`msglist, this`timerlist, this`msgcount, this`timercount, this`count, this`q, serials, all
      ensures Core() && q.stamp == serials.issued
      ensures Among(all)
      ensures r == null ==> ScanFrom(old(q), 0, now) == (q, None)
      ensures r != null ==> ScanFrom(old(q), 0, now) == (q, Some(r.Item())) && r !in msglist && r !in timerlist
    {
      var i := 0;
      LinkedAt(timerlist, q.timers);
      hide Linked, ByFlags, ScanFrom, IMsg.Item;
      while i < |timerlist|
        invariant Core() && q.stamp == serials.issued && i <= |timerlist| == |q.timers|
        invariant ScanFrom(q, i, now) == ScanFrom(old(q), 0, now)
        invariant Among(all)
      {
        r, i := ScanOne(i, now, all);
        if r != null {
          return;
        }
      }
      ScanEnds(q, now);
      return null;
    }

    /** The get behind all others. */
    method MsgGet(mode: GetMode, now: Time, ghost all: set<IMsg>) returns (r: IMsg?)
      requires Core() && Among(all) && q.stamp == serials.issued
      modifies this`msglist, this`timerlist, this`msgcount, this`timercount, this`count, this`q, serials, all
      ensures Core() && q.stamp == serials.issued
      ensures Among(all)
      ensures r == null ==> Get(old(q), mode, now) == (q, None)
      ensures r != null ==> Get(old(q), mode, now) == (q, Some(r.Item())) && r !in msglist && r !in timerlist
    {
      if mode != MsgOnly {
        ScanIsGet(q, mode, now);
        r := ScanTimerList(now, all);
        if r != null || mode == TimerOnly {
          return;
        }
      }
      LinkedAt(msglist, q.msgs);
      if msglist == [] {
        return null;
      }
      assert Without(q.msgs, 0) == q.msgs[1..];
      r := CutMsg(0);
    }

    // ---- the operations, each under the lock of the queue ----

    ghost function Past(): History<IMsg>
      reads this`ops
    {
      Run(Empty(), ops)
    }

    /** The queue is what all operations so far have made of the empty one. */
    ghost predicate Valid()
      reads this, serials, msglist, timerlist
    {
      Core() && q == Past().q
    }

    /** Notes an operation that has been carried out. */
    ghost method Note(op: Op<IMsg>)
      requires q == Apply(Past(), op).q
      modifies this`ops
      ensures ops == old(ops) + [op] && Past() == Apply(old(Past()), op) && q == Past().q
    {
      RunSnoc(Empty(), ops, op);
      ops := ops + [op];
    }

    /** Takes note of the numbers used by other queues meanwhile. */
    ghost method Lock()
      requires Valid()
      modifies this`ops, this`q
      ensures Valid() && q == old(q).(stamp := serials.issued)
      ensures Past() == old(Past()).(q := q)
    {
      var op := OpOthers(serials.issued - q.stamp);
      q := q.(stamp := serials.issued);
      Note(op);
    }

    method ImsgAdd(msg: IMsg?) returns (ret: int)
      requires Valid() && (msg != null ==> msg !in msglist && msg !in timerlist)
      modifies this`msglist, this`timerlist, this`msgcount, this`timercount, this`count, this`q, this`ops, serials
      modifies if msg == null then {} else {msg}
      ensures Valid()
      ensures msg == null ==> ret == -1 && Past() == old(Past())
      ensures msg != null ==> Past() == Apply(old(Past()).(q := old(q).(stamp := old(serials.issued))), OpAdd(old(msg.Item())))
    {
      if msg == null {
        return -1;
      }
      Lock();
      ghost var op := OpAdd(msg.Item());
      ret := MsgAdd(msg);
      Note(op);
    }

    /** Adds a message that is to turn up `delta` milliseconds later. */
    method ImsgAddDelayed(msg: IMsg?, delta: int, now: Time) returns (ret: int)
      requires Valid() && (msg != null ==> msg !in msglist && msg !in timerlist)
      modifies this`msglist, this`timerlist, this`msgcount, this`timercount, this`count, this`q, this`ops, serials
      modifies if msg == null then {} else {msg}
      ensures Valid()
      ensures msg == null ==> ret == -1 && Past() == old(Past())
      ensures msg != null ==>
                Past() == Apply(old(Past()).(q := old(q).(stamp := old(serials.issued))),
                                OpAdd(old(msg.Item()).(delayed := true, end := Deadline(now, delta))))
    {
      if msg == null {
        return -1;
      }
      msg.delayed := true;
      msg.end := Deadline(now, delta);
      msg.diffms := delta;
      ret := ImsgAdd(msg);
    }

    /** One get under the lock. */
    method LockedGet(mode: GetMode, now: Time, ghost all: set<IMsg>) returns (r: IMsg?)
      requires Valid() && Among(all) && q.stamp == serials.issued
      modifies this`msglist, this`timerlist, this`msgcount, this`timercount, this`count, this`q, this`ops, serials, all
      ensures Valid() && q.stamp == serials.issued && Past() == Apply(old(Past()), OpGet(mode, now))
      ensures Past().returned == old(Past()).returned + if r == null then [] else [r.Item()]
      ensures Get(old(q), mode, now) == (q, if r == null then None else Some(r.Item()))
      ensures Among(all)
    {
      r := MsgGet(mode, now, all);
      Note(OpGet(mode, now));
    }

    method ImsgGet(mode: GetMode, now: Time) returns (r: IMsg?)
      requires Valid()
      modifies this`msglist, this`timerlist, this`msgcount, this`timercount, this`count, this`q, this`ops, serials, timerlist
      ensures Valid()
      ensures Past() == Apply(old(Past()).(q := old(q).(stamp := old(serials.issued))), OpGet(mode, now))
      ensures Past().returned == old(Past()).returned + if r == null then [] else [r.Item()]
    {
      Lock();
      r := LockedGet(mode, now, set m | m in timerlist);
    }

    /** The loop of gets; `arr` is filled from its start, `got` is what it shows. */
    method LockedGets(mode: GetMode, nbmax: nat, nows: seq<Time>, ghost all: set<IMsg>) returns (arr: seq<IMsg>, ghost got: seq<Item<IMsg>>)
      requires Valid() && Among(all) && q.stamp == serials.issued && nbmax <= |nows|
      modifies this`msglist, this`timerlist, this`msgcount, this`timercount, this`count, this`q, this`ops, serials, all
      ensures Valid() && |arr| <= nbmax && MessagesOf(arr, got)
      ensures (q, got) == GetMany(old(q), mode, nows[..nbmax])
      ensures Past().returned == old(Past()).returned + got
    {
      hide Get, GetMany, GetsFrom, Core, Past, Valid, Apply, MessagesOf;
      arr, got := [], [];
      assert MessagesOf(arr, got) by { NoMessages<IMsg>(); }
      GetsStart(q, mode, nows, nbmax);
      while |arr| < nbmax
        invariant Valid() && q.stamp == serials.issued && |arr| <= nbmax && MessagesOf(arr, got)
        invariant Among(all)
        invariant Past().returned == old(Past()).returned + got
        invariant GetsFrom(q, mode, nows, |arr|, nbmax, got) == GetMany(old(q), mode, nows[..nbmax])
        decreases nbmax - |arr|
      {
        GetsStep(q, mode, nows, |arr|, nbmax, got);
        var ret := LockedGet(mode, nows[|arr|], all);
        if ret == null {
          return;
        }
        MessagesExtend(arr, got, ret.Item());
        arr, got := arr + [ret], got + [ret.Item()];
      }
      GetsEnd(q, mode, nows, nbmax, got);
    }

    /** Gets up to `nbmax` messages; `nows` are the readings of the clock, one for each get. */
    method GetArray(mode: GetMode, nbmax: nat, nows: seq<Time>) returns (arr: seq<IMsg>, ghost got: seq<Item<IMsg>>)
      requires Valid() && nbmax <= |nows|
      modifies this`msglist, this`timerlist, this`msgcount, this`timercount, this`count, this`q, this`ops, serials, timerlist
      ensures Valid() && |arr| <= nbmax && MessagesOf(arr, got)
      ensures (q, got) == GetMany(old(q).(stamp := old(serials.issued)), mode, nows[..nbmax])
      ensures Past().returned == old(Past()).returned + got
    {
      Lock();
      arr, got := LockedGets(mode, nbmax, nows, set m | m in timerlist);
    }

    /** Where a timer is, or the length. */
    method FindTimer(m: IMsg) returns (i: nat)
      requires Linked(timerlist, q.timers)
      ensures i == Find(q.timers, m) <= |timerlist| == |q.timers|
      ensures i < |timerlist| <==> m in timerlist
    {
      i := 0;
      LinkedAt(timerlist, q.timers);
      while i < |timerlist| && timerlist[i] != m
        invariant i <= |timerlist| && Find(q.timers, m) == i + Find(q.timers[i..], m)
        invariant forall j :: 0 <= j < i ==> timerlist[j] != m
      {
        assert q.timers[i..][1..] == q.timers[i + 1..];
        i := i + 1;
      }
    }

    method FindMsg(m: IMsg) returns (i: nat)
      requires Linked(msglist, q.msgs)
      ensures i == Find(q.msgs, m) <= |msglist| == |q.msgs|
      ensures i < |msglist| <==> m in msglist
    {
      i := 0;
      LinkedAt(msglist, q.msgs);
      while i < |msglist| && msglist[i] != m
        invariant i <= |msglist| && Find(q.msgs, m) == i + Find(q.msgs[i..], m)
        invariant forall j :: 0 <= j < i ==> msglist[j] != m
      {
        assert q.msgs[i..][1..] == q.msgs[i + 1..];
        i := i + 1;
      }
    }

    method UnlinkTimer(rmv: IMsg) returns (nb: nat)
      requires Core()
      modifies this`timerlist, this`timercount, this`count, this`q
      ensures Core() && q == Remove(old(q), rmv, true) && nb == old(count) - count
      ensures nb == if rmv in old(timerlist) then 1 else 0
    {
      hide Linked, ByFlags, Find;
      nb := 0;
      var i := FindTimer(rmv);
      if i < |timerlist| {
        var msg := CutTimer(i);
        nb := 1;
      }
    }

    method UnlinkMsg(rmv: IMsg) returns (nb: nat)
      requires Core()
      modifies this`msglist, this`msgcount, this`count, this`q
      ensures Core() && q == Remove(old(q), rmv, false) && nb == old(count) - count
      ensures nb == if rmv in old(msglist) then 1 else 0
    {
      hide Linked, ByFlags, Find;
      nb := 0;
      var i := FindMsg(rmv);
      if i < |msglist| {
        var msg := CutMsg(i);
        nb := 1;
      }
    }

    /** Removes and frees a message; its flags say which list to search. */
    method ImsgRemove(rmv: IMsg) returns (nb: nat)
      requires Valid()
      modifies this`msglist, this`timerlist, this`msgcount, this`timercount, this`count, this`q, this`ops
      ensures Valid() && Past() == Apply(old(Past()), OpRemove(rmv, rmv.timer || rmv.delayed))
      ensures nb == old(count) - count
      ensures nb == if rmv in (if rmv.timer || rmv.delayed then old(timerlist) else old(msglist)) then 1 else 0
    {
      hide Lists, Run, Remove;
      if rmv.timer || rmv.delayed {
        nb := UnlinkTimer(rmv);
      } else {
        nb := UnlinkMsg(rmv);
      }
      Note(OpRemove(rmv, rmv.timer || rmv.delayed));
    }

    /** Unlinks every plain message to be dropped. */
    method CutMsgs(drop: IMsg -> bool) returns (nb: nat)
      requires Core()
      modifies this`msglist, this`msgcount, this`count, this`q
      ensures Core() && q == old(q).(msgs := Keep(old(q).msgs, drop)) && nb == old(count) - count
    {
      nb := 0;
      var i := 0;
      KeepStarts(q.msgs, drop);
      LinkedAt(msglist, q.msgs);
      hide Linked, ByFlags, Keep, KeepFrom, Without;
      while i < |msglist|
        invariant Core() && i <= |msglist| == |q.msgs| && nb == old(count) - count
        invariant q == old(q).(msgs := q.msgs) && KeepFrom(q.msgs, i, drop) == Keep(old(q).msgs, drop)
      {
        KeepSteps(q.msgs, i, drop);
        LinkedAt(msglist, q.msgs);
        if drop(msglist[i]) {
          var msg := CutMsg(i);
          LinkedAt(msglist, q.msgs);
          nb := nb + 1;
        } else {
          i := i + 1;
        }
      }
      KeepEnds(q.msgs, drop);
    }

    /** Unlinks every timer to be dropped. */
    method CutTimers(drop: IMsg -> bool) returns (nb: nat)
      requires Core()
      modifies this`timerlist, this`timercount, this`count, this`q
      ensures Core() && q == old(q).(timers := Keep(old(q).timers, drop)) && nb == old(count) - count
    {
      nb := 0;
      var i := 0;
      KeepStarts(q.timers, drop);
      LinkedAt(timerlist, q.timers);
      hide Linked, ByFlags, Keep, KeepFrom, Without;
      while i < |timerlist|
        invariant Core() && i <= |timerlist| == |q.timers| && nb == old(count) - count
        invariant q == old(q).(timers := q.timers) && KeepFrom(q.timers, i, drop) == Keep(old(q).timers, drop)
      {
        KeepSteps(q.timers, i, drop);
        LinkedAt(timerlist, q.timers);
        if drop(timerlist[i]) {
          var msg := CutTimer(i);
          LinkedAt(timerlist, q.timers);
          nb := nb + 1;
        } else {
          i := i + 1;
        }
      }
      KeepEnds(q.timers, drop);
    }

    method RemoveDropped(drop: IMsg -> bool) returns (nb: nat)
      requires Valid()
      modifies this`msglist, this`timerlist, this`msgcount, this`timercount, this`count, this`q, this`ops
      ensures Valid() && Past() == Apply(old(Past()), OpRemoveWhere(drop)) && nb == old(count) - count
    {
      var a := CutMsgs(drop);
      var b := CutTimers(drop);
      nb := a + b;
      Note(OpRemoveWhere(drop));
    }

    /** Frees the messages for `to`, of the given class and type or, if -1, of any. */
    method RemoveToType(to: nat, cls: int, typ: int) returns (nb: nat)
      requires Valid()
      modifies this`msglist, this`timerlist, this`msgcount, this`timercount, this`count, this`q, this`ops
      ensures Valid() && Past() == Apply(old(Past()), OpRemoveWhere(Matching(to, cls, typ))) && nb == old(count) - count
    {
      nb := RemoveDropped(Matching(to, cls, typ));
    }

    /** Frees everything. */
    method RemoveAll() returns (nb: nat)
      requires Valid()
      modifies this`msglist, this`timerlist, this`msgcount, this`timercount, this`count, this`q, this`ops
      ensures Valid() && Past() == Apply(old(Past()), OpRemoveWhere(All()))
      ensures msglist == [] && timerlist == [] && nb == old(count)
    {
      KeepNone(q.msgs, All());
      KeepNone(q.timers, All());
      nb := RemoveDropped(All());
      LinkedAt(msglist, q.msgs);
      LinkedAt(timerlist, q.timers);
    }

    /** Makes a delayed message turn up at once. */
    method CancelDelay(msg: IMsg, now: Time)
      requires Valid()
      modifies this`q, this`ops, msg`end
      ensures Valid() && Past() == Apply(old(Past()), OpCancel(msg, now))
    {
      CancelEnd(msg, now);
      Note(OpCancel(msg, now));
    }

    method CancelEnd(msg: IMsg, now: Time)
      requires Core()
      modifies this`q, msg`end
      ensures Core() && q == MsgSpec.CancelDelay(old(q), msg, now)
    {
      LinkedAt(timerlist, q.timers);
      LinkedAt(msglist, q.msgs);
      q := MsgSpec.CancelDelay(q, msg, now);
      if msg.delayed {
        assert msg !in msglist by {
          forall i | 0 <= i < |msglist| ensures msglist[i] != msg {
            assert q.msgs[i] in q.msgs;
          }
        }
        msg.end := now;
      }
    }
  }
}
