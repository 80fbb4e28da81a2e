/** What the message queue keeps over whole runs: every message added is queued, returned or freed
    exactly once, and plain messages leave in the order of their insertions. */
module MsgProps {
  import opened Options
  import opened Serials
  import opened MsgTime
  import opened TimerList
  import opened MsgSpec

  // ---- conservation ----

  /** How often a message is in a list. */
  function Count<M(==)>(s: seq<Item<M>>, m: M): nat {
    if s == [] then 0 else (if s[0].msg == m then 1 else 0) + Count(s[1..], m)
  }

  function Held<M(==)>(q: Queue<M>, m: M): nat { Count(q.msgs, m) + Count(q.timers, m) }

  function Opt<M>(x: Option<Item<M>>): seq<Item<M>> { if x.Some? then [x.value] else [] }

  lemma {:induction false} CountConcat<M>(a: seq<Item<M>>, b: seq<Item<M>>, m: M)
    ensures Count(a + b, m) == Count(a, m) + Count(b, m)
  {
    if a == [] {
      assert a + b == b;
    } else {
      assert (a + b)[1..] == a[1..] + b;
      CountConcat(a[1..], b, m);
    }
  }

  lemma CountInserted<M>(s: seq<Item<M>>, p: nat, x: Item<M>, m: M)
    requires p <= |s|
    ensures Count(Inserted(s, p, x), m) == Count(s, m) + Count([x], m)
  {
    assert s[..p] + s[p..] == s;
    hide Count;
    CountConcat(s[..p], s[p..], m);
    CountConcat(s[..p] + [x], s[p..], m);
    CountConcat(s[..p], [x], m);
  }

  lemma PutBack<T>(s: seq<T>, p: nat)
    requires p < |s|
    ensures |Without(s, p)| == |s| - 1 && Inserted(Without(s, p), p, s[p]) == s
  {
    var w := Without(s, p);
    assert w[..p] == s[..p] && w[p..] == s[p + 1..];
  }

  lemma CountWithout<M>(s: seq<Item<M>>, p: nat, m: M)
    requires p < |s|
    ensures Count(s, m) == Count(Without(s, p), m) + Count([s[p]], m)
  {
    PutBack(s, p);
    hide Count, Without, Inserted;
    CountInserted(Without(s, p), p, s[p], m);
  }

  lemma CountChanged<M>(s: seq<Item<M>>, p: nat, x: Item<M>, m: M)
    requires p < |s| && x.msg == s[p].msg
    ensures Count(s[p := x], m) == Count(s, m)
  {
    assert Without(s[p := x], p) == Without(s, p);
    assert Count([s[p]], m) == Count([x], m);
    hide Count;
    CountWithout(s, p, m);
    CountWithout(s[p := x], p, m);
  }

  function Not<M>(drop: M -> bool): M -> bool { m => !drop(m) }

  lemma {:induction false} CountKeep<M>(s: seq<Item<M>>, drop: M -> bool, m: M)
    ensures Count(s, m) == Count(Keep(s, drop), m) + Count(Keep(s, Not(drop)), m)
  {
    if s != [] {
      CountKeep(s[1..], drop, m);
      CountConcat([s[0]], Keep(s[1..], drop), m);
      CountConcat([s[0]], Keep(s[1..], Not(drop)), m);
      assert [] + Keep(s[1..], drop) == Keep(s[1..], drop);
      assert [] + Keep(s[1..], Not(drop)) == Keep(s[1..], Not(drop));
    }
  }

  lemma AddConserves<M>(q: Queue<M>, x: Item<M>, m: M)
    ensures Held(Add(q, x), m) == Held(q, m) + Count([x], m)
  {
    var y := x.(stamp := q.stamp + 1);
    if x.Timed() {
      CountInserted(q.timers, InsertAt(Ends(q.timers), x.end), y, m);
    } else {
      CountConcat(q.msgs, [y], m);
    }
  }

  lemma {:induction false} PromoteAllConserves<M>(q: Queue<M>, ms: seq<Item<M>>, m: M)
    ensures Held(PromoteAll(q, ms), m) == Held(q, m) + Count(ms, m)
    decreases |ms|
  {
    if ms != [] {
      AddConserves(q, ms[0].(timer := false, delayed := false), m);
      PromoteAllConserves(Promote(q, ms[0]), ms[1..], m);
    }
  }

  lemma {:induction false} ScanConserves<M>(timers: seq<Item<M>>, now: Time, m: M)
    ensures var s := ScanTimers(timers, now);
            Count(timers, m) == Count(s.kept, m) + Count(s.expired, m) + Count(Opt(s.fired), m)
    decreases |timers|
  {
    if timers != [] {
      var t, s := timers[0], ScanTimers(timers[1..], now);
      if !PlainDue(t, now) {
        ScanConserves(timers[1..], now, m);
        CountConcat([t], s.kept, m);
        CountConcat([t], s.expired, m);
      }
    }
  }

  /** A get takes out exactly what it returns; promoted messages stay in the queue. */
  lemma GetConserves<M>(q: Queue<M>, mode: GetMode, now: Time, m: M)
    ensures Held(q, m) == Held(Get(q, mode, now).0, m) + Count(Opt(Get(q, mode, now).1), m)
  {
    if mode != MsgOnly {
      var s := ScanTimers(q.timers, now);
      ScanConserves(q.timers, now, m);
      PromoteAllConserves(q.(timers := s.kept), s.expired, m);
    }
  }

  /** What a removal frees. */
  function Removed<M(==)>(q: Queue<M>, rmv: M, timed: bool): seq<Item<M>> {
    var l := if timed then q.timers else q.msgs;
    var i := Find(l, rmv);
    if i < |l| then [l[i]] else []
  }

  lemma RemoveConserves<M>(q: Queue<M>, rmv: M, timed: bool, m: M)
    ensures Held(q, m) == Held(Remove(q, rmv, timed), m) + Count(Removed(q, rmv, timed), m)
  {
    var l := if timed then q.timers else q.msgs;
    if Find(l, rmv) < |l| {
      CountWithout(l, Find(l, rmv), m);
    }
  }

  // ---- what a scan finds ----

  predicate PlainDue<M>(t: Item<M>, now: Time) { Due(now, t.end) && !t.delayed }

  /** No timer is missed and none is invented: the scan fires something exactly if there is an
      expired plain timer, and otherwise no expired timer stays in the list. */
  lemma {:induction false} ScanFires<M>(timers: seq<Item<M>>, now: Time)
    ensures var s := ScanTimers(timers, now);
            && (s.fired.None? <==> forall t :: t in timers ==> !PlainDue(t, now))
            && (s.fired.Some? ==> s.fired.value in timers && PlainDue(s.fired.value, now))
            && (s.fired.None? ==> forall t :: t in s.kept ==> !Due(now, t.end))
            && (forall t :: t in s.expired ==> t in timers && t.delayed && Due(now, t.end))
            && (forall t :: t in s.kept ==> t in timers)
    decreases |timers|
  {
    if timers != [] {
      assert timers == [timers[0]] + timers[1..];
      if !PlainDue(timers[0], now) {
        ScanFires(timers[1..], now);
      }
    }
  }

  /** The timer that fires is the first expired plain one; everything behind it stays. */
  lemma {:induction false} ScanFiresFirst<M>(timers: seq<Item<M>>, now: Time, i: nat)
    requires i < |timers| && PlainDue(timers[i], now) && forall j :: 0 <= j < i ==> !PlainDue(timers[j], now)
    ensures var s := ScanTimers(timers, now);
            s.fired == Some(timers[i]) && |s.kept| + |s.expired| + 1 == |timers|
            && |s.kept| >= |timers| - i - 1 && s.kept[|s.kept| - (|timers| - i - 1)..] == timers[i + 1..]
    decreases |timers|
  {
    if i > 0 {
      ScanFiresFirst(timers[1..], now, i - 1);
    }
  }

  /** Expired delayed messages go to the end of the plain ones, in the order of the list and under
      new numbers. */
  lemma {:induction false} PromotedInOrder<M>(q: Queue<M>, ms: seq<Item<M>>)
    ensures var r := PromoteAll(q, ms);
            && r.timers == q.timers && r.stamp == q.stamp + |ms| && |r.msgs| == |q.msgs| + |ms|
            && r.msgs[..|q.msgs|] == q.msgs
            && forall i :: |q.msgs| <= i < |r.msgs| ==>
                 r.msgs[i] == ms[i - |q.msgs|].(stamp := q.stamp + 1 + i - |q.msgs|, timer := false, delayed := false)
    decreases |ms|
  {
    if ms != [] {
      PromotedInOrder(Promote(q, ms[0]), ms[1..]);
    }
  }

  /** A get of timers finds nothing exactly if no plain timer has expired. A plain timer whose
      deadline has passed is missed only if the comparison is misled, which a normalised deadline
      never does; and what is found is at most 550 microseconds early. */
  lemma TimerGetExactly<M>(q: Queue<M>, now: Time)
    requires now.Normal() && forall t :: t in q.timers ==> t.end.Computed()
    ensures var m := Get(q, TimerOnly, now).1;
            && (m.None? <==> forall t :: t in q.timers ==> t.delayed || !Expired(now, t.end))
            && (m.None? ==> forall t :: t in q.timers && t.end.Total() <= now.Total() ==>
                              t.delayed || (Misleads(now, t.end) && !t.end.Normal() && now.Total() < t.end.Total() + NS_PER_SEC))
            && (m.Some? ==> m.value in q.timers && !m.value.delayed)
            && (m.Some? ==> m.value.end.Total() - now.Total() <= ANTICIP_NS)
  {
    ScanFires(q.timers, now);
    hide CmpTime;
    forall t | t in q.timers
      ensures Due(now, t.end) <==> Expired(now, t.end)
      ensures Due(now, t.end) ==> t.end.Total() - now.Total() <= ANTICIP_NS
      ensures t.end.Total() + NS_PER_SEC <= now.Total() ==> Due(now, t.end)
    {
      DueExactly(now, t.end);
    }
  }

  /** A get of both kinds finds nothing exactly if there is no plain message and nothing in the
      timer list has expired. */
  lemma BothGetExactly<M>(q: Queue<M>, now: Time)
    ensures Get(q, Both, now).1.None? <==> q.msgs == [] && forall t :: t in q.timers ==> !Due(now, t.end)
  {
    var s := ScanTimers(q.timers, now);
    ScanFires(q.timers, now);
    PromotedInOrder(q.(timers := s.kept), s.expired);
    if s.fired.None? && s.expired == [] {
      KeptAll(q.timers, now);
    } else if s.expired != [] {
      assert s.expired[0] in s.expired;
    }
  }

  /** A get of both kinds prefers an expired plain timer; without one it takes the first plain
      message, where a delayed message that has just expired comes behind those that were there. */
  lemma BothGetPrefersTimers<M>(q: Queue<M>, now: Time)
    ensures var m := Get(q, Both, now).1;
            && ((exists t :: t in q.timers && PlainDue(t, now)) ==> m.Some? && m.value in q.timers && PlainDue(m.value, now))
            && (!(exists t :: t in q.timers && PlainDue(t, now)) && q.msgs != [] ==> m == Some(q.msgs[0]))
            && (!(exists t :: t in q.timers && PlainDue(t, now)) && q.msgs == [] && m.Some? ==>
                  exists t :: t in q.timers && t.msg == m.value.msg && t.delayed && Due(now, t.end))
  {
    var s := ScanTimers(q.timers, now);
    ScanFires(q.timers, now);
    PromotedInOrder(q.(timers := s.kept), s.expired);
    if s.expired != [] { assert s.expired[0] in s.expired; }
  }

  /** A get of messages takes the first plain one, if there is one, and leaves the timers alone, even
      those that have expired. */
  lemma MsgGetExactly<M>(q: Queue<M>, now: Time)
    ensures var (r, m) := Get(q, MsgOnly, now);
            r.timers == q.timers && (m.None? <==> q.msgs == []) && (q.msgs != [] ==> q.msgs == [m.value] + r.msgs)
  {
  }

  /** Adding keeps the order of the timers exactly under the condition for its place in the list,
      and never changes the order of those that were there. */
  lemma AddSortedExactly<M>(q: Queue<M>, x: Item<M>)
    requires x.Timed() && x.end.Normal() && SortedTimes(Ends(q.timers))
    requires forall t :: t in q.timers ==> t.end.Normal()
    ensures var r, ends := Add(q, x), Ends(q.timers);
            var j := LastNotLater(ends, x.end);
            SortedTimes(Ends(r.timers)) <==> j == |ends| - 1 || (0 <= j && ends[j] == x.end)
  {
    hide SortedTimes, LastNotLater, InsertAt;
    var ends := Ends(q.timers);
    var p := InsertAt(ends, x.end);
    assert forall i :: 0 <= i < |ends| ==> q.timers[i] in q.timers;
    assert Ends(Add(q, x).timers) == ends[..p] + [x.end] + ends[p..];
    InsertSortedExactly(ends, x.end);
  }

  lemma {:induction false} KeptAll<M>(timers: seq<Item<M>>, now: Time)
    requires ScanTimers(timers, now).fired.None? && ScanTimers(timers, now).expired == []
    ensures forall t :: t in timers ==> !Due(now, t.end)
    decreases |timers|
  {
    if timers != [] {
      KeptAll(timers[1..], now);
      assert forall t :: t in timers ==> t == timers[0] || t in timers[1..];
    }
  }

  // ---- runs ----

  datatype Op<!M> =
    | OpAdd(item: Item<M>)
    | OpGet(mode: GetMode, now: Time)
    | OpRemove(m: M, timed: bool)
    | OpRemoveWhere(drop: M -> bool)
    | OpCancel(m: M, now: Time)
    | OpOthers(n: nat)

  /** The queue with all that was put in, returned and freed. */
  datatype History<M> = History(q: Queue<M>, added: seq<Item<M>>, returned: seq<Item<M>>, freed: seq<Item<M>>)

  /** One operation. Adding to other queues uses up numbers, too. */
  function Apply<M(==)>(h: History<M>, op: Op<M>): History<M> {
    match op
    case OpAdd(item) => h.(q := Add(h.q, item), added := h.added + [item])
    case OpGet(mode, now) =>
      var (q1, m) := Get(h.q, mode, now);
      h.(q := q1, returned := h.returned + Opt(m))
    case OpRemove(m, timed) =>
      h.(q := Remove(h.q, m, timed), freed := h.freed + Removed(h.q, m, timed))
    case OpRemoveWhere(drop) =>
      var gone := Keep(h.q.msgs, Not(drop)) + Keep(h.q.timers, Not(drop));
      h.(q := RemoveWhere(h.q, drop), freed := h.freed + gone)
    case OpCancel(m, now) => h.(q := CancelDelay(h.q, m, now))
    case OpOthers(n) => h.(q := h.q.(stamp := h.q.stamp + n))
  }

  /** Each message is in the list its flags name. */
  ghost predicate ByFlags<M>(q: Queue<M>) {
    && (forall x :: x in q.msgs ==> !x.Timed())
    && (forall x :: x in q.timers ==> x.Timed())
  }

  /** The plain messages of a list carry increasing numbers, none above `last`. */
  predicate InOrder<M>(s: seq<Item<M>>, last: nat) {
    && (forall i, j :: 0 <= i < j < |s| && !s[i].Timed() && !s[j].Timed() ==> s[i].stamp < s[j].stamp)
    && (forall i :: 0 <= i < |s| && !s[i].Timed() ==> 1 <= s[i].stamp <= last)
  }

  /** Each message added is queued, returned or freed, as often as it was added. */
  predicate Conserved<M(==)>(h: History<M>, m: M) {
    Count(h.added, m) == Held(h.q, m) + Count(h.returned, m) + Count(h.freed, m)
  }

  // The numbers, for each kind of change.

  lemma OrderExtend<M>(s: seq<Item<M>>, last: nat, t: seq<Item<M>>, last': nat)
    requires InOrder(s, last) && InOrder(t, last') && last <= last'
    requires forall i :: 0 <= i < |t| ==> last < t[i].stamp
    ensures InOrder(s + t, last')
  {
  }

  lemma OrderDrop<M>(a: seq<Item<M>>, b: seq<Item<M>>, c: seq<Item<M>>, last: nat)
    requires InOrder(a + b + c, last)
    ensures InOrder(a + c, last)
  {
    var s, r := a + b + c, a + c;
    forall i | 0 <= i < |r| ensures r[i] == s[if i < |a| then i else i + |b|] {
    }
  }

  lemma {:induction false} OrderKeep<M>(a: seq<Item<M>>, s: seq<Item<M>>, drop: M -> bool, last: nat)
    requires InOrder(a + s, last)
    ensures InOrder(a + Keep(s, drop), last)
    decreases |s|
  {
    hide InOrder;
    if s == [] {
      assert a + Keep(s, drop) == a + s;
    } else {
      assert a + s == a + [s[0]] + s[1..];
      if drop(s[0].msg) {
        OrderDrop(a, [s[0]], s[1..], last);
        OrderKeep(a, s[1..], drop, last);
        assert Keep(s, drop) == Keep(s[1..], drop);
      } else {
        OrderKeep(a + [s[0]], s[1..], drop, last);
        assert a + [s[0]] + Keep(s[1..], drop) == a + Keep(s, drop);
      }
    }
  }

  /** A timer does not matter to the order. */
  lemma OrderSkip<M>(a: seq<Item<M>>, x: Item<M>, c: seq<Item<M>>, last: nat)
    requires InOrder(a + c, last) && x.Timed()
    ensures InOrder(a + [x] + c, last)
  {
    var s, r := a + c, a + [x] + c;
    forall i | 0 <= i < |r| && i != |a| ensures r[i] == s[if i < |a| then i else i - 1] {
    }
  }

  lemma {:induction false} KeepSubset<M>(s: seq<Item<M>>, drop: M -> bool)
    ensures forall x :: x in Keep(s, drop) ==> x in s && !drop(x.msg)
  {
    if s != [] { KeepSubset(s[1..], drop); }
  }

  lemma AddKeeps<M>(q: Queue<M>, x: Item<M>, before: seq<Item<M>>)
    requires ByFlags(q) && InOrder(before + q.msgs, q.stamp)
    ensures ByFlags(Add(q, x)) && InOrder(before + Add(q, x).msgs, q.stamp + 1)
  {
    var y := x.(stamp := q.stamp + 1);
    if !x.Timed() {
      OrderExtend(before + q.msgs, q.stamp, [y], q.stamp + 1);
      assert before + q.msgs + [y] == before + (q.msgs + [y]);
    }
  }

  lemma {:induction false} PromoteKeeps<M>(q: Queue<M>, ms: seq<Item<M>>, before: seq<Item<M>>)
    requires ByFlags(q) && InOrder(before + q.msgs, q.stamp)
    ensures var r := PromoteAll(q, ms);
            ByFlags(r) && InOrder(before + r.msgs, r.stamp) && r.stamp >= q.stamp
    decreases |ms|
  {
    if ms != [] {
      AddKeeps(q, ms[0].(timer := false, delayed := false), before);
      PromoteKeeps(Promote(q, ms[0]), ms[1..], before);
    }
  }

  lemma PopKeeps<M>(q: Queue<M>, before: seq<Item<M>>)
    requires ByFlags(q) && InOrder(before + q.msgs, q.stamp)
    ensures var (r, m) := Pop(q);
            ByFlags(r) && r.stamp == q.stamp && InOrder(before + Opt(m) + r.msgs, r.stamp)
  {
    if q.msgs != [] {
      assert before + q.msgs == before + [q.msgs[0]] + q.msgs[1..];
    } else {
      assert before + [] == before;
    }
  }

  lemma GetKeeps<M>(q: Queue<M>, mode: GetMode, now: Time, before: seq<Item<M>>)
    requires ByFlags(q) && InOrder(before + q.msgs, q.stamp)
    ensures var (r, m) := Get(q, mode, now);
            ByFlags(r) && InOrder(before + Opt(m) + r.msgs, r.stamp)
  {
    if mode == MsgOnly {
      PopKeeps(q, before);
    } else {
      var s := ScanTimers(q.timers, now);
      ScanFires(q.timers, now);
      var q1 := PromoteAll(q.(timers := s.kept), s.expired);
      PromoteKeeps(q.(timers := s.kept), s.expired, before);
      if s.fired.Some? {
        OrderSkip(before, s.fired.value, q1.msgs, q1.stamp);
      } else if mode == TimerOnly {
        assert before + [] == before;
      } else {
        PopKeeps(q1, before);
      }
    }
  }

  lemma RemoveKeeps<M>(q: Queue<M>, rmv: M, timed: bool, before: seq<Item<M>>)
    requires ByFlags(q) && InOrder(before + q.msgs, q.stamp)
    ensures var r := Remove(q, rmv, timed);
            ByFlags(r) && r.stamp == q.stamp && InOrder(before + r.msgs, r.stamp)
  {
    var i := Find(q.msgs, rmv);
    if !timed && i < |q.msgs| {
      assert before + q.msgs == (before + q.msgs[..i]) + [q.msgs[i]] + q.msgs[i + 1..];
      OrderDrop(before + q.msgs[..i], [q.msgs[i]], q.msgs[i + 1..], q.stamp);
      assert before + Without(q.msgs, i) == before + q.msgs[..i] + q.msgs[i + 1..];
    }
  }

  /** One operation keeps the flags and the order. */
  lemma ApplyKeepsOrder<M>(h: History<M>, op: Op<M>)
    requires ByFlags(h.q) && InOrder(h.returned + h.q.msgs, h.q.stamp)
    ensures var r := Apply(h, op);
            ByFlags(r.q) && InOrder(r.returned + r.q.msgs, r.q.stamp)
  {
    match op
    case OpAdd(item) => AddKeeps(h.q, item, h.returned);
    case OpGet(mode, now) => GetKeeps(h.q, mode, now, h.returned);
    case OpRemove(m, timed) => RemoveKeeps(h.q, m, timed, h.returned);
    case OpRemoveWhere(drop) =>
      KeepSubset(h.q.msgs, drop);
      KeepSubset(h.q.timers, drop);
      OrderKeep(h.returned, h.q.msgs, drop, h.q.stamp);
    case OpCancel(m, now) =>
    case OpOthers(n) =>
  }

  /** One operation accounts for every message. */
  lemma ApplyConserves<M>(h: History<M>, op: Op<M>, m: M)
    requires Conserved(h, m)
    ensures Conserved(Apply(h, op), m)
  {
    match op
    case OpAdd(item) =>
      AddConserves(h.q, item, m);
      CountConcat(h.added, [item], m);
    case OpGet(mode, now) =>
      GetConserves(h.q, mode, now, m);
      CountConcat(h.returned, Opt(Get(h.q, mode, now).1), m);
    case OpRemove(rmv, timed) =>
      RemoveConserves(h.q, rmv, timed, m);
      CountConcat(h.freed, Removed(h.q, rmv, timed), m);
    case OpRemoveWhere(drop) =>
      var a, b := Keep(h.q.msgs, Not(drop)), Keep(h.q.timers, Not(drop));
      CountKeep(h.q.msgs, drop, m);
      CountKeep(h.q.timers, drop, m);
      CountConcat(a, b, m);
      CountConcat(h.freed, a + b, m);
    case OpCancel(rmv, now) =>
      var i := Find(h.q.timers, rmv);
      if i < |h.q.timers| && h.q.timers[i].delayed {
        CountChanged(h.q.timers, i, h.q.timers[i].(end := now), m);
      }
    case OpOthers(n) =>
  }

  function Run<M(==)>(h: History<M>, ops: seq<Op<M>>): History<M>
    decreases |ops|
  {
    if ops == [] then h else Run(Apply(h, ops[0]), ops[1..])
  }

  function Empty<M>(): History<M> { History(Queue([], [], 0), [], [], []) }

  lemma {:induction false} RunKeepsOrder<M>(h: History<M>, ops: seq<Op<M>>)
    requires ByFlags(h.q) && InOrder(h.returned + h.q.msgs, h.q.stamp)
    ensures var r := Run(h, ops);
            ByFlags(r.q) && InOrder(r.returned + r.q.msgs, r.q.stamp)
    decreases |ops|
  {
    if ops != [] {
      ApplyKeepsOrder(h, ops[0]);
      RunKeepsOrder(Apply(h, ops[0]), ops[1..]);
    }
  }

  lemma {:induction false} RunConserves<M>(h: History<M>, ops: seq<Op<M>>, m: M)
    requires Conserved(h, m)
    ensures Conserved(Run(h, ops), m)
    decreases |ops|
  {
    if ops != [] {
      ApplyConserves(h, ops[0], m);
      RunConserves(Apply(h, ops[0]), ops[1..], m);
    }
  }

  lemma {:induction false} RunSnoc<M>(h: History<M>, ops: seq<Op<M>>, op: Op<M>)
    ensures Run(h, ops + [op]) == Apply(Run(h, ops), op)
    decreases |ops|
  {
    if ops == [] {
      assert [] + [op] == [op];
      assert Run(Apply(h, op), [op][1..]) == Apply(h, op);
    } else {
      assert (ops + [op])[1..] == ops[1..] + [op];
      RunSnoc(Apply(h, ops[0]), ops[1..], op);
    }
  }

  /** Queue conservation: after any mix of operations, a message that was added once is queued, or
      was returned, or was freed, and only one of these, once. */
  lemma QueuedReturnedOrFreed<M>(ops: seq<Op<M>>, m: M)
    requires Count(Run(Empty(), ops).added, m) == 1
    ensures var h := Run(Empty(), ops);
            Held(h.q, m) + Count(h.returned, m) + Count(h.freed, m) == 1
  {
    RunConserves(Empty(), ops, m);
  }

  /** Queue order: after any mix of operations, plain messages (delayed ones that expired among
      them) have been returned, and are waiting, in the order of their last insertions, which up to
      the 2^32nd insertion is the order of their serial numbers. */
  lemma PlainInSerialOrder<M>(ops: seq<Op<M>>, i: nat, j: nat)
    requires var h := Run(Empty(), ops);
             var l := h.returned + h.q.msgs;
             i < j < |l| && !l[i].Timed() && !l[j].Timed() && h.q.stamp < U32
    ensures var h := Run(Empty(), ops);
            var l := h.returned + h.q.msgs;
            1 <= l[i].stamp < l[j].stamp && SerialOf(l[i].stamp) < SerialOf(l[j].stamp)
  {
    var e: History<M> := Empty();
    RunKeepsOrder(e, ops);
    var h := Run(e, ops);
    var l := h.returned + h.q.msgs;
    SerialsFresh(l[i].stamp);
    SerialsFresh(l[j].stamp);
  }

  // ---- draining ----

  ghost predicate AllDue<M>(q: Queue<M>, nows: seq<Time>) {
    forall t, i :: t in q.timers && 0 <= i < |nows| ==> Due(nows[i], t.end)
  }

  function Size<M>(q: Queue<M>): nat { |q.msgs| + |q.timers| }

  lemma {:induction false} ScanSize<M>(timers: seq<Item<M>>, now: Time)
    ensures var s := ScanTimers(timers, now);
            |timers| == |s.kept| + |s.expired| + |Opt(s.fired)|
    decreases |timers|
  {
    if timers != [] { ScanSize(timers[1..], now); }
  }

  lemma {:induction false} GetManyConserves<M>(q: Queue<M>, mode: GetMode, nows: seq<Time>, m: M)
    ensures var (r, ms) := GetMany(q, mode, nows);
            Held(q, m) == Held(r, m) + Count(ms, m)
    decreases |nows|
  {
    if nows != [] {
      GetConserves(q, mode, nows[0], m);
      GetManyConserves(Get(q, mode, nows[0]).0, mode, nows[1..], m);
    }
  }

  lemma GetOneDue<M>(q: Queue<M>, nows: seq<Time>)
    requires AllDue(q, nows) && nows != [] && Size(q) > 0
    ensures var (q1, x) := Get(q, Both, nows[0]);
            x.Some? && Size(q1) + 1 == Size(q) && AllDue(q1, nows[1..])
  {
    var s := ScanTimers(q.timers, nows[0]);
    BothGetExactly(q, nows[0]);
    ScanFires(q.timers, nows[0]);
    ScanSize(q.timers, nows[0]);
    PromotedInOrder(q.(timers := s.kept), s.expired);
  }

  lemma {:induction false} GetsEmpty<M>(q: Queue<M>, nows: seq<Time>)
    requires AllDue(q, nows) && |nows| >= Size(q)
    ensures Size(GetMany(q, Both, nows).0) == 0
    decreases |nows|
  {
    if Size(q) > 0 {
      GetOneDue(q, nows);
      GetsEmpty(Get(q, Both, nows[0]).0, nows[1..]);
    } else if nows != [] {
      BothGetExactly(q, nows[0]);
      assert q == Get(q, Both, nows[0]).0;
    }
  }

  /** Once everything has expired, as many gets as there are messages hand out every one, as often
      as it was queued, and leave the queue empty. */
  lemma GetsDrain<M>(q: Queue<M>, nows: seq<Time>, m: M)
    requires AllDue(q, nows) && |nows| >= Size(q)
    ensures Size(GetMany(q, Both, nows).0) == 0 && Count(GetMany(q, Both, nows).1, m) == Held(q, m)
  {
    GetsEmpty(q, nows);
    GetManyConserves(q, Both, nows, m);
  }

  // ---- messages that are ready ----

  /** Whatever is held of `m` in the timer list has expired at all these times. */
  ghost predicate ReadyFor<M>(q: Queue<M>, m: M, nows: seq<Time>) {
    forall t, i :: t in q.timers && t.msg == m && 0 <= i < |nows| ==> Due(nows[i], t.end)
  }

  lemma {:induction false} NoneHeld<M>(s: seq<Item<M>>, m: M)
    ensures Count(s, m) == 0 <==> forall x :: x in s ==> x.msg != m
  {
    if s != [] { NoneHeld(s[1..], m); }
  }

  lemma GetOneReady<M>(q: Queue<M>, m: M, nows: seq<Time>)
    requires ReadyFor(q, m, nows) && nows != [] && Held(q, m) > 0
    ensures var (q1, x) := Get(q, Both, nows[0]);
            x.Some? && Size(q1) + 1 == Size(q) && ReadyFor(q1, m, nows[1..])
  {
    var s := ScanTimers(q.timers, nows[0]);
    NoneHeld(q.msgs, m);
    NoneHeld(q.timers, m);
    BothGetExactly(q, nows[0]);
    ScanFires(q.timers, nows[0]);
    ScanSize(q.timers, nows[0]);
    PromotedInOrder(q.(timers := s.kept), s.expired);
  }

  /** A message that is ready is handed out by as many gets as there are messages, whatever else
      the queue holds. */
  lemma {:induction false} ReadyHandedOut<M>(q: Queue<M>, m: M, nows: seq<Time>)
    requires ReadyFor(q, m, nows) && |nows| >= Size(q)
    ensures Count(GetMany(q, Both, nows).1, m) == Held(q, m)
    decreases |nows|
  {
    GetManyConserves(q, Both, nows, m);
    if Held(q, m) > 0 && nows != [] {
      GetOneReady(q, m, nows);
      GetConserves(q, Both, nows[0], m);
      ReadyHandedOut(Get(q, Both, nows[0]).0, m, nows[1..]);
    } else if nows == [] {
      assert q.msgs == [] && q.timers == [];
    }
  }

  // ---- cancelled delays ----

  /** A cancelled delay has expired from then on, and nothing else in the queue has changed. */
  lemma CancelledIsDue<M>(q: Queue<M>, m: M, now: Time)
    requires now.Normal()
    ensures var r, i := CancelDelay(q, m, now), Find(q.timers, m);
            && r.msgs == q.msgs && r.stamp == q.stamp && |r.timers| == |q.timers|
            && (forall j :: 0 <= j < |q.timers| && j != i ==> r.timers[j] == q.timers[j])
            && (i < |q.timers| ==> r.timers[i] == q.timers[i].(end := r.timers[i].end))
            && (i < |q.timers| && !q.timers[i].delayed ==> r == q)
            && (i < |q.timers| && q.timers[i].delayed ==>
                  forall later: Time :: later.Normal() && now.Total() <= later.Total() ==> Due(later, r.timers[i].end))
  {
    forall later: Time | later.Normal() && now.Total() <= later.Total() ensures Due(later, now) {
      DueExactly(later, now);
      CmpTimeSign(later, now);
    }
  }

  /** From then on a get of timers that fires no plain timer turns the message into a plain one, ... */
  lemma CancelledPromoted<M>(q: Queue<M>, m: M, now: Time, later: Time)
    requires Find(q.timers, m) < |q.timers| && q.timers[Find(q.timers, m)].delayed && Count(q.timers, m) == 1
    requires now.Normal() && later.Normal() && now.Total() <= later.Total()
    ensures var (r, x) := Get(CancelDelay(q, m, now), TimerOnly, later);
            x.None? ==> Count(r.timers, m) == 0 && Count(r.msgs, m) == Count(q.msgs, m) + 1
  {
    var c := CancelDelay(q, m, now);
    CancelledIsDue(q, m, now);
    CancelledReady(q, m, now, [later]);
    var s := ScanTimers(c.timers, later);
    ScanFires(c.timers, later);
    NoneHeld(s.kept, m);
    GetConserves(c, TimerOnly, later, m);
    CountChanged(q.timers, Find(q.timers, m), c.timers[Find(q.timers, m)], m);
    assert c.timers == q.timers[Find(q.timers, m) := c.timers[Find(q.timers, m)]];
    PromotedInOrder(c.(timers := s.kept), s.expired);
    assert [later][0] == later;
  }

  lemma CancelledReady<M>(q: Queue<M>, m: M, now: Time, nows: seq<Time>)
    requires Find(q.timers, m) < |q.timers| && q.timers[Find(q.timers, m)].delayed && Count(q.timers, m) == 1
    requires now.Normal() && forall i :: 0 <= i < |nows| ==> nows[i].Normal() && now.Total() <= nows[i].Total()
    ensures ReadyFor(CancelDelay(q, m, now), m, nows)
  {
    var c, k := CancelDelay(q, m, now), Find(q.timers, m);
    CancelledIsDue(q, m, now);
    OnlyOne(q.timers, k, m);
  }

  lemma OnlyOne<M>(s: seq<Item<M>>, k: nat, m: M)
    requires k < |s| && s[k].msg == m && Count(s, m) == 1
    ensures forall j :: 0 <= j < |s| && j != k ==> s[j].msg != m
  {
    CountWithout(s, k, m);
    NoneHeld(Without(s, k), m);
    forall j | 0 <= j < |s| && j != k ensures s[j].msg != m {
      assert s[j] == Without(s, k)[if j < k then j else j - 1];
    }
  }

  /** ... and as many gets of both kinds as there are messages hand it out. */
  lemma CancelledHandedOut<M>(q: Queue<M>, m: M, now: Time, nows: seq<Time>)
    requires Find(q.timers, m) < |q.timers| && q.timers[Find(q.timers, m)].delayed && Count(q.timers, m) == 1
    requires now.Normal() && forall i :: 0 <= i < |nows| ==> nows[i].Normal() && now.Total() <= nows[i].Total()
    requires |nows| >= Size(q)
    ensures Count(GetMany(CancelDelay(q, m, now), Both, nows).1, m) == Held(q, m)
  {
    var c, k := CancelDelay(q, m, now), Find(q.timers, m);
    CancelledReady(q, m, now, nows);
    CancelledIsDue(q, m, now);
    ReadyHandedOut(c, m, nows);
    CountChanged(q.timers, k, c.timers[k], m);
    assert c.timers == q.timers[k := c.timers[k]];
  }
}
