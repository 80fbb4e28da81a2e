/** The message queue: what each operation does to its two lists. */
module MsgSpec {
  import opened Options
  import opened MsgTime
  import opened TimerList

  /** A queued message: the number of its insertion (all insertions are counted), its deadline,
      and the two flags that put it into the timer list. */
  datatype Item<M> = Item(msg: M, stamp: nat, end: Time, timer: bool, delayed: bool) {
    predicate Timed() { timer || delayed }
  }

  datatype GetMode = MsgOnly | TimerOnly | Both

  /** The plain messages, the timers, and the number of the last insertion. */
  datatype Queue<M> = Queue(msgs: seq<Item<M>>, timers: seq<Item<M>>, stamp: nat)

  function Ends<M>(timers: seq<Item<M>>): (e: seq<Time>)
    ensures |e| == |timers| && forall i :: 0 <= i < |e| ==> e[i] == timers[i].end
  {
    seq(|timers|, i requires 0 <= i < |timers| => timers[i].end)
  }

  function Inserted<T>(s: seq<T>, p: nat, x: T): seq<T>
    requires p <= |s|
  {
    s[..p] + [x] + s[p..]
  }

  function Without<T>(s: seq<T>, p: nat): seq<T>
    requires p < |s|
  {
    s[..p] + s[p + 1..]
  }

  /** Adds a message as its flags say. */
  function Add<M>(q: Queue<M>, m: Item<M>): Queue<M> {
    var x := m.(stamp := q.stamp + 1);
    if m.Timed() then
      q.(timers := Inserted(q.timers, InsertAt(Ends(q.timers), m.end), x), stamp := q.stamp + 1)
    else
      q.(msgs := q.msgs + [x], stamp := q.stamp + 1)
  }

  /** A delayed message that has expired becomes a plain one. */
  function Promote<M>(q: Queue<M>, m: Item<M>): Queue<M> {
    Add(q, m.(timer := false, delayed := false))
  }

  function PromoteAll<M>(q: Queue<M>, ms: seq<Item<M>>): Queue<M>
    decreases |ms|
  {
    if ms == [] then q else PromoteAll(Promote(q, ms[0]), ms[1..])
  }

  /** One pass over the timers: those that stay, the delayed messages that expired, and the plain
      timer, if any, at which the pass ends. */
  datatype Scan<M> = Scan(kept: seq<Item<M>>, expired: seq<Item<M>>, fired: Option<Item<M>>)

  function ScanTimers<M>(timers: seq<Item<M>>, now: Time): Scan<M>
    decreases |timers|
  {
    if timers == [] then Scan([], [], None)
    else
      var t := timers[0];
      if Due(now, t.end) && !t.delayed then Scan(timers[1..], [], Some(t))
      else
        var s := ScanTimers(timers[1..], now);
        if Due(now, t.end) then s.(expired := [t] + s.expired) else s.(kept := [t] + s.kept)
  }

  function Pop<M>(q: Queue<M>): (Queue<M>, Option<Item<M>>) {
    if q.msgs == [] then (q, None) else (q.(msgs := q.msgs[1..]), Some(q.msgs[0]))
  }

  function Get<M>(q: Queue<M>, mode: GetMode, now: Time): (Queue<M>, Option<Item<M>>) {
    if mode == MsgOnly then Pop(q)
    else
      var s := ScanTimers(q.timers, now);
      var q1 := PromoteAll(q.(timers := s.kept), s.expired);
      if s.fired.Some? || mode == TimerOnly then (q1, s.fired) else Pop(q1)
  }

  /** As many gets as there are readings of the clock, up to the first that finds nothing. */
  function GetMany<M>(q: Queue<M>, mode: GetMode, nows: seq<Time>): (Queue<M>, seq<Item<M>>)
    decreases |nows|
  {
    if nows == [] then (q, [])
    else
      var (q1, m) := Get(q, mode, nows[0]);
      if m.None? then (q1, [])
      else
        var (q2, ms) := GetMany(q1, mode, nows[1..]);
        (q2, [m.value] + ms)
  }

  /** The position of a message, or the length. */
  function Find<M(==)>(s: seq<Item<M>>, m: M): (i: nat)
    ensures i <= |s| && (i < |s| ==> s[i].msg == m)
    ensures forall j :: 0 <= j < i ==> s[j].msg != m
  {
    if s == [] || s[0].msg == m then 0 else 1 + Find(s[1..], m)
  }

  /** Removes a message from the list its flags name; nothing happens if it is not there. */
  function Remove<M(==)>(q: Queue<M>, m: M, timed: bool): Queue<M> {
    if timed then
      var i := Find(q.timers, m);
      if i < |q.timers| then q.(timers := Without(q.timers, i)) else q
    else
      var i := Find(q.msgs, m);
      if i < |q.msgs| then q.(msgs := Without(q.msgs, i)) else q
  }

  /** The items whose messages are not dropped. */
  function Keep<M>(s: seq<Item<M>>, drop: M -> bool): (r: seq<Item<M>>)
  {
    if s == [] then [] else (if drop(s[0].msg) then [] else [s[0]]) + Keep(s[1..], drop)
  }

  function RemoveWhere<M>(q: Queue<M>, drop: M -> bool): Queue<M> {
    q.(msgs := Keep(q.msgs, drop), timers := Keep(q.timers, drop))
  }

  /** Makes a delayed message expire at `now`. */
  function CancelDelay<M(==)>(q: Queue<M>, m: M, now: Time): Queue<M> {
    var i := Find(q.timers, m);
    if i < |q.timers| && q.timers[i].delayed then q.(timers := q.timers[i := q.timers[i].(end := now)]) else q
  }
}
