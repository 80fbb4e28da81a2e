/** The functions of MsgSpec, one step at a time: what is left to do once a loop over a list has
    reached some position does not change from step to step. */
module MsgSteps {
  import opened Options
  import opened MsgTime
  import opened MsgSpec
  import opened MsgProps

  // ---- steps of the scan ----

  /** The rest of a scan that has reached position `i`. */
  function ScanFrom<M>(q: Queue<M>, i: nat, now: Time): (Queue<M>, Option<Item<M>>)
    requires i <= |q.timers|
  {
    var s := ScanTimers(q.timers[i..], now);
    (PromoteAll(q.(timers := q.timers[..i] + s.kept), s.expired), s.fired)
  }

  lemma ScanEnds<M>(q: Queue<M>, now: Time)
    ensures ScanFrom(q, |q.timers|, now) == (q, None)
  {
    assert q.timers[..|q.timers|] + [] == q.timers;
  }

  lemma ScanSkips<M>(q: Queue<M>, i: nat, now: Time)
    requires i < |q.timers| && !Due(now, q.timers[i].end)
    ensures ScanFrom(q, i, now) == ScanFrom(q, i + 1, now)
  {
    var s := ScanTimers(q.timers[i + 1..], now);
    assert q.timers[i..][1..] == q.timers[i + 1..];
    assert q.timers[..i] + ([q.timers[i]] + s.kept) == q.timers[..i + 1] + s.kept;
  }

  lemma ScanStops<M>(q: Queue<M>, i: nat, now: Time)
    requires i < |q.timers| && PlainDue(q.timers[i], now)
    ensures ScanFrom(q, i, now) == (q.(timers := Without(q.timers, i)), Some(q.timers[i]))
  {
    assert q.timers[i..][1..] == q.timers[i + 1..];
  }

  lemma ScanPromotes<M>(q: Queue<M>, i: nat, now: Time)
    requires i < |q.timers| && Due(now, q.timers[i].end) && q.timers[i].delayed
    ensures ScanFrom(q, i, now) == ScanFrom(Promote(q.(timers := Without(q.timers, i)), q.timers[i]), i, now)
  {
    var s, w := ScanTimers(q.timers[i + 1..], now), Without(q.timers, i);
    assert q.timers[i..][1..] == q.timers[i + 1..] == w[i..];
    assert w[..i] == q.timers[..i];
    assert ([q.timers[i]] + s.expired)[1..] == s.expired;
  }

  lemma ScanIsGet<M>(q: Queue<M>, mode: GetMode, now: Time)
    requires mode != MsgOnly
    ensures var (q1, m) := ScanFrom(q, 0, now);
            Get(q, mode, now) == if m.Some? || mode == TimerOnly then (q1, m) else Pop(q1)
  {
    assert q.timers[0..] == q.timers;
    assert q.timers[..0] + ScanTimers(q.timers, now).kept == ScanTimers(q.timers, now).kept;
  }

  // ---- steps of a get of many ----

  /** The rest of a get of many that has got `got` in `i` gets. */
  function GetsFrom<M>(q: Queue<M>, mode: GetMode, nows: seq<Time>, i: nat, n: nat, got: seq<Item<M>>): (Queue<M>, seq<Item<M>>)
    requires i <= n <= |nows|
  {
    var (r, ms) := GetMany(q, mode, nows[i..n]);
    (r, got + ms)
  }

  lemma GetsStart<M>(q: Queue<M>, mode: GetMode, nows: seq<Time>, n: nat)
    requires n <= |nows|
    ensures GetsFrom(q, mode, nows, 0, n, []) == GetMany(q, mode, nows[..n])
  {
    assert nows[0..n] == nows[..n];
    var (r, ms) := GetMany(q, mode, nows[..n]);
    assert [] + ms == ms;
  }

  lemma GetsStep<M>(q: Queue<M>, mode: GetMode, nows: seq<Time>, i: nat, n: nat, got: seq<Item<M>>)
    requires i < n <= |nows|
    ensures var (r, x) := Get(q, mode, nows[i]);
            GetsFrom(q, mode, nows, i, n, got)
            == if x.None? then (r, got) else GetsFrom(r, mode, nows, i + 1, n, got + [x.value])
  {
    assert nows[i..n][1..] == nows[i + 1..n];
    var (r, x) := Get(q, mode, nows[i]);
    var (r2, ms) := GetMany(r, mode, nows[i + 1..n]);
    if x.None? {
      assert got + [] == got;
    } else {
      assert got + ([x.value] + ms) == got + [x.value] + ms;
    }
  }

  lemma GetsEnd<M>(q: Queue<M>, mode: GetMode, nows: seq<Time>, n: nat, got: seq<Item<M>>)
    requires n <= |nows|
    ensures GetsFrom(q, mode, nows, n, n, got) == (q, got)
  {
    assert nows[n..n] == [] && got + [] == got;
  }

  // ---- steps of a removal ----

  function KeepFrom<M>(s: seq<Item<M>>, i: nat, drop: M -> bool): seq<Item<M>>
    requires i <= |s|
  {
    s[..i] + Keep(s[i..], drop)
  }

  lemma KeepStarts<M>(s: seq<Item<M>>, drop: M -> bool)
    ensures KeepFrom(s, 0, drop) == Keep(s, drop)
  {
    assert s[..0] + Keep(s, drop) == Keep(s, drop) && s[0..] == s;
  }

  lemma KeepEnds<M>(s: seq<Item<M>>, drop: M -> bool)
    ensures KeepFrom(s, |s|, drop) == s
  {
    assert s[|s|..] == [] && s[..|s|] + [] == s;
  }

  lemma KeepSteps<M>(s: seq<Item<M>>, i: nat, drop: M -> bool)
    requires i < |s|
    ensures KeepFrom(s, i, drop) == if drop(s[i].msg) then KeepFrom(Without(s, i), i, drop) else KeepFrom(s, i + 1, drop)
  {
    assert s[i..][1..] == s[i + 1..];
    var k := Keep(s[i + 1..], drop);
    if drop(s[i].msg) {
      var w := Without(s, i);
      assert w[..i] == s[..i] && w[i..] == s[i + 1..];
      assert [] + k == k;
    } else {
      assert s[..i] + ([s[i]] + k) == s[..i + 1] + k;
    }
  }

  lemma {:induction false} KeepNone<M>(s: seq<Item<M>>, drop: M -> bool)
    requires forall m :: drop(m)
    ensures Keep(s, drop) == []
  {
    if s != [] {
      KeepNone(s[1..], drop);
    }
  }

  /** The messages of the items, one by one. */
  predicate MessagesOf<M(==)>(ms: seq<M>, got: seq<Item<M>>) {
    |ms| == |got| && forall j :: 0 <= j < |ms| ==> ms[j] == got[j].msg
  }

  lemma NoMessages<M>()
    ensures MessagesOf<M>([], [])
  {
  }

  lemma MessagesExtend<M>(ms: seq<M>, got: seq<Item<M>>, x: Item<M>)
    requires MessagesOf(ms, got)
    ensures MessagesOf(ms + [x.msg], got + [x]) && |got + [x]| == |ms| + 1
  {
  }
}
