/** Deadlines in seconds and nanoseconds. */
module MsgTime {
  const NS_PER_SEC := 1000000000
  const NS_PER_MS := 1000000
  /** A timer may fire this many nanoseconds early. */
  const ANTICIP_NS := 550 * 1000

  datatype Time = Time(sec: int, ns: int) {
    function Total(): int { sec * NS_PER_SEC + ns }

    predicate Normal() { 0 <= ns < NS_PER_SEC }

    /** What a deadline can be: the nanoseconds may be negative, but not a second away. */
    predicate Computed() { -NS_PER_SEC < ns < NS_PER_SEC }
  }

  /** Division and remainder as in C: truncated toward zero. */
  function CDiv(a: int, b: nat): int
    requires 0 < b
  {
    if a >= 0 then a / b else -((-a) / b)
  }

  function CRem(a: int, b: nat): int
    requires 0 < b
  {
    a - CDiv(a, b) * b
  }

  /** The deadline `delta` milliseconds after `now`, as both allocation routines compute it. */
  function Deadline(now: Time, delta: int): (d: Time)
    ensures d.Total() == now.Total() + delta * NS_PER_MS
  {
    var sec := now.sec + CDiv(delta, 1000);
    var ns := now.ns + CRem(delta, 1000) * NS_PER_MS;
    if ns >= NS_PER_SEC then Time(sec + 1, ns - NS_PER_SEC) else Time(sec, ns)
  }

  lemma CRemBounds(a: int, b: nat)
    requires 0 < b
    ensures -(b as int) < CRem(a, b) < b
    ensures 0 <= a ==> 0 <= CRem(a, b)
  {
  }

  /** The deadline is always exact. It is normalised exactly if the milliseconds do not reach
      below the second of `now`; every delay of 0 or more is fine. */
  lemma DeadlineNormalExactly(now: Time, delta: int)
    requires now.Normal()
    ensures Deadline(now, delta).Normal() <==> 0 <= now.ns + CRem(delta, 1000) * NS_PER_MS
    ensures 0 <= delta ==> Deadline(now, delta).Normal()
    ensures Deadline(now, delta).Computed()
  {
    CRemBounds(delta, 1000);
  }

  /** The comparison macro: a second apart or more counts as one second. */
  function CmpTime(a: Time, b: Time): int
  {
    if a.sec > b.sec then NS_PER_SEC
    else if a.sec < b.sec then -NS_PER_SEC
    else a.ns - b.ns
  }

  /** Its sign is the order of the times. */
  predicate Agrees(a: Time, b: Time)
  {
    (CmpTime(a, b) > 0 <==> a.Total() > b.Total()) && (CmpTime(a, b) == 0 <==> a.Total() == b.Total())
  }

  /** `b` is a second ahead of `a` by its seconds, but by its nanoseconds a second or more behind. */
  predicate Misleads(a: Time, b: Time)
  {
    b.sec == a.sec + 1 && a.ns - b.ns >= NS_PER_SEC
  }

  /** For all deadlines the comparison is right exactly if neither time misleads the other way. */
  lemma CmpTimeExactly(a: Time, b: Time)
    requires a.Computed() && b.Computed()
    ensures Agrees(a, b) <==> !Misleads(a, b) && !Misleads(b, a)
    ensures a.Normal() ==> !Misleads(b, a)
  {
  }

  /** On normalised times the comparison is always right. */
  lemma CmpTimeSign(a: Time, b: Time)
    requires a.Normal() && b.Normal()
    ensures CmpTime(a, b) > 0 <==> a.Total() > b.Total()
    ensures CmpTime(a, b) == 0 <==> a.Total() == b.Total()
    ensures CmpTime(a, b) == 0 <==> a == b
  {
    CmpTimeExactly(a, b);
  }

  /** A deadline 1 ms before a whole second, kept as a negative nanosecond count, compares as later
      than the time half a millisecond after it. */
  lemma CmpTimeUnnormalised()
    ensures var a, b := Deadline(Time(5, 0), -1), Time(4, 999500000);
            a.Total() < b.Total() && CmpTime(a, b) > 0 && Misleads(b, a)
  {
  }

  /** The test by which a get decides that a timer has expired. */
  predicate Due(now: Time, end: Time)
  {
    CmpTime(now, end) >= -ANTICIP_NS
  }

  /** The deadline has passed, and the comparison sees it; or it lies within 550 microseconds in
      the same second. */
  predicate Expired(now: Time, end: Time)
  {
    || (end.Total() <= now.Total() && !Misleads(now, end))
    || (end.sec == now.sec && end.Total() - now.Total() <= ANTICIP_NS)
  }

  /** Expiry, exactly, for every deadline that can be computed: no timer fires more than 550
      microseconds early; one fires late only while its nanoseconds mislead the comparison, and
      never by a second or more. */
  lemma DueExactly(now: Time, end: Time)
    requires now.Normal() && end.Computed()
    ensures Due(now, end) <==> Expired(now, end)
    ensures Due(now, end) ==> end.Total() - now.Total() <= 550000
    ensures end.sec == now.sec && end.Total() - now.Total() <= 550000 ==> Due(now, end)
    ensures end.Total() + NS_PER_SEC <= now.Total() ==> Due(now, end)
  {
    CmpTimeExactly(now, end);
  }

  /** A deadline can be missed for a while exactly if its nanoseconds are negative, as
      `DeadlineNormalExactly` says they are for some negative delays. */
  lemma LateExactly(end: Time)
    requires end.Computed()
    ensures (exists now: Time :: now.Normal() && end.Total() <= now.Total() && !Due(now, end)) <==> !end.Normal()
  {
    if end.ns < 0 {
      var now := Time(end.sec - 1, NS_PER_SEC - 1);
      assert now.Normal() && end.Total() <= now.Total() && !Due(now, end);
    }
  }
}
