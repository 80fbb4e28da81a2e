/** Round-robin walks over the slots of a table, as pure functions of the starting counter. */
module Walk {
  import opened SeqNum
  import opened Serials

  /** The walk counter is an unsigned int. */
  function Counter(w: nat): (c: nat)
    ensures c < U32
  {
    w % U32
  }

  /** The slot examined `i` steps after the counter stood at `w`. */
  function SlotAt(w: nat, i: nat, sz: nat): (s: nat)
    requires 0 < sz
    ensures s < sz
  {
    Counter(w + i) % sz
  }

  /** How many slots a walk examines: it ends after `fuel` slots, or with its last visit. */
  function Examined(elig: seq<bool>, w: nat, fuel: nat, max: nat): (e: nat)
    requires 0 < |elig|
    ensures e <= fuel
    decreases fuel
  {
    if fuel == 0 || max == 0 then 0
    else 1 + Examined(elig, w + 1, fuel - 1, if elig[SlotAt(w, 0, |elig|)] then max - 1 else max)
  }

  /** The slots visited among the next `e`. */
  function Visits(elig: seq<bool>, w: nat, e: nat): seq<nat>
    requires 0 < |elig|
    decreases e
  {
    if e == 0 then []
    else (if elig[SlotAt(w, 0, |elig|)] then [SlotAt(w, 0, |elig|)] else []) + Visits(elig, w + 1, e - 1)
  }

  /** `m` successive walks, each of at most `max` visits. */
  function ExaminedBy(elig: seq<bool>, w: nat, m: nat, max: nat): nat
    requires 0 < |elig|
    decreases m
  {
    if m == 0 then 0
    else
      var e := Examined(elig, w, |elig|, max);
      e + ExaminedBy(elig, w + e, m - 1, max)
  }

  lemma {:induction false} VisitsSplit(elig: seq<bool>, w: nat, e: nat, d: nat)
    requires 0 < |elig|
    ensures Visits(elig, w, e + d) == Visits(elig, w, e) + Visits(elig, w + e, d)
    decreases e
  {
    if e > 0 {
      VisitsSplit(elig, w + 1, e - 1, d);
    }
  }

  lemma {:induction false} VisitsHas(elig: seq<bool>, w: nat, e: nat, i: nat)
    requires 0 < |elig| && i < e && elig[SlotAt(w, i, |elig|)]
    ensures SlotAt(w, i, |elig|) in Visits(elig, w, e)
    decreases e
  {
    var rest := Visits(elig, w + 1, e - 1);
    if i > 0 {
      VisitsHas(elig, w + 1, e - 1, i - 1);
      assert SlotAt(w, i, |elig|) in rest;
    }
  }

  /** A walk from `w` has examined `e` slots and made `nb` visits. */
  predicate Walking(elig: seq<bool>, w: nat, max: nat, e: nat, nb: nat)
    requires 0 < |elig|
  {
    && e <= |elig| && nb <= max && nb == |Visits(elig, w, e)|
    && Examined(elig, w, |elig|, max) == e + Examined(elig, w + e, |elig| - e, max - nb)
  }

  lemma WalkStarts(elig: seq<bool>, w: nat, max: nat)
    requires 0 < |elig|
    ensures Walking(elig, w, max, 0, 0) && Visits(elig, w, 0) == []
  {
  }

  lemma VisitsOne(elig: seq<bool>, w: nat)
    requires 0 < |elig|
    ensures var slot := SlotAt(w, 0, |elig|); Visits(elig, w, 1) == if elig[slot] then [slot] else []
  {
    assert Visits(elig, w + 1, 0) == [];
  }

  lemma ExaminedStep(elig: seq<bool>, w: nat, fuel: nat, max: nat)
    requires 0 < |elig| && 0 < fuel && 0 < max
    ensures var rest := if elig[SlotAt(w, 0, |elig|)] then max - 1 else max;
            Examined(elig, w, fuel, max) == 1 + Examined(elig, w + 1, fuel - 1, rest)
  {
  }

  lemma WalkStep(elig: seq<bool>, w: nat, max: nat, e: nat, nb: nat)
    requires 0 < |elig| && Walking(elig, w, max, e, nb) && e < |elig| && nb < max
    ensures var slot := SlotAt(w + e, 0, |elig|);
            Walking(elig, w, max, e + 1, if elig[slot] then nb + 1 else nb)
            && Visits(elig, w, e + 1) == Visits(elig, w, e) + if elig[slot] then [slot] else []
  {
    hide Visits, Examined, SlotAt;
    VisitsSplit(elig, w, e, 1);
    VisitsOne(elig, w + e);
    ExaminedStep(elig, w + e, |elig| - e, max - nb);
  }

  lemma WalkEnds(elig: seq<bool>, w: nat, max: nat, e: nat, nb: nat)
    requires 0 < |elig| && Walking(elig, w, max, e, nb) && (e == |elig| || nb == max)
    ensures Examined(elig, w, |elig|, max) == e && nb == |Visits(elig, w, e)|
  {
  }

  /** A walk that ends early has made all its visits. */
  lemma {:induction false} EarlyStop(elig: seq<bool>, w: nat, fuel: nat, max: nat)
    requires 0 < |elig| && Examined(elig, w, fuel, max) < fuel
    ensures |Visits(elig, w, Examined(elig, w, fuel, max))| == max
    decreases fuel
  {
    if fuel > 0 && max > 0 {
      EarlyStop(elig, w + 1, fuel - 1, if elig[SlotAt(w, 0, |elig|)] then max - 1 else max);
    }
  }

  /** Walks that together examine less than the table have made max visits each. */
  lemma {:induction false} EarlyStops(elig: seq<bool>, w: nat, m: nat, max: nat)
    requires 0 < |elig| && ExaminedBy(elig, w, m, max) < |elig|
    ensures |Visits(elig, w, ExaminedBy(elig, w, m, max))| == m * max
    decreases m
  {
    if m > 0 {
      var e := Examined(elig, w, |elig|, max);
      EarlyStop(elig, w, |elig|, max);
      EarlyStops(elig, w + e, m - 1, max);
      VisitsSplit(elig, w, e, ExaminedBy(elig, w + e, m - 1, max));
      assert m * max == max + (m - 1) * max;
    }
  }

  // ---- before the counter wraps ----

  lemma SlotBeforeWrap(w: nat, i: nat, sz: nat)
    requires 0 < sz && w + i < U32
    ensures SlotAt(w, i, sz) == (w + i) % sz
  {
  }

  /** One step further round: the slot that leaves the window is the one that enters it. */
  lemma SlotPeriodic(w: nat, sz: nat)
    requires 0 < sz && w + sz < U32
    ensures SlotAt(w + sz, 0, sz) == SlotAt(w, 0, sz)
  {
    SlotBeforeWrap(w, 0, sz);
    SlotBeforeWrap(w + sz, 0, sz);
    hide SlotAt;
    var q := w / sz;
    assert w + sz == (q + 1) * sz + w % sz;
    ModUnique(w + sz, q + 1, w % sz, sz);
  }

  lemma CountSplit(elig: seq<bool>, w: nat, e: nat, d: nat)
    requires 0 < |elig|
    ensures |Visits(elig, w, e + d)| == |Visits(elig, w, e)| + |Visits(elig, w + e, d)|
  {
    hide Visits;
    VisitsSplit(elig, w, e, d);
  }

  lemma CountShift(elig: seq<bool>, w: nat)
    requires 0 < |elig| && w + |elig| < U32
    ensures |Visits(elig, w + 1, |elig|)| == |Visits(elig, w, |elig|)|
  {
    hide SlotAt, Visits;
    var sz := |elig|;
    SlotPeriodic(w, sz);
    VisitsOne(elig, w);
    VisitsOne(elig, w + sz);
    CountSplit(elig, w, 1, sz - 1);
    CountSplit(elig, w + 1, sz - 1, 1);
  }

  /** A full round makes the same number of visits wherever it starts. */
  lemma {:induction false} CountRound(elig: seq<bool>, w: nat)
    requires 0 < |elig| && w + |elig| <= U32
    ensures |Visits(elig, w, |elig|)| == |Visits(elig, 0, |elig|)|
    decreases w
  {
    if w > 0 {
      CountShift(elig, w - 1);
      CountRound(elig, w - 1);
    }
  }

  /** The step at which a round from `w` comes to slot `s`. */
  lemma RoundReaches(w: nat, s: nat, sz: nat) returns (i: nat)
    requires s < sz && w + sz <= U32
    ensures i < sz && SlotAt(w, i, sz) == s
  {
    i := Dist(s, w % sz, sz);
    DistLandsOn(s, w, sz);
    SlotBeforeWrap(w, i, sz);
  }

  /** Walks that do not get as far as an eligible slot leave visits to be made. */
  lemma MissedSlot(elig: seq<bool>, w: nat, m: nat, max: nat, i: nat)
    requires i < |elig| && ExaminedBy(elig, w, m, max) <= i && elig[SlotAt(w, i, |elig|)]
    requires w + |elig| <= U32
    ensures m * max < |Visits(elig, 0, |elig|)|
  {
    hide SlotAt, Visits, ExaminedBy;
    var sz, e := |elig|, ExaminedBy(elig, w, m, max);
    EarlyStops(elig, w, m, max);
    VisitsSplit(elig, w, e, sz - e);
    CountRound(elig, w);
    SlotShift(w, e, i - e, sz);
    VisitsHas(elig, w + e, sz - e, i - e);
  }

  /** Round-robin fairness: with an unchanged table, walks that could together visit all eligible
      slots do visit every one of them. */
  lemma WalksAreFair(elig: seq<bool>, w: nat, m: nat, max: nat, s: nat)
    requires s < |elig| && elig[s]
    requires |Visits(elig, 0, |elig|)| <= m * max
    requires w + |elig| <= U32
    ensures s in Visits(elig, w, ExaminedBy(elig, w, m, max))
  {
    hide SlotAt, Visits, ExaminedBy;
    var e := ExaminedBy(elig, w, m, max);
    var i := RoundReaches(w, s, |elig|);
    if e <= i {
      MissedSlot(elig, w, m, max, i);
    } else {
      VisitsHas(elig, w, e, i);
    }
  }

  lemma SlotShift(w: nat, e: nat, i: nat, sz: nat)
    requires 0 < sz
    ensures SlotAt(w + e, i, sz) == SlotAt(w, e + i, sz)
  {
  }

  // ---- walks in a row, the counter being reduced after each ----

  lemma SlotOfCounter(w: nat, i: nat, sz: nat)
    requires 0 < sz
    ensures SlotAt(Counter(w), i, sz) == SlotAt(w, i, sz)
    ensures Counter(Counter(w) + i) == Counter(w + i)
  {
    ModStep(w, i, U32);
  }

  /** Only the reduced counter matters. */
  lemma {:induction false} SameCounter(elig: seq<bool>, v: nat, w: nat, e: nat, max: nat)
    requires 0 < |elig| && Counter(v) == Counter(w)
    ensures Visits(elig, v, e) == Visits(elig, w, e) && Examined(elig, v, e, max) == Examined(elig, w, e, max)
    decreases e
  {
    SlotOfCounter(v, 1, |elig|);
    SlotOfCounter(w, 1, |elig|);
    SlotOfCounter(v, 0, |elig|);
    SlotOfCounter(w, 0, |elig|);
    hide SlotAt, Counter;
    if e > 0 {
      SameCounter(elig, v + 1, w + 1, e - 1, max);
      if max > 0 && elig[SlotAt(w, 0, |elig|)] {
        SameCounter(elig, v + 1, w + 1, e - 1, max - 1);
      }
    }
  }

  lemma NoWalk(elig: seq<bool>, w: nat, max: nat)
    requires 0 < |elig| && w < U32
    ensures ExaminedBy(elig, w, 0, max) == 0 && Visits(elig, w, 0) == [] && Counter(w) == w
  {
  }

  lemma {:induction false} ExaminedByOneMore(elig: seq<bool>, w: nat, m: nat, max: nat)
    requires 0 < |elig|
    ensures var e := ExaminedBy(elig, w, m, max);
            ExaminedBy(elig, w, m + 1, max) == e + Examined(elig, w + e, |elig|, max)
    decreases m
  {
    if m > 0 {
      ExaminedByOneMore(elig, w + Examined(elig, w, |elig|, max), m - 1, max);
    }
  }

  /** After `m` walks the counter stands at `c`; one more walk from there. */
  lemma NextWalk(elig: seq<bool>, w: nat, m: nat, max: nat, c: nat)
    requires 0 < |elig| && c == Counter(w + ExaminedBy(elig, w, m, max))
    ensures var e, d := ExaminedBy(elig, w, m, max), Examined(elig, c, |elig|, max);
            && ExaminedBy(elig, w, m + 1, max) == e + d && Counter(c + d) == Counter(w + e + d)
            && Visits(elig, w, e) + Visits(elig, c, d) == Visits(elig, w, e + d)
  {
    hide Visits, Examined, ExaminedBy, Counter, SlotAt;
    var e, d := ExaminedBy(elig, w, m, max), Examined(elig, c, |elig|, max);
    SlotOfCounter(w + e, 0, |elig|);
    SlotOfCounter(w + e, d, |elig|);
    SameCounter(elig, c, w + e, |elig|, max);
    SameCounter(elig, c, w + e, d, max);
    ExaminedByOneMore(elig, w, m, max);
    VisitsSplit(elig, w, e, d);
  }

  // ---- at the wrap of the counter ----

  /** Some slot comes twice among the next `e`. */
  ghost predicate SlotTwice(w: nat, e: nat, sz: nat)
    requires 0 < sz
  {
    exists i: nat, j: nat :: i < j < e && SlotAt(w, i, sz) == SlotAt(w, j, sz)
  }

  /** A walk examines a slot twice exactly if the counter wraps during the walk and the walk is
      longer than the remainder of 2^32 by the size of the table, which is not 0. */
  lemma SlotTwiceExactly(w: nat, e: nat, sz: nat)
    requires w < U32 && 0 < sz <= U32 && e <= sz
    ensures SlotTwice(w, e, sz) <==> U32 < w + e && 0 < U32 % sz < e
  {
    if U32 < w + e && 0 < U32 % sz < e {
      WrapRepeats(w, e, sz);
    }
    hide SlotAt;
    forall i: nat, j: nat | i < j < e && SlotAt(w, i, sz) == SlotAt(w, j, sz)
      ensures U32 < w + e && 0 < U32 % sz < e
    {
      TwiceAcrossWrap(w, i, j, sz);
    }
  }

  /** The same for one walk over the table, of at most `max` visits. */
  lemma ExaminesTwiceExactly(elig: seq<bool>, w: nat, max: nat)
    requires w < U32 && 0 < |elig| <= U32
    ensures var e := Examined(elig, w, |elig|, max);
            SlotTwice(w, e, |elig|) <==> U32 < w + e && 0 < U32 % |elig| < e
  {
    SlotTwiceExactly(w, Examined(elig, w, |elig|, max), |elig|);
  }

  lemma SlotAfterWrap(w: nat, i: nat, sz: nat)
    requires w < U32 <= w + i && i < sz <= U32
    ensures SlotAt(w, i, sz) == w + i - U32
  {
    ModUnique(w + i, 1, w + i - U32, U32);
    ModUnique(w + i - U32, 0, w + i - U32, sz);
  }

  lemma TwiceAcrossWrap(w: nat, i: nat, j: nat, sz: nat)
    requires w < U32 && 0 < sz <= U32 && i < j < sz && SlotAt(w, i, sz) == SlotAt(w, j, sz)
    ensures w + i < U32 <= w + j && U32 % sz == j - i
  {
    if U32 <= w + i {
      SlotAfterWrap(w, i, sz);
      SlotAfterWrap(w, j, sz);
    } else if w + j < U32 {
      SlotBeforeWrap(w, i, sz);
      SlotBeforeWrap(w, j, sz);
      WrapInjective(w + i, w + j, sz);
    } else {
      SlotBeforeWrap(w, i, sz);
      SlotAfterWrap(w, j, sz);
      var q := (w + i) / sz;
      assert w + i == q * sz + (w + j - U32);
      ModUnique(U32, q, j - i, sz);
    }
  }

  lemma WrapRepeats(w: nat, e: nat, sz: nat)
    requires w < U32 < w + e && e <= sz <= U32 && 0 < U32 % sz < e
    ensures SlotTwice(w, e, sz)
  {
    var r, c := U32 - w, U32 % sz;
    if c <= r {
      // slot 0 comes c steps before the wrap and again right after it
      LastMultiple(sz);
      hide SlotAt;
      assert SlotAt(w, r - c, sz) == SlotAt(U32 - c, 0, sz) by { SlotShift(w, r - c, 0, sz); }
      assert SlotAt(w, r, sz) == SlotAt(U32, 0, sz) by { SlotShift(w, r, 0, sz); }
    } else {
      // the slot the walk starts at comes again c steps later
      JustBelow(w, sz);
      hide SlotAt;
      assert SlotAt(w, c, sz) == SlotAt(w, 0, sz);
    }
  }

  lemma LastMultiple(sz: nat)
    requires 0 < sz <= U32 && U32 % sz != 0
    ensures SlotAt(U32 - U32 % sz, 0, sz) == SlotAt(U32, 0, sz) == 0
  {
    ModUnique(U32 - U32 % sz, U32 / sz, 0, sz);
  }

  lemma JustBelow(w: nat, sz: nat)
    requires w < U32 && 0 < sz <= U32 && U32 - w < U32 % sz
    ensures SlotAt(w, U32 % sz, sz) == SlotAt(w, 0, sz)
  {
    var d := U32 % sz - (U32 - w);
    ModUnique(w, U32 / sz, d, sz);
    ModUnique(d, 0, d, sz);
    ModUnique(w + U32 % sz, 1, d, U32);
  }
}
