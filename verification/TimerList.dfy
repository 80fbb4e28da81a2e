/** Where a timer goes in the timer list, and what that means for its order. */
module TimerList {
  import opened MsgTime

  /** The last deadline that is not later than `d`, or -1. */
  function LastNotLater(ends: seq<Time>, d: Time): (j: int)
    ensures -1 <= j < |ends|
    ensures 0 <= j ==> CmpTime(ends[j], d) <= 0
    ensures forall i :: j < i < |ends| ==> CmpTime(ends[i], d) > 0
  {
    if ends == [] then -1
    else if CmpTime(ends[|ends| - 1], d) <= 0 then |ends| - 1
    else LastNotLater(ends[..|ends| - 1], d)
  }

  /** Where a timer goes: behind the last one if that is not later; otherwise in front of the
      last one that is not later, or at the end if there is none. */
  function InsertAt(ends: seq<Time>, d: Time): (p: nat)
    ensures p <= |ends|
  {
    var j := LastNotLater(ends, d);
    if j < 0 || j == |ends| - 1 then |ends| else j
  }

  predicate SortedTimes(ends: seq<Time>)
  {
    forall i, j :: 0 <= i <= j < |ends| ==> ends[i].Total() <= ends[j].Total()
  }

  lemma AppendSorted(ends: seq<Time>, d: Time)
    requires SortedTimes(ends)
    ensures SortedTimes(ends + [d]) <==> ends == [] || ends[|ends| - 1].Total() <= d.Total()
  {
    var r := ends + [d];
    if ends != [] {
      assert r[|ends| - 1] == ends[|ends| - 1] && r[|ends|] == d;
    }
  }

  lemma BetweenSorted(a: seq<Time>, d: Time, b: seq<Time>)
    requires SortedTimes(a + b) && b != [] && b[0].Total() <= d.Total()
    ensures SortedTimes(a + [d] + b) <==> b[0].Total() == d.Total()
  {
    var s, r := a + b, a + [d] + b;
    assert r[|a|] == d && r[|a| + 1] == b[0] && s[|a|] == b[0];
    if b[0].Total() == d.Total() {
      forall i, j | 0 <= i <= j < |r| ensures r[i].Total() <= r[j].Total() {
        var i', j' := if i <= |a| then i else i - 1, if j <= |a| then j else j - 1;
        assert r[i].Total() == s[i'].Total() && r[j].Total() == s[j'].Total();
      }
    }
  }

  /** Insertion into a sorted list leaves it sorted exactly if no deadline of the list is later,
      or the last one that is not later is the same: in front of a smaller one it is misplaced,
      and so it is at the end behind later ones. */
  lemma InsertSortedExactly(ends: seq<Time>, d: Time)
    requires SortedTimes(ends) && d.Normal() && forall i :: 0 <= i < |ends| ==> ends[i].Normal()
    ensures var p, j := InsertAt(ends, d), LastNotLater(ends, d);
            SortedTimes(ends[..p] + [d] + ends[p..]) <==> j == |ends| - 1 || (0 <= j && ends[j] == d)
  {
    hide CmpTime, SortedTimes, LastNotLater;
    var p, j := InsertAt(ends, d), LastNotLater(ends, d);
    if j < 0 || j == |ends| - 1 {
      assert ends[..p] + [d] + ends[p..] == ends + [d];
      AppendSorted(ends, d);
      if ends != [] { CmpTimeSign(ends[|ends| - 1], d); }
    } else {
      CmpTimeSign(ends[j], d);
      assert ends[..j] + ends[j..] == ends;
      BetweenSorted(ends[..j], d, ends[j..]);
    }
  }

  /** A list that loses its order: 2 goes in front of 1, because 3 is later. */
  lemma InsertUnsorted()
    ensures var ends, d := [Time(1, 0), Time(3, 0)], Time(2, 0);
            var p := InsertAt(ends, d);
            SortedTimes(ends) && ends[..p] + [d] + ends[p..] == [Time(2, 0), Time(1, 0), Time(3, 0)]
            && !SortedTimes(ends[..p] + [d] + ends[p..])
  {
    var ends, d := [Time(1, 0), Time(3, 0)], Time(2, 0);
    assert ends[..1] == [Time(1, 0)];
    assert LastNotLater(ends[..1], d) == 0 && LastNotLater(ends, d) == 0;
    InsertSortedExactly(ends, d);
  }
}
