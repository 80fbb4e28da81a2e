/** Serial numbers: an unsigned int, counted up, that skips 0. */
module Serials {
  import opened SeqNum

  const U32 := 4294967296

  /** The i-th serial number handed out: an unsigned int that skips 0. */
  function SerialOf(i: nat): (s: nat)
    requires 1 <= i
    ensures 1 <= s < U32
  {
    (i - 1) % (U32 - 1) + 1
  }

  /** Serial numbers repeat exactly with the period 2^32 - 1. */
  lemma SerialsRepeatExactly(i: nat, j: nat)
    requires 1 <= i <= j
    ensures SerialOf(i) == SerialOf(j) <==> (j - i) % (U32 - 1) == 0
  {
    var n := U32 - 1;
    var d := j - i;
    ModStep(i - 1, d, n);
    ModStep(d, (i - 1) % n, n);
    assert (j - 1) % n == (d % n + (i - 1) % n) % n;
    if d % n == 0 {
    } else if (i - 1) % n + d % n < n {
    } else {
      ModUnique(d % n + (i - 1) % n, 1, d % n + (i - 1) % n - n, n);
    }
  }

  /** Below 2^32 the serial number is the number of the registration, so none is handed out twice. */
  lemma SerialsFresh(i: nat)
    requires 1 <= i < U32
    ensures SerialOf(i) == i
  {
  }

  /** The counter behind the serial numbers of the poll handles, and a second one behind those of
      the messages. */
  class SerialCounter {
    var last: nat
    ghost var issued: nat

    ghost predicate Valid()
      reads this
    {
      last == if issued == 0 then 0 else SerialOf(issued)
    }

    constructor ()
      ensures Valid() && issued == 0
    {
      last, issued := 0, 0;
    }

    method NextSerial() returns (ret: nat)
      requires Valid()
      modifies this
      ensures Valid() && issued == old(issued) + 1 && ret == SerialOf(issued)
    {
      if issued > 0 {
        ModStep(issued - 1, 1, U32 - 1);
      }
      last := (last + 1) % U32;
      if last == 0 {
        last := 1;
      }
      issued := issued + 1;
      return last;
    }
  }
}
