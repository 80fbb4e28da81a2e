/** The table of poll handles: one slot per file descriptor, a serial number for every
    registration, and a round-robin walk. */
module Epoll {
  import opened SeqNum
  import opened Options
  import opened LinkSpec
  import opened Serials
  import opened Walk

  const SZPOLL := 1000

  // ---- the table ----

  /** A registration: its serial number, the object it is for, whether the second reference is
      set, and the poll mode last requested. */
  datatype Hand<R> = Hand(fd: nat, serial: nat, ref: Option<R>, ref2: bool, revents: PollMode)

  /** A walk calls back for the handles with both references set. */
  predicate Ready<R>(h: Option<Hand<R>>) { h.Some? && h.value.ref.Some? && h.value.ref2 }

  function Eligible<R>(tb: seq<Option<Hand<R>>>): (elig: seq<bool>)
    ensures |elig| == |tb| && forall i :: 0 <= i < |tb| ==> elig[i] == Ready(tb[i])
  {
    seq(|tb|, i requires 0 <= i < |tb| => Ready(tb[i]))
  }

  class EpollTable<R(==)> {
    var hdTb: array<Option<Hand<R>>>
    var szTb: nat
    var nbFd: int
    var walkrr: nat
    /** The slots whose handle was passed to the callback of a walk. */
    ghost var visits: seq<nat>

    ghost predicate Valid()
      reads this, hdTb
    {
      && szTb == hdTb.Length && szTb % SZPOLL == 0 && 0 < szTb && walkrr < U32
      && forall fd :: 0 <= fd < szTb && hdTb[fd].Some? ==> hdTb[fd].value.fd == fd
    }

    /** The registrations by file descriptor; beyond the table there are none. */
    ghost function At(fd: int): Option<Hand<R>>
      requires Valid()
      reads this, hdTb
    {
      if 0 <= fd < szTb then hdTb[fd] else None
    }

    constructor ()
      ensures Valid() && szTb == SZPOLL && fresh(hdTb) && walkrr == 0 && visits == []
      ensures forall fd :: At(fd) == None
    {
      hdTb := new Option<Hand<R>>[SZPOLL](_ => None);
      szTb, nbFd, walkrr, visits := SZPOLL, 0, 0, [];
    }

    /** Grows the table by one step; no registration moves. */
    method Grow()
      requires Valid()
      modifies this`hdTb, this`szTb
      ensures Valid() && fresh(hdTb) && szTb == old(szTb) + SZPOLL
      ensures forall fd :: At(fd) == old(At(fd))
    {
      var tb := hdTb;
      hdTb := new Option<Hand<R>>[szTb + SZPOLL](i requires 0 <= i reads tb => if i < tb.Length then tb[i] else None);
      szTb := szTb + SZPOLL;
    }

    /** Registers `fd`; `ctl` tells whether the system call accepts it. The serial number is
        consumed in any case once the slot was found free. */
    method Add(ser: SerialCounter, fd: int, ref: Option<R>, ref2: bool, ctl: bool) returns (ret: int)
      requires Valid() && ser.Valid() && fd < szTb + SZPOLL
      modifies this`hdTb, this`szTb, this`nbFd, hdTb, ser
      ensures Valid() && ser.Valid() && (hdTb == old(hdTb) || fresh(hdTb))
      ensures ret == if fd < 0 then -3 else if old(At(fd)).Some? then -5 else if !ctl then -10 else fd
      ensures ser.issued == old(ser.issued) + if fd < 0 || old(At(fd)).Some? then 0 else 1
      ensures forall g {:trigger At(g)} :: At(g) ==
                if g == fd && 0 <= ret then Some(Hand(fd, SerialOf(ser.issued), ref, ref2, PollIn)) else old(At(g))
    {
      if fd < 0 {
        return -3;
      }
      if fd >= szTb {
        Grow();
      }
      if hdTb[fd].Some? {
        return -5;
      }
      var serial := ser.NextSerial();
      if !ctl {
        return -10;
      }
      hdTb[fd] := Some(Hand(fd, serial, ref, ref2, PollIn));
      nbFd := nbFd + 1;
      return fd;
    }

    /** The handle of a descriptor. */
    method Handle(fd: int) returns (h: Option<Hand<R>>)
      requires Valid()
      ensures h == At(fd)
    {
      if fd < 0 || fd >= szTb || hdTb[fd].None? || hdTb[fd].value.fd != fd {
        return None;
      }
      return hdTb[fd];
    }

    /** The serial number of a descriptor, 0 if it is not registered. */
    method Serial(fd: int) returns (s: nat)
      requires Valid()
      ensures s == if At(fd).Some? then At(fd).value.serial else 0
    {
      var h := Handle(fd);
      return if h.Some? then h.value.serial else 0;
    }

    method SetEvt(fd: int, mode: PollMode, ctl: bool) returns (ret: int)
      requires Valid()
      modifies hdTb
      ensures Valid()
      ensures ret == if fd < 0 || fd >= szTb then -1 else if old(At(fd)).None? then -2 else if !ctl then -10 else 0
      ensures forall g {:trigger At(g)} :: At(g) ==
                if g == fd && ret == 0 then Some(old(At(g)).value.(revents := mode)) else old(At(g))
    {
      if fd < 0 || fd >= szTb {
        return -1;
      }
      if hdTb[fd].None? {
        return -2;
      }
      if hdTb[fd].value.fd != fd {
        return -3;
      }
      if !ctl {
        return -10;
      }
      hdTb[fd] := Some(hdTb[fd].value.(revents := mode));
      return 0;
    }

    method Rmv(fd: int) returns (ret: int)
      requires Valid()
      modifies this`nbFd, hdTb
      ensures Valid()
      ensures ret == if fd < 0 || fd >= szTb then -1 else if old(At(fd)).None? then -2 else 0
      ensures forall g {:trigger At(g)} :: At(g) == if g == fd then None else old(At(g))
    {
      if fd < 0 || fd >= szTb {
        return -1;
      }
      if hdTb[fd].None? {
        return -2;
      }
      hdTb[fd] := None;
      nbFd := nbFd - 1;
      return 0;
    }

    // ---- walking ----

    /** The number of callbacks per walk: a hundredth of the table, whatever `per` says, unless
        the table has fewer than a hundred slots. */
    static function MaxVisits(szTb: nat, per: int): (max: nat)
      ensures 0 < max
    {
      if szTb / 100 > 0 then szTb / 100
      else if per <= 0 then 10
      else if per > 100 then 100
      else per
    }

    /** The percentage matters exactly on tables of fewer than a hundred slots. */
    static lemma PercentageIgnoredExactly(szTb: nat)
      ensures (forall per, per' :: MaxVisits(szTb, per) == MaxVisits(szTb, per')) <==> 100 <= szTb
    {
      assert szTb < 100 ==> MaxVisits(szTb, 1) != MaxVisits(szTb, 2);
    }

    /** Takes the next slot; `w` is the counter before any wrap. */
    method NextSlot(ghost w: nat) returns (idx: nat)
      requires 0 < szTb && walkrr == Counter(w)
      modifies this`walkrr
      ensures idx == SlotAt(w, 0, szTb) && walkrr == Counter(w + 1)
    {
      idx := walkrr % szTb;
      ModStep(w, 1, U32);
      walkrr := (walkrr + 1) % U32;
    }

    /** The slots whose handle a walk calls back for. */
    ghost function Handles(): (elig: seq<bool>)
      requires Valid()
      reads this, hdTb
      ensures |elig| == szTb > 0
    {
      Eligible(hdTb[..])
    }

    lemma HandlesAt(fd: nat)
      requires Valid()
      ensures if fd < szTb then Handles()[fd] == Ready(At(fd)) else !Ready(At(fd))
    {
    }

    /** A walk that started with the counter at `w` and the visits `was` has examined `i` slots and
        made `nb` visits. */
    ghost predicate Walked(elig: seq<bool>, w: nat, max: nat, was: seq<nat>, i: nat, nb: nat)
      requires 0 < |elig|
      reads this`walkrr, this`visits
    {
      Moved(elig, w, was, i) && Walking(elig, w, max, i, nb)
    }

    /** Walks that started with the counter at `w` and the visits `was` have examined `e` slots. */
    ghost predicate Moved(elig: seq<bool>, w: nat, was: seq<nat>, e: nat)
      requires 0 < |elig|
      reads this`walkrr, this`visits
    {
      walkrr == Counter(w + e) && visits == was + Visits(elig, w, e)
    }

    lemma NotMoved(elig: seq<bool>)
      requires Valid() && 0 < |elig|
      ensures Moved(elig, walkrr, visits, 0)
    {
      NoWalk(elig, walkrr, 0);
      assert visits + [] == visits;
    }

    /** Examines the next slot. */
    method WalkOne(ghost w: nat, max: nat, ghost was: seq<nat>, ghost i: nat, nb: nat) returns (next: nat)
      requires Valid() && i < szTb && nb < max && Walked(Handles(), w, max, was, i, nb)
      modifies this`walkrr, this`visits
      ensures Valid() && Walked(Handles(), w, max, was, i + 1, next) && next <= nb + 1
    {
      hide Walking, Visits, SlotAt, Counter, Eligible;
      WalkStep(Handles(), w, max, i, nb);
      HandlesAt(SlotAt(w + i, 0, szTb));
      var idx := NextSlot(w + i);
      next := nb;
      if hdTb[idx].Some? && hdTb[idx].value.ref.Some? && hdTb[idx].value.ref2 {
        visits := visits + [idx];
        next := nb + 1;
      }
    }

    /** The loop of a walk of at most `max` visits. */
    method WalkSlots(max: nat) returns (nb: nat)
      requires Valid() && 0 < max
      modifies this`walkrr, this`visits
      ensures var e := Examined(old(Handles()), old(walkrr), szTb, max);
              Moved(old(Handles()), old(walkrr), old(visits), e) && nb == |Visits(old(Handles()), old(walkrr), e)|
    {
      hide Examined, Visits, Walking, Eligible, Counter, Moved;
      nb := 0;
      ghost var elig, w := Handles(), walkrr;
      var i := 0;
      NotMoved(elig);
      WalkStarts(elig, w, max);
      while i < szTb
        invariant Valid() && i <= szTb && nb < max && Walked(elig, w, max, old(visits), i, nb)
      {
        nb := WalkOne(w, max, old(visits), i, nb);
        i := i + 1;
        if nb >= max {
          break;
        }
      }
      WalkEnds(elig, w, max, i, nb);
    }

    /** One walk, with callbacks that return 0 or more. */
    method Walk(per: int) returns (nb: nat)
      requires Valid()
      modifies this`walkrr, this`visits
      ensures Valid()
      ensures var e := Examined(old(Handles()), old(walkrr), szTb, MaxVisits(szTb, per));
              Moved(old(Handles()), old(walkrr), old(visits), e) && nb == |Visits(old(Handles()), old(walkrr), e)|
    {
      hide Examined, Visits, Eligible;
      var p := if per <= 0 then 10 else if per > 100 then 100 else per;
      var max := szTb / 100;
      if max <= 0 {
        max := p;
      }
      nb := WalkSlots(max);
    }

    /** One more walk after `i` walks that examined `e` slots. */
    method WalkAgain(per: int, ghost w: nat, ghost was: seq<nat>, ghost i: nat)
      requires Valid() && Moved(Handles(), w, was, ExaminedBy(Handles(), w, i, MaxVisits(szTb, per)))
      modifies this`walkrr, this`visits
      ensures Valid() && Moved(Handles(), w, was, ExaminedBy(Handles(), w, i + 1, MaxVisits(szTb, per)))
    {
      hide Examined, Visits, Eligible, ExaminedBy, MaxVisits;
      NextWalk(Handles(), w, i, MaxVisits(szTb, per), walkrr);
      var nb := Walk(per);
    }

    /** `m` walks, one after the other, with nothing registered or removed between them. */
    method Walks(m: nat, per: int)
      requires Valid()
      modifies this`walkrr, this`visits
      ensures Valid()
      ensures Moved(old(Handles()), old(walkrr), old(visits), ExaminedBy(old(Handles()), old(walkrr), m, MaxVisits(szTb, per)))
    {
      hide Moved, Eligible, MaxVisits;
      NotMoved(Handles());
      for i := 0 to m
        invariant Valid() && Moved(Handles(), old(walkrr), old(visits), ExaminedBy(Handles(), old(walkrr), i, MaxVisits(szTb, per)))
      {
        WalkAgain(per, old(walkrr), old(visits), i);
      }
    }

    /** How many handles there are to visit. */
    ghost function HandleCount(): nat
      requires Valid()
      reads this, hdTb
    {
      |Visits(Handles(), 0, szTb)|
    }

    /** Round-robin fairness of the walks themselves: if there are at most as many handles as `m`
        walks can visit, all of them have been visited after `m` walks. */
    method FairWalks(m: nat, per: int)
      requires Valid() && walkrr + szTb <= U32 && HandleCount() <= m * MaxVisits(szTb, per)
      modifies this`walkrr, this`visits
      ensures Valid() && |old(visits)| <= |visits|
      ensures forall fd: nat :: Ready(At(fd)) ==> fd in visits[|old(visits)|..]
    {
      hide Visits, Eligible, ExaminedBy, MaxVisits;
      ghost var elig, w, max := Handles(), walkrr, MaxVisits(szTb, per);
      Walks(m, per);
      ghost var e := ExaminedBy(elig, w, m, max);
      assert visits[|old(visits)|..] == Visits(elig, w, e);
      forall fd: nat | Ready(At(fd)) ensures fd in Visits(elig, w, e) {
        HandlesAt(fd);
        WalksAreFair(elig, w, m, max, fd);
      }
    }
  }
}
