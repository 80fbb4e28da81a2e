/** Messages posted by other threads for (descriptor, serial number), and their dispatch to the
    links of the context. */
module ExtQueue {
  import opened Options
  import opened LinkSpec
  import opened LapLinks
  import opened Serials
  import opened Epoll

  datatype ExtMsg = ExtMsg(tofd: int, toserial: nat, asdu: Asdu)

  /** The messages that go to `lk`, when `to` tells where each goes. */
  ghost function DataFor(ms: seq<ExtMsg>, to: seq<Option<LapLink>>, lk: LapLink): seq<Asdu>
    requires |to| == |ms|
  {
    if ms == [] then []
    else
      var m := |ms| - 1;
      DataFor(ms[..m], to[..m], lk) + if to[m] == Some(lk) then [ms[m].asdu] else []
  }

  function PutAll(l: Link, data: seq<Asdu>): Link
  {
    if data == [] then l else Put(PutAll(l, data[..|data| - 1]), data[|data| - 1])
  }

  function Hits(to: seq<Option<LapLink>>): (n: nat)
    ensures n <= |to|
  {
    if to == [] then 0 else Hits(to[..|to| - 1]) + if to[|to| - 1].Some? then 1 else 0
  }

  /** A started link queues all of it, in order, unchanged; any other link drops it. */
  lemma {:induction false} PutAllQueues(l: Link, data: seq<Asdu>)
    ensures var r, taken := PutAll(l, data), if l.ssp.Started? then data else [];
            r.ssp == l.ssp && r.ackq == l.ackq
            && r.outq == l.outq + taken && r.log.accepted == l.log.accepted + taken
    decreases |data|
  {
    if data != [] {
      var d := data[..|data| - 1];
      PutAllQueues(l, d);
      assert data == d + [data[|data| - 1]];
    }
  }

  /** The link after the first `i` messages have been dispatched. */
  ghost function After(l: Link, ms: seq<ExtMsg>, to: seq<Option<LapLink>>, i: nat, lk: LapLink): Link
    requires |to| == |ms| && i <= |ms|
  {
    PutAll(l, DataFor(ms[..i], to[..i], lk))
  }

  lemma AfterNone(l: Link, ms: seq<ExtMsg>, to: seq<Option<LapLink>>, lk: LapLink)
    requires |to| == |ms|
    ensures After(l, ms, to, 0, lk) == l
  {
  }

  lemma AfterOneMore(l: Link, ms: seq<ExtMsg>, to: seq<Option<LapLink>>, i: nat, lk: LapLink)
    requires |to| == |ms| && i < |ms|
    ensures var p := After(l, ms, to, i, lk);
            After(l, ms, to, i + 1, lk) == if to[i] == Some(lk) then Put(p, ms[i].asdu) else p
  {
    assert ms[..i + 1][..i] == ms[..i] && to[..i + 1][..i] == to[..i];
    var d := DataFor(ms[..i], to[..i], lk);
    assert d + [] == d && (d + [ms[i].asdu])[..|d|] == d;
  }

  lemma HitsOneMore(to: seq<Option<LapLink>>, i: nat)
    requires i < |to|
    ensures Hits(to[..0]) == 0 && Hits(to[..i + 1]) == Hits(to[..i]) + if to[i].Some? then 1 else 0
  {
    assert to[..i + 1][..i] == to[..i];
  }

  class ExtContext {
    const table: EpollTable<LapLink>
    const serials: SerialCounter
    var extqueue: seq<ExtMsg>
    var extcount: nat

    /** The links of the context, and the link each serial number was given to. */
    ghost var links: set<LapLink>
    ghost var owner: map<nat, LapLink>

    ghost predicate Valid()
      reads this, table, table.hdTb, serials, links
    {
      Indexed() && extcount == |extqueue|
    }

    /** Everything but the queue. */
    ghost predicate Indexed()
      reads this`links, this`owner, table, table.hdTb, serials, links
    {
      table.Valid() && Registered() && Owned() && forall lk :: lk in links ==> lk.Counted()
    }

    /** Handles and links point at each other. */
    ghost predicate Registered()
      requires table.Valid()
      reads this`links, table, table.hdTb, links`fd, links`serial
    {
      && (forall fd :: table.At(fd).Some? ==>
            var h := table.At(fd).value;
            h.ref.Some? && h.ref.value in links && h.ref.value.fd == fd && h.ref.value.serial == h.serial != 0)
      && (forall lk :: lk in links && lk.serial != 0 ==>
            table.At(lk.fd).Some? && table.At(lk.fd).value.ref == Some(lk))
      && (forall lk :: lk in links ==> (0 <= lk.fd <==> lk.serial != 0))
    }

    /** A serial number belongs for good to the link it was given to. */
    ghost predicate Owned()
      reads this`links, this`owner, serials, links`serial
    {
      && serials.Valid() && serials.issued < U32
      && (forall s :: s in owner ==> 1 <= s <= serials.issued && owner[s] in links)
      && (forall lk :: lk in links && lk.serial != 0 ==> lk.serial in owner && owner[lk.serial] == lk)
    }

    /** Where the dispatch sends a message: to the link registered for its descriptor, if that
        link holds the serial number of the message. */
    ghost function Target(m: ExtMsg): Option<LapLink>
      requires table.Valid() && Registered()
      reads this`links, table, table.hdTb, links`fd, links`serial
    {
      var h := table.At(m.tofd);
      if h.Some? && h.value.ref.value.serial == m.toserial then h.value.ref else None
    }

    /** Only the link that was given the serial number can be the target, and only while it is
        registered under it, even if the descriptor has been closed and used again. */
    lemma TargetIsOwner(m: ExtMsg)
      requires Valid() && Target(m).Some?
      ensures m.toserial in owner && owner[m.toserial] == Target(m).value
      ensures Target(m).value.serial == m.toserial && Target(m).value.fd == m.tofd
    {
    }

    /** As long as the owner of the serial number is registered under it, it is the target. */
    lemma OwnerIsTarget(m: ExtMsg)
      requires Valid() && m.toserial in owner
      requires owner[m.toserial].serial == m.toserial && owner[m.toserial].fd == m.tofd
      ensures Target(m) == Some(owner[m.toserial])
    {
    }

    constructor (serials: SerialCounter)
      requires serials.Valid() && serials.issued < U32
      ensures Valid() && links == {} && owner == map[] && extqueue == [] && this.serials == serials
      ensures fresh(table) && fresh(table.hdTb)
    {
      table := new EpollTable<LapLink>();
      this.serials := serials;
      extqueue, extcount := [], 0;
      links, owner := {}, map[];
    }

    /** A new registration under a fresh serial number keeps handles and links in step. */
    method Enlist(lk: LapLink, fd: int)
      requires table.Valid() && Registered() && lk.fd < 0 && lk.serial == 0
      requires 0 <= fd < table.szTb + SZPOLL && table.At(fd).None?
      requires serials.Valid() && serials.issued + 1 < U32
      modifies this`links, table`hdTb, table`szTb, table`nbFd, table.hdTb, serials, lk`fd, lk`serial
      ensures table.Valid() && Registered() && links == old(links) + {lk}
      ensures serials.Valid() && serials.issued == old(serials.issued) + 1
      ensures lk.fd == fd && lk.serial == serials.issued
    {
      hide SerialOf, EpollTable.At, EpollTable.Valid, SerialCounter.Valid;
      var pos := table.Add(serials, fd, Some(lk), true, true);
      SerialsFresh(serials.issued);
      lk.fd := fd;
      lk.serial := table.Serial(fd);
      links := links + {lk};
    }

    /** A link gets a socket: `fd` is a descriptor the system has just opened. */
    method Register(lk: LapLink, fd: int)
      requires Valid() && lk.Counted() && lk.fd < 0 && lk.serial == 0
      requires 0 <= fd < table.szTb + SZPOLL && table.At(fd).None? && serials.issued + 1 < U32
      modifies this`links, this`owner, table`hdTb, table`szTb, table`nbFd, table.hdTb, serials, lk`fd, lk`serial
      ensures Valid() && links == old(links) + {lk}
      ensures lk.fd == fd && lk.serial !in old(owner) && owner == old(owner)[lk.serial := lk]
    {
      hide Registered, EpollTable.Valid, EpollTable.At, SerialCounter.Valid;
      Enlist(lk, fd);
      Own(lk);
    }

    /** Notes the owner of the serial number handed out last. */
    ghost method Own(lk: LapLink)
      requires serials.Valid() && serials.issued < U32 && lk in links && lk.serial == serials.issued >= 1
      requires forall s :: s in owner ==> 1 <= s < serials.issued && owner[s] in links
      requires forall k :: k in links && k != lk && k.serial != 0 ==> k.serial in owner && owner[k.serial] == k
      modifies this`owner
      ensures Owned() && lk.serial !in old(owner) && owner == old(owner)[lk.serial := lk]
    {
      owner := owner[lk.serial := lk];
    }

    /** A link loses its socket. */
    method Disconnected(lk: LapLink)
      requires Valid() && lk in links && lk.Valid()
      modifies table`nbFd, table.hdTb, lk
      ensures Valid() && lk.Valid() && lk.State() == Disconnect(old(lk.State())) && lk.serial == 0
      ensures extqueue == old(extqueue) && owner == old(owner)
    {
      hide EpollTable.Valid, EpollTable.At, SerialCounter.Valid, Disconnect;
      if lk.fd >= 0 {
        var ret := table.Rmv(lk.fd);
      }
      lk.Disconnected();
    }

    /** Called from any thread, under the lock of the queue. */
    method PutOutQueueExt(fd: int, serial: nat, asdu: Asdu) returns (ret: nat)
      requires Valid()
      modifies this`extqueue, this`extcount
      ensures Valid() && extqueue == old(extqueue) + [ExtMsg(fd, serial, asdu)] && ret == |extqueue|
    {
      extqueue := extqueue + [ExtMsg(fd, serial, asdu)];
      extcount := extcount + 1;
      return extcount;
    }

    ghost function Targets(ms: seq<ExtMsg>): (to: seq<Option<LapLink>>)
      requires table.Valid() && Registered()
      reads this`links, table, table.hdTb, links`fd, links`serial
      ensures |to| == |ms| && forall i :: 0 <= i < |ms| ==> to[i] == Target(ms[i])
    {
      if ms == [] then [] else Targets(ms[..|ms| - 1]) + [Target(ms[|ms| - 1])]
    }

    /** Looks up the link for a message, by descriptor and serial number. */
    method FindTarget(m: ExtMsg) returns (to: Option<LapLink>)
      requires table.Valid() && Registered()
      ensures to == Target(m)
    {
      var h := table.Handle(m.tofd);
      if h.None? || h.value.fd != m.tofd || h.value.ref.None? || h.value.ref.value.serial != m.toserial {
        return None;
      }
      return h.value.ref;
    }

    /** Hands a message to its link, if there is one. */
    method Dispatch(m: ExtMsg) returns (hit: bool)
      requires Indexed()
      modifies links`mode, links`outq, links`outcount, links`log
      ensures Indexed() && hit == old(Target(m)).Some?
      ensures var to := old(Target(m));
              forall lk :: lk in links ==>
                lk.State() == (if to == Some(lk) then Put(old(lk.State()), m.asdu) else old(lk.State()))
    {
      var to := FindTarget(m);
      if to.None? {
        return false;
      }
      assert to.value in links;
      hide Put, Target, Registered, Owned;
      Deliver(to.value, m.asdu);
      return true;
    }

    method Deliver(to: LapLink, asdu: Asdu)
      requires to in links && forall lk :: lk in links ==> lk.Counted()
      modifies to`mode, to`outq, to`outcount, to`log
      ensures forall lk :: lk in links ==> lk.Counted()
      ensures forall lk :: lk in links ==>
                lk.State() == if to == lk then Put(old(lk.State()), asdu) else old(lk.State())
    {
      hide Put;
      var ret := to.PutOutQueue(asdu);
    }

    /** Every link has taken what the first `i` of the messages `ms` brought it. */
    ghost predicate Delivered(was: map<LapLink, Link>, ms: seq<ExtMsg>, to: seq<Option<LapLink>>, i: nat)
      requires i <= |ms| == |to|
      reads this`links, links
    {
      forall lk :: lk in links ==> lk in was && lk.State() == After(was[lk], ms, to, i, lk)
    }

    method DeliverNext(ghost was: map<LapLink, Link>, ghost ms: seq<ExtMsg>, ghost to: seq<Option<LapLink>>, ghost i: nat, m: ExtMsg)
      returns (hit: bool)
      requires Indexed() && i < |ms| == |to| && ms[i] == m && Target(m) == to[i] && Delivered(was, ms, to, i)
      modifies links`mode, links`outq, links`outcount, links`log
      ensures Indexed() && Delivered(was, ms, to, i + 1) && hit == to[i].Some?
    {
      hide Indexed, Target, After, Put;
      hit := Dispatch(m);
      forall lk | lk in links ensures lk in was && lk.State() == After(was[lk], ms, to, i + 1, lk) {
        AfterOneMore(was[lk], ms, to, i, lk);
      }
    }

    /** The first `i` of the messages `ms` have been handed to the links `to`, `nb` of them to one
        that exists. */
    ghost predicate Dispatched(was: map<LapLink, Link>, ms: seq<ExtMsg>, to: seq<Option<LapLink>>, i: nat, nb: nat)
      reads this`links, this`extqueue, table, table.hdTb, links
    {
      && table.Valid() && Registered() && i <= |ms| == |to| && to == Targets(ms) && extqueue == ms[i..]
      && nb == Hits(to[..i]) && Delivered(was, ms, to, i)
    }

    lemma NextTarget(ms: seq<ExtMsg>, to: seq<Option<LapLink>>, i: nat)
      requires table.Valid() && Registered() && i < |ms| == |to| && to == Targets(ms)
      ensures Target(ms[i]) == to[i] && ms[i..][0] == ms[i] && ms[i..][1..] == ms[i + 1..]
    {
      hide Registered, Target, EpollTable.Valid;
    }

    method DispatchStep(ghost was: map<LapLink, Link>, ghost ms: seq<ExtMsg>, ghost to: seq<Option<LapLink>>, ghost i: nat, ghost nb: nat)
      returns (hit: bool)
      requires Valid() && Dispatched(was, ms, to, i, nb) && extqueue != []
      modifies this`extqueue, this`extcount, links`mode, links`outq, links`outcount, links`log
      ensures Valid() && Dispatched(was, ms, to, i + 1, if hit then nb + 1 else nb)
      ensures |extqueue| == old(|extqueue|) - 1
    {
      hide Indexed, Target, Targets, Hits, Delivered, Registered;
      HitsOneMore(to, i);
      NextTarget(ms, to, i);
      var m := extqueue[0];
      extqueue, extcount := extqueue[1..], extcount - 1;
      hit := DeliverNext(was, ms, to, i, m);
    }

    /** The loop of a dispatch of the messages `ms`, which go to the links `to`. */
    method DispatchAll(maxcnt: int, ghost was: map<LapLink, Link>, ghost ms: seq<ExtMsg>, ghost to: seq<Option<LapLink>>)
      returns (nb: nat, err: nat)
      requires Valid() && Dispatched(was, ms, to, 0, 0)
      modifies this`extqueue, this`extcount, links`mode, links`outq, links`outcount, links`log
      ensures Valid() && Dispatched(was, ms, to, nb + err, nb)
      ensures (extqueue != [] ==> 0 < maxcnt && nb == maxcnt) && (0 < maxcnt ==> nb <= maxcnt)
    {
      hide Valid, Dispatched;
      nb, err := 0, 0;
      while extqueue != []
        invariant Valid() && Dispatched(was, ms, to, nb + err, nb)
        invariant 0 < maxcnt ==> nb < maxcnt
        decreases |extqueue|
      {
        var hit := DispatchStep(was, ms, to, nb + err, nb);
        if hit {
          nb := nb + 1;
          if maxcnt > 0 && nb >= maxcnt {
            break;
          }
        } else {
          err := err + 1;
        }
      }
    }

    /** Hands the posted messages to their links, at most `maxcnt` if that is positive. */
    method DispatchQueueExt(maxcnt: int) returns (nb: nat, left: nat, err: nat)
      requires Valid()
      modifies this`extqueue, this`extcount, links`mode, links`outq, links`outcount, links`log
      ensures Valid() && left == |extqueue|
      ensures nb + err + left == old(extcount) && extqueue == old(extqueue)[nb + err..]
      ensures left > 0 ==> 0 < maxcnt && nb == maxcnt
      ensures 0 < maxcnt ==> nb <= maxcnt
      ensures var to := old(Targets(extqueue));
              nb == Hits(to[..nb + err]) && Delivered(old(States()), old(extqueue), to, nb + err)
    {
      hide Target, Targets, After, Delivered, Hits, States, Indexed;
      DispatchStarts();
      nb, err := DispatchAll(maxcnt, States(), extqueue, Targets(extqueue));
      left := extcount;
    }

    lemma DispatchStarts()
      requires Valid()
      ensures Dispatched(States(), extqueue, Targets(extqueue), 0, 0)
    {
      hide Target, Targets, After;
      forall lk | lk in links ensures lk.State() == After(States()[lk], extqueue, Targets(extqueue), 0, lk) {
        AfterNone(States()[lk], extqueue, Targets(extqueue), lk);
      }
      assert Hits(Targets(extqueue)[..0]) == 0;
    }

    ghost function States(): (m: map<LapLink, Link>)
      reads this`links, links
    {
      map lk | lk in links :: lk.State()
    }
  }
}
