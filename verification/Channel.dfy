/** Frames in flight on one lossless FIFO channel, read from both ends: the data they carry to
    the receiver and the acknowledgements they carry back to the sender. */
module Channel {
  import opened SeqNum
  import opened LinkSpec

  /** The I frames of `ch` carry accepted[from..upto], in order, numbered modulo n. */
  predicate Carries(ch: seq<Frame>, from: nat, upto: nat, accepted: seq<Asdu>, n: nat)
    requires 0 < n && upto <= |accepted|
  {
    if ch == [] then from == upto
    else match ch[0]
      case I(ns, _, asdu) =>
        from < upto && ns == from % n && asdu == accepted[from] && Carries(ch[1..], from + 1, upto, accepted, n)
      case _ => Carries(ch[1..], from, upto, accepted, n)
  }

  lemma {:induction false} CarriesForward(ch: seq<Frame>, from: nat, upto: nat, accepted: seq<Asdu>, n: nat)
    requires 0 < n && upto <= |accepted| && Carries(ch, from, upto, accepted, n)
    ensures from <= upto
  {
    if ch != [] {
      CarriesForward(ch[1..], if ch[0].I? then from + 1 else from, upto, accepted, n);
    }
  }

  /** Frames written later carry on where the channel ends, even if more data was accepted. */
  lemma {:induction false} CarriesAppend(
    ch: seq<Frame>, tx: seq<Frame>, from: nat, mid: nat, upto: nat,
    accepted: seq<Asdu>, accepted': seq<Asdu>, n: nat)
    requires 0 < n && mid <= |accepted| && upto <= |accepted'| && accepted <= accepted'
    requires Carries(ch, from, mid, accepted, n) && Carries(tx, mid, upto, accepted', n)
    ensures Carries(ch + tx, from, upto, accepted', n)
  {
    if ch == [] {
      assert ch + tx == tx;
    } else {
      CarriesForward(tx, mid, upto, accepted', n);
      CarriesAppend(ch[1..], tx, if ch[0].I? then from + 1 else from, mid, upto, accepted, accepted', n);
      assert (ch + tx)[1..] == ch[1..] + tx;
    }
  }

  /** Frames without data carry nothing. */
  lemma {:induction false} CarriesNothing(tx: seq<Frame>, at: nat, accepted: seq<Asdu>, n: nat)
    requires 0 < n && at <= |accepted|
    requires forall f :: f in tx ==> !f.I?
    ensures Carries(tx, at, at, accepted, n)
  {
    if tx != [] {
      CarriesNothing(tx[1..], at, accepted, n);
    }
  }

  /** V(A) as an unbounded counter after taking in the acknowledgement of one frame. */
  function NextAcked(f: Frame, base: nat, n: nat): (r: nat)
    requires 0 < n
    ensures base <= r
  {
    if f.U? then base else base + Dist(f.nr, base % n, n)
  }

  /** How far V(A) gets, as an unbounded counter starting at `base`, when all the
      acknowledgements of `ch` are taken in. */
  function AckReach(ch: seq<Frame>, base: nat, n: nat): (r: nat)
    requires 0 < n
    ensures base <= r
    decreases |ch|
  {
    if ch == [] then base
    else AckReach(ch[1..], NextAcked(ch[0], base, n), n)
  }

  predicate Reduced(ch: seq<Frame>, n: nat)
  {
    forall f :: f in ch ==> f.U? || f.nr < n
  }

  predicate AllAck(tx: seq<Frame>, nr: nat)
  {
    forall f :: f in tx ==> f.U? || f.nr == nr
  }

  predicate HasAck(tx: seq<Frame>)
  {
    exists f :: f in tx && !f.U?
  }

  /** Appending frames that acknowledge `top` moves the reach to `top`. */
  lemma {:induction false} AckReachAppend(ch: seq<Frame>, tx: seq<Frame>, base: nat, top: nat, n: nat)
    requires 0 < n && AllAck(tx, top % n)
    requires AckReach(ch, base, n) <= top < base + n
    ensures AckReach(ch + tx, base, n) == if HasAck(tx) then top else AckReach(ch, base, n)
    decreases |ch|
  {
    if ch == [] {
      assert ch + tx == tx;
      AckReachAll(tx, base, top, n);
    } else {
      assert (ch + tx)[1..] == ch[1..] + tx;
      AckReachAppend(ch[1..], tx, NextAcked(ch[0], base, n), top, n);
    }
  }

  lemma {:induction false} AckReachAll(tx: seq<Frame>, base: nat, top: nat, n: nat)
    requires 0 < n && AllAck(tx, top % n) && base <= top < base + n
    ensures AckReach(tx, base, n) == if HasAck(tx) then top else base
    decreases |tx|
  {
    if tx != [] {
      DistExact(top, base, n);
      assert tx[0] in tx;
      assert forall f :: f in tx[1..] ==> f in tx;
      AckReachAll(tx[1..], if tx[0].U? then base else top, top, n);
      assert forall f :: f in tx ==> f == tx[0] || f in tx[1..];
    }
  }
}
