/** The whole path of a frame: built as bytes, written to a stream, read back in pieces, cut out
    of the receive buffer and decoded. It is the FIFO channel that `Duplex` assumes. */
module Wire {
  import opened LinkSpec
  import opened LinkProps
  import opened Codec
  import opened Parse
  import opened Streams
  import opened Channel
  import opened Duplex

  /** Payloads that both the size field and the receive buffer can hold. */
  predicate Carriable(lg: nat, longMode: bool)
  {
    if UsesLong(lg, longMode) then lg + 7 <= FRAME_MAX else lg + 4 < 256
  }

  predicate Transportable(f: Frame, longMode: bool)
  {
    Fits(f, longMode) && (f.I? ==> Carriable(|f.asdu|, longMode))
  }

  function EncodeAll(fs: seq<Frame>, longMode: bool): (r: seq<seq<Byte>>)
    ensures |r| == |fs|
  {
    seq(|fs|, i requires 0 <= i < |fs| => Encode(fs[i], longMode))
  }

  lemma EncodedWellFormed(f: Frame, longMode: bool)
    requires Transportable(f, longMode)
    ensures WellFormed(Encode(f, longMode), longMode)
  {
    if f.I? {
      var h, b := Header(|f.asdu|, longMode), Encode(f, longMode);
      assert b[0] == h[0] && b[1] == h[1] && (UsesLong(|f.asdu|, longMode) ==> b[2] == h[2]);
    }
  }

  /** The wire is transparent: however the bytes of the frames `fs` arrive in clean reads, the
      frames cut out so far decode to the first of `fs`, and to all of them at the end. */
  lemma WireTransparent(fs: seq<Frame>, cs: seq<seq<Byte>>, st: Rx, longMode: bool)
    requires forall f :: f in fs ==> Transportable(f, longMode)
    requires Runs(cs, st, longMode) && (forall c :: c in cs ==> c != [])
    requires Flatten(cs) <= Flatten(EncodeAll(fs, longMode)) && CleanReads(cs, longMode)
    ensures st.open && |st.frames| <= |fs|
    ensures forall i :: 0 <= i < |st.frames| ==> st.frames[i] != [] && Decode(st.frames[i], longMode) == Got(fs[i])
    ensures Flatten(cs) == Flatten(EncodeAll(fs, longMode)) ==> |st.frames| == |fs| && st.pending == []
  {
    var ws := EncodeAll(fs, longMode);
    forall w | w in ws ensures WellFormed(w, longMode) {
      var i :| 0 <= i < |ws| && ws[i] == w;
      assert fs[i] in fs;
      EncodedWellFormed(fs[i], longMode);
    }
    ChunkingIrrelevant(cs, st, ws, longMode);
    forall i | 0 <= i < |st.frames| ensures st.frames[i] != [] && Decode(st.frames[i], longMode) == Got(fs[i]) {
      assert st.frames[i] == ws[i] && fs[i] in fs;
      RoundTrip(fs[i], longMode);
    }
  }

  lemma {:induction false} CarriedTransportable(
    ch: seq<Frame>, from: nat, upto: nat, accepted: seq<Asdu>, n: nat, longMode: bool)
    requires 0 < n <= 32768 && upto <= |accepted| && Carries(ch, from, upto, accepted, n) && Reduced(ch, n)
    requires forall p :: p in accepted ==> Carriable(|p|, longMode)
    ensures forall f :: f in ch ==> Transportable(f, longMode)
  {
    if ch != [] {
      var f := ch[0];
      assert f in ch;
      if f.I? { assert accepted[from] in accepted; }
      assert forall g :: g in ch[1..] ==> g in ch;
      CarriedTransportable(ch[1..], if f.I? then from + 1 else from, upto, accepted, n, longMode);
      assert forall g :: g in ch ==> g == f || g in ch[1..];
    }
  }

  /** Everything two coupled links ever have in flight is transportable, provided the users keep
      to payloads that the builder can encode. */
  lemma InFlightTransportable(cfgA: Config, cfgB: Config, start: int, run: seq<Step>, s: System, longMode: bool)
    requires Compatible(cfgA, cfgB) && SysReaches(cfgA, cfgB, start, run, s)
    requires forall p :: p in s.a.log.accepted ==> Carriable(|p|, longMode)
    requires forall p :: p in s.b.log.accepted ==> Carriable(|p|, longMode)
    ensures forall f :: f in s.ab + s.ba ==> Transportable(f, longMode)
  {
    ReachableSysInv(cfgA, cfgB, start, run, s);
    CarriedTransportable(s.ab, TotalTaken(s.b), TotalSent(s.a), s.a.log.accepted, cfgA.n, longMode);
    CarriedTransportable(s.ba, TotalTaken(s.a), TotalSent(s.b), s.b.log.accepted, cfgA.n, longMode);
  }
}
