/** Reassembly does not depend on how the byte stream is cut into reads. */
module Streams {
  import opened LinkSpec
  import opened Codec
  import opened Parse

  function Flatten(cs: seq<seq<Byte>>): seq<Byte>
  {
    if cs == [] then [] else cs[0] + Flatten(cs[1..])
  }

  lemma {:induction false} FlattenSnoc(cs: seq<seq<Byte>>, c: seq<Byte>)
    ensures Flatten(cs + [c]) == Flatten(cs) + c
  {
    if cs == [] {
      assert cs + [c] == [c] && Flatten([c]) == c + Flatten([]);
    } else {
      assert (cs + [c])[1..] == cs[1..] + [c];
      FlattenSnoc(cs[1..], c);
      assert cs[0] + (Flatten(cs[1..]) + c) == cs[0] + Flatten(cs[1..]) + c;
    }
  }

  /** A frame whose size field tells its length, with a full control field, of at most FRAME_MAX bytes. */
  predicate WellFormed(w: seq<Byte>, longMode: bool)
  {
    && APCI_SZ <= |w| <= FRAME_MAX
    && !BadStart(w, longMode)
    && HeaderLen(w) + 4 <= |w| == SizeField(w) + HeaderLen(w)
  }

  /** `s` is the beginning of a stream of the frames `ws`. */
  predicate Begins(s: seq<Byte>, ws: seq<seq<Byte>>, longMode: bool)
  {
    (forall w :: w in ws ==> WellFormed(w, longMode)) && s <= Flatten(ws)
  }

  /** A well-formed frame at the head of a stream is found as soon as all of it is there, and
      not before. */
  lemma HeadFrame(s: seq<Byte>, w: seq<Byte>, tail: seq<Byte>, longMode: bool)
    requires WellFormed(w, longMode) && s != [] && s <= w + tail
    ensures !BadStart(s, longMode)
    ensures |w| <= |s| ==> Complete(s, longMode) && FrameLen(s) == |w| && s[..|w|] == w && s[|w|..] <= tail
    ensures |s| < |w| ==> !Complete(s, longMode)
  {
    assert s[0] == w[0];
    assert 2 <= |s| ==> s[1] == w[1];
    assert 3 <= |s| ==> s[2] == w[2];
    if |w| <= |s| {
      assert s[|w|..] == (w + tail)[|w|..|s|];
    }
  }

  /** Frames and leftover together are the stream, for any bytes. */
  lemma {:induction false} ParsePartition(s: seq<Byte>, longMode: bool)
    ensures var p := ParseAll(s, longMode); s == Flatten(p.frames) + p.rest
    decreases |s|
  {
    if s != [] && Complete(s, longMode) {
      var n := FrameLen(s);
      var a, b := s[..n], s[n..];
      assert s == a + b;
      var q := ParseAll(b, longMode);
      ParsePartition(b, longMode);
      FlattenCons(a, q.frames);
      hide Flatten;
      Regroup3(a, Flatten(q.frames), q.rest);
    } else {
      assert s == [] + s;
    }
  }

  lemma FlattenCons(w: seq<Byte>, ws: seq<seq<Byte>>)
    ensures Flatten([w] + ws) == w + Flatten(ws)
  {
    assert ([w] + ws)[1..] == ws;
  }

  lemma Regroup3(a: seq<Byte>, b: seq<Byte>, c: seq<Byte>)
    ensures a + (b + c) == a + b + c
  {
  }

  /** The one-pass parse of a stream of well-formed frames finds these frames, in order, and
      stops in the first that is incomplete. */
  lemma {:induction false} ParseStream(s: seq<Byte>, ws: seq<seq<Byte>>, longMode: bool)
    requires Begins(s, ws, longMode)
    ensures var p := ParseAll(s, longMode); p.frames <= ws && !p.bad && |p.rest| < FRAME_MAX
    decreases |ws|
  {
    if s != [] {
      var w := ws[0];
      assert w in ws;
      HeadFrame(s, w, Flatten(ws[1..]), longMode);
      if |w| <= |s| {
        hide FrameLen, HeaderLen, SizeField, WellFormed, Complete;
        ParseStream(s[|w|..], ws[1..], longMode);
        assert [w] + ParseAll(s[|w|..], longMode).frames <= [w] + ws[1..];
      }
    }
  }

  /** All frames are found once all bytes are there. */
  lemma {:induction false} ParseWhole(ws: seq<seq<Byte>>, longMode: bool)
    requires forall w :: w in ws ==> WellFormed(w, longMode)
    ensures ParseAll(Flatten(ws), longMode) == Parsed(ws, [], false)
  {
    if ws != [] {
      var w, tail := ws[0], Flatten(ws[1..]);
      assert w in ws;
      HeadFrame(w + tail, w, tail, longMode);
      assert (w + tail)[|w|..] == tail;
      ParseWhole(ws[1..], longMode);
      assert [w] + ws[1..] == ws;
    }
  }

  // ---- any way of cutting the stream ----

  /** A read is clean unless the batch it completes ends one byte into a long frame and starts
      with a short one. A caller can tell from the bytes read so far. */
  predicate Clean(s: seq<Byte>, longMode: bool)
  {
    |s| < APCI_SZ || ParseAll(s, longMode).rest != [STARTFRAMELONG] || s[0] == STARTFRAMELONG
  }

  ghost predicate CleanReads(cs: seq<seq<Byte>>, longMode: bool)
  {
    forall m :: 0 <= m < |cs| ==> Clean(ParseAll(Flatten(cs[..m]), longMode).rest + cs[m], longMode)
  }

  /** The state that the reads `cs` lead to. */
  ghost predicate Runs(cs: seq<seq<Byte>>, st: Rx, longMode: bool)
  {
    if cs == [] then st == Rx([], [], true)
    else
      var m := |cs| - 1;
      exists p :: Runs(cs[..m], p, longMode) && p.open && Reads(p, cs[m], st, longMode)
  }

  /** What the receive state should be after the bytes `s`: those frames, those bytes pending. */
  predicate Agrees(st: Rx, s: seq<Byte>, longMode: bool)
  {
    var p := ParseAll(s, longMode);
    st.open && st.frames == p.frames && st.pending == p.rest
  }

  lemma BeginsShorter(s: seq<Byte>, chunk: seq<Byte>, ws: seq<seq<Byte>>, longMode: bool)
    requires Begins(s + chunk, ws, longMode)
    ensures Begins(s, ws, longMode)
  {
    assert s == (s + chunk)[..|s|];
  }

  lemma BeginsLater(ws: seq<seq<Byte>>, done: seq<seq<Byte>>, t: seq<Byte>, longMode: bool)
    requires done <= ws && Begins(Flatten(done) + t, ws, longMode)
    ensures Begins(t, ws[|done|..], longMode)
  {
    hide WellFormed;
    var k := |done|;
    assert ws == done + ws[k..];
    FlattenSplit(done, ws[k..]);
    DropPrefix(Flatten(done), t, Flatten(ws[k..]));
  }

  /** What is left over begins the stream of the remaining frames. */
  lemma RestBegins(s: seq<Byte>, chunk: seq<Byte>, ws: seq<seq<Byte>>, longMode: bool)
    requires Begins(s + chunk, ws, longMode)
    ensures Begins(s, ws, longMode)
    ensures var p := ParseAll(s, longMode); p.frames <= ws && Begins(p.rest + chunk, ws[|p.frames|..], longMode)
  {
    BeginsShorter(s, chunk, ws, longMode);
    ParseStream(s, ws, longMode);
    ParsePartition(s, longMode);
    var p := ParseAll(s, longMode);
    Regroup3(Flatten(p.frames), p.rest, chunk);
    BeginsLater(ws, p.frames, p.rest + chunk, longMode);
  }

  lemma DropPrefix(a: seq<Byte>, b: seq<Byte>, c: seq<Byte>)
    requires a + b <= a + c
    ensures b <= c
  {
    assert b == (a + b)[|a|..] && c == (a + c)[|a|..];
  }

  lemma {:induction false} FlattenSplit(a: seq<seq<Byte>>, b: seq<seq<Byte>>)
    ensures Flatten(a + b) == Flatten(a) + Flatten(b)
  {
    if a == [] {
      assert a + b == b;
    } else {
      assert (a + b)[1..] == a[1..] + b;
      FlattenSplit(a[1..], b);
      assert a[0] + (Flatten(a[1..]) + Flatten(b)) == a[0] + Flatten(a[1..]) + Flatten(b);
    }
  }

  /** In a stream of well-formed frames only a lone long start byte is not kept. */
  lemma StreamRest(s: seq<Byte>, ws: seq<seq<Byte>>, longMode: bool)
    requires Begins(s, ws, longMode)
    ensures var rest := ParseAll(s, longMode).rest;
            rest != [] ==> if rest == [STARTFRAMELONG] then Stranded(rest) else Kept(rest)
    decreases |ws|
  {
    if s != [] {
      var w := ws[0];
      assert w in ws;
      HeadFrame(s, w, Flatten(ws[1..]), longMode);
      if |w| <= |s| {
        StreamRest(s[|w|..], ws[1..], longMode);
      } else {
        assert 2 <= |s| ==> s[1] == w[1];
        assert 3 <= |s| ==> s[2] == w[2];
      }
    }
  }

  /** Too few bytes for any frame are left alone by the read, and rightly so. */
  lemma ShortBegin(s: seq<Byte>, ws: seq<seq<Byte>>, longMode: bool)
    requires Begins(s, ws, longMode) && |s| < APCI_SZ
    ensures ParseAll(s, longMode) == Parsed([], s, false)
  {
    if s != [] {
      assert ws[0] in ws;
      HeadFrame(s, ws[0], Flatten(ws[1..]), longMode);
    }
  }

  /** One read, exactly: it keeps the receive state in step with the one-pass parse if and only
      if it is clean. */
  lemma ReadStep(st: Rx, sofar: seq<Byte>, chunk: seq<Byte>, st': Rx, ws: seq<seq<Byte>>, longMode: bool)
    requires Begins(sofar + chunk, ws, longMode) && chunk != []
    requires Agrees(st, sofar, longMode) && Reads(st, chunk, st', longMode)
    ensures Agrees(st', sofar + chunk, longMode) <==> Clean(ParseAll(sofar, longMode).rest + chunk, longMode)
  {
    var s := st.pending + chunk;
    RestBegins(sofar, chunk, ws, longMode);
    var ws' := ws[|st.frames|..];
    ParseStream(sofar, ws, longMode);
    ParseExtend(sofar, chunk, longMode);
    if |s| < APCI_SZ {
      ShortBegin(s, ws', longMode);
      assert st.frames + [] == st.frames;
    } else {
      ParseStream(s, ws', longMode);
      StreamRest(s, ws', longMode);
      LeftoverExactly(s, ParseAll(s, longMode).rest, st'.pending);
    }
  }

  lemma LeftoverExactly(s: seq<Byte>, rest: seq<Byte>, pending: seq<Byte>)
    requires s != [] && |rest| <= |s| && Leftover(s, rest, pending)
    requires rest != [] ==> if rest == [STARTFRAMELONG] then Stranded(rest) else Kept(rest)
    ensures pending == rest <==> rest != [STARTFRAMELONG] || s[0] == STARTFRAMELONG
  {
  }

  lemma PrefixOfReads(cs: seq<seq<Byte>>, m: nat)
    requires |cs| == m + 1
    ensures Flatten(cs) == Flatten(cs[..m]) + cs[m]
  {
    assert cs == cs[..m] + [cs[m]];
    FlattenSnoc(cs[..m], cs[m]);
  }

  lemma CleanEarlier(cs: seq<seq<Byte>>, m: nat, longMode: bool)
    requires |cs| == m + 1 && CleanReads(cs, longMode)
    ensures CleanReads(cs[..m], longMode) && Clean(ParseAll(Flatten(cs[..m]), longMode).rest + cs[m], longMode)
  {
    hide Clean;
    forall i | 0 <= i < m ensures cs[..m][..i] == cs[..i] {
    }
  }

  lemma {:induction false} ReadsAgree(cs: seq<seq<Byte>>, st: Rx, ws: seq<seq<Byte>>, longMode: bool)
    requires Runs(cs, st, longMode) && (forall c :: c in cs ==> c != [])
    requires Begins(Flatten(cs), ws, longMode) && CleanReads(cs, longMode)
    ensures Agrees(st, Flatten(cs), longMode)
    decreases |cs|
  {
    if cs != [] {
      var m := |cs| - 1;
      var p :| Runs(cs[..m], p, longMode) && p.open && Reads(p, cs[m], st, longMode);
      hide ParseAll, Reads, Clean, Begins, Agrees, CleanReads, Runs, Flatten;
      PrefixOfReads(cs, m);
      BeginsShorter(Flatten(cs[..m]), cs[m], ws, longMode);
      CleanEarlier(cs, m, longMode);
      assert cs[m] in cs && forall c :: c in cs[..m] ==> c in cs;
      ReadsAgree(cs[..m], p, ws, longMode);
      ReadStep(p, Flatten(cs[..m]), cs[m], st, ws, longMode);
    }
  }

  /** Any way of cutting the stream into clean reads gives the frames and the leftover of the
      one-pass parse; when the stream is complete, these are the frames that were sent. */
  lemma ChunkingIrrelevant(cs: seq<seq<Byte>>, st: Rx, ws: seq<seq<Byte>>, longMode: bool)
    requires Runs(cs, st, longMode) && (forall c :: c in cs ==> c != [])
    requires Begins(Flatten(cs), ws, longMode) && CleanReads(cs, longMode)
    ensures Agrees(st, Flatten(cs), longMode) && st.frames <= ws
    ensures Flatten(cs) == Flatten(ws) ==> st == Rx([], ws, true)
  {
    ReadsAgree(cs, st, ws, longMode);
    ParseStream(Flatten(cs), ws, longMode);
    ParseWhole(ws, longMode);
  }

  /** In short mode every read is clean. */
  lemma ShortModeClean(s: seq<Byte>, ws: seq<seq<Byte>>)
    requires Begins(s, ws, false)
    ensures Clean(s, false)
    decreases |ws|
  {
    StreamRest(s, ws, false);
    ParseStream(s, ws, false);
    RestNotBad(s, false);
  }

  lemma {:induction false} RestNotBad(s: seq<Byte>, longMode: bool)
    ensures var p := ParseAll(s, longMode); !p.bad && p.rest != [] ==> !BadStart(p.rest, longMode)
    decreases |s|
  {
    if s != [] && Complete(s, longMode) {
      RestNotBad(s[FrameLen(s)..], longMode);
    }
  }

  lemma ShortModeCleanReads(cs: seq<seq<Byte>>, ws: seq<seq<Byte>>)
    requires Begins(Flatten(cs), ws, false)
    ensures CleanReads(cs, false)
  {
    forall m | 0 <= m < |cs|
      ensures Clean(ParseAll(Flatten(cs[..m]), false).rest + cs[m], false)
    {
      assert cs == cs[..m + 1] + cs[m + 1..] && cs[..m + 1][..m] == cs[..m];
      FlattenSplit(cs[..m + 1], cs[m + 1..]);
      PrefixOfReads(cs[..m + 1], m);
      BeginsShorter(Flatten(cs[..m]) + cs[m], Flatten(cs[m + 1..]), ws, false);
      RestBegins(Flatten(cs[..m]), cs[m], ws, false);
      ShortModeClean(ParseAll(Flatten(cs[..m]), false).rest + cs[m], ws[|ParseAll(Flatten(cs[..m]), false).frames|..]);
    }
  }

  lemma StrandedParse(u: seq<Byte>)
    requires u == BytesU(TestFrAct)
    ensures ParseAll(u + [STARTFRAMELONG], true) == Parsed([u], [STARTFRAMELONG], false)
  {
    var s, rest := u + [STARTFRAMELONG], [STARTFRAMELONG];
    assert FrameLen(s) == 6 && s[..6] == u && s[6..] == rest;
    assert ParseAll(rest, true) == Parsed([], rest, false);
  }

  /** In long mode a read can strand a start byte: after a test frame and the first byte of a
      long frame, the buffer starts with the old 0x68. */
  lemma StrandedStartByte(st: Rx)
    requires Reads(Rx([], [], true), BytesU(TestFrAct) + [STARTFRAMELONG], st, true)
    ensures ParseAll(BytesU(TestFrAct) + [STARTFRAMELONG], true) == Parsed([BytesU(TestFrAct)], [STARTFRAMELONG], false)
    ensures st.open && st.pending == [STARTFRAME]
  {
    var s := BytesU(TestFrAct) + [STARTFRAMELONG];
    StrandedParse(BytesU(TestFrAct));
    assert [] + s == s && s[0] == STARTFRAME;
    hide ParseAll, BytesU;
  }

  /** Bytes that are no frame end the connection: a read hands on the frames in front of them, and no
      more, and closes. */
  lemma GarbageCloses(st: Rx, chunk: seq<Byte>, st': Rx, ws: seq<seq<Byte>>, g: seq<Byte>, longMode: bool)
    requires Reads(st, chunk, st', longMode) && chunk != [] && APCI_SZ <= |st.pending + chunk|
    requires st.pending + chunk == Flatten(ws) + g && (forall w :: w in ws ==> WellFormed(w, longMode))
    requires g != [] && g[0] != 0x68 && !(g[0] == 0x69 && longMode)
    ensures !st'.open && st'.frames == st.frames + ws
  {
    ParseWhole(ws, longMode);
    ParseExtend(Flatten(ws), g, longMode);
    assert [] + g == g && ws + [] == ws;
  }

  /** An empty frame, of size 0, is cut out like any other as soon as something follows it, and
      nothing of what follows is lost. */
  lemma EmptyFrameSkipped(rest: seq<Byte>, longMode: bool)
    requires rest != []
    ensures var e, p := [STARTFRAME, 0], ParseAll(rest, longMode);
            ParseAll(e + rest, longMode) == p.(frames := [e] + p.frames) && Decode(e, longMode).Dropped?
  {
    var s := [STARTFRAME, 0] + rest;
    assert FrameLen(s) == 2 && s[..2] == [STARTFRAME, 0] && s[2..] == rest;
  }
}
