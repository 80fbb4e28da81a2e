/** One-pass parsing of a byte stream into frames, and what one read does to the receive state. */
module Parse {
  import opened LinkSpec
  import opened Codec

  const FRAME_MAX := 16 * 1024
  const TCP_READ_SIZE := 16 * 1024

  predicate BadStart(b: seq<Byte>, longMode: bool)
    requires b != []
  {
    b[0] != STARTFRAME && !IsLong(b, longMode)
  }

  function HeaderLen(b: seq<Byte>): nat
    requires b != []
  {
    if b[0] == STARTFRAME then 2 else 3
  }

  /** The frame length announced by the header, computed in an unsigned short. */
  function FrameLen(b: seq<Byte>): nat
    requires b != [] && HeaderLen(b) <= |b|
  {
    (SizeField(b) + HeaderLen(b)) % 65536
  }

  predicate Complete(b: seq<Byte>, longMode: bool)
    requires b != []
  {
    !BadStart(b, longMode) && HeaderLen(b) < |b| && 0 < FrameLen(b) <= |b|
  }

  /** Frames found, bytes left over, and whether parsing stopped at a bad start byte. */
  datatype Parsed = Parsed(frames: seq<seq<Byte>>, rest: seq<Byte>, bad: bool)

  function ParseAll(s: seq<Byte>, longMode: bool): (p: Parsed)
    ensures |p.rest| <= |s|
    decreases |s|
  {
    if s == [] then Parsed([], [], false)
    else if Complete(s, longMode) then
      var p := ParseAll(s[FrameLen(s)..], longMode);
      p.(frames := [s[..FrameLen(s)]] + p.frames)
    else Parsed([], s, BadStart(s, longMode))
  }

  /** A complete frame stays the same frame whatever follows it. */
  lemma CompleteStays(a: seq<Byte>, b: seq<Byte>, longMode: bool)
    requires a != [] && Complete(a, longMode)
    ensures Complete(a + b, longMode) && FrameLen(a + b) == FrameLen(a)
    ensures (a + b)[..FrameLen(a)] == a[..FrameLen(a)] && (a + b)[FrameLen(a)..] == a[FrameLen(a)..] + b
  {
    assert (a + b)[0] == a[0] && (a + b)[1] == a[1] && (a[0] != STARTFRAME ==> (a + b)[2] == a[2]);
  }

  lemma Prepend(x: seq<Byte>, fs: seq<seq<Byte>>, gs: seq<seq<Byte>>)
    ensures [x] + (fs + gs) == ([x] + fs) + gs && [] + gs == gs
  {
  }

  /** Parsing resumes where it stopped: the frames of a longer stream are those already found,
      then those of the leftover with the new bytes. */
  lemma {:induction false} ParseExtend(a: seq<Byte>, b: seq<Byte>, longMode: bool)
    requires !ParseAll(a, longMode).bad
    ensures var p := ParseAll(a, longMode);
            var q := ParseAll(p.rest + b, longMode);
            ParseAll(a + b, longMode) == q.(frames := p.frames + q.frames)
    decreases |a|
  {
    var q := ParseAll(ParseAll(a, longMode).rest + b, longMode);
    if a != [] && Complete(a, longMode) {
      var n := FrameLen(a);
      CompleteStays(a, b, longMode);
      ParseExtend(a[n..], b, longMode);
      Prepend(a[..n], ParseAll(a[n..], longMode).frames, q.frames);
    } else {
      Prepend(a, [], q.frames);
    }
  }

  /** `done` are the frames of s[..pos]; what remains parses to the rest. */
  predicate CutTo(s: seq<Byte>, pos: nat, done: seq<seq<Byte>>, longMode: bool)
    requires pos <= |s|
  {
    var q := ParseAll(s[pos..], longMode);
    ParseAll(s, longMode) == q.(frames := done + q.frames)
  }

  lemma Shift(done: seq<seq<Byte>>, x: seq<Byte>, fs: seq<seq<Byte>>)
    ensures done + ([x] + fs) == (done + [x]) + fs
  {
  }

  lemma CutStart(s: seq<Byte>, longMode: bool)
    ensures CutTo(s, 0, [], longMode)
  {
    assert s[0..] == s;
    Prepend([], [], ParseAll(s, longMode).frames);
  }

  /** Where no complete frame follows, the parse is known. */
  lemma CutStops(s: seq<Byte>, pos: nat, done: seq<seq<Byte>>, longMode: bool)
    requires pos <= |s| && CutTo(s, pos, done, longMode)
    requires pos < |s| ==> !Complete(s[pos..], longMode)
    ensures ParseAll(s, longMode) == Parsed(done, s[pos..], pos < |s| && BadStart(s[pos..], longMode))
  {
    assert done + [] == done;
  }

  lemma CutOne(s: seq<Byte>, pos: nat, done: seq<seq<Byte>>, longMode: bool)
    requires pos < |s| && CutTo(s, pos, done, longMode) && Complete(s[pos..], longMode)
    ensures var n := FrameLen(s[pos..]); CutTo(s, pos + n, done + [s[pos..][..n]], longMode)
  {
    var b := s[pos..];
    var n := FrameLen(b);
    assert b[n..] == s[pos + n..];
    Shift(done, b[..n], ParseAll(b[n..], longMode).frames);
  }

  // ---- one read ----

  datatype Rx = Rx(pending: seq<Byte>, frames: seq<seq<Byte>>, open: bool)

  /** Incomplete frames that a read moves to the start of the buffer. */
  predicate Kept(rest: seq<Byte>)
    requires rest != []
  {
    rest[0] == STARTFRAME || (|rest| == 2 && rest[1] < 255) || (3 <= |rest| && FrameLen(rest) != 0)
  }

  /** Incomplete frames that it leaves where they are: a long frame of which only the start byte
      has arrived, or one whose announced length is 0 in an unsigned short. */
  predicate Stranded(rest: seq<Byte>)
    requires rest != []
  {
    rest[0] != STARTFRAME && (|rest| == 1 || (3 <= |rest| && FrameLen(rest) == 0))
  }

  /** `pending` is what the buffer start holds after a read of which `rest` was left over; `s`
      is what the buffer held before. */
  predicate Leftover(s: seq<Byte>, rest: seq<Byte>, pending: seq<Byte>)
    requires |rest| <= |s|
  {
    && (pending == rest || pending == s[..|rest|])
    && (rest != [] && Kept(rest) ==> pending == rest)
    && (rest != [] && Stranded(rest) ==> pending == s[..|rest|])
  }

  /** One call of the read routine; an empty chunk is the end of the connection. */
  predicate Reads(st: Rx, chunk: seq<Byte>, st': Rx, longMode: bool)
  {
    var s := st.pending + chunk;
    var p := ParseAll(s, longMode);
    if chunk == [] then !st'.open && st'.frames == st.frames
    else if |s| < APCI_SZ then st' == st.(pending := s)
    else if p.bad || |p.rest| >= FRAME_MAX then !st'.open && st'.frames == st.frames + p.frames
    else st'.open && st'.frames == st.frames + p.frames && Leftover(s, p.rest, st'.pending)
  }
}
