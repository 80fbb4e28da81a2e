/** The receive buffer of a link: bytes are read behind what is pending, frames are cut out in
    place, and what is left is moved to the start. All counters are unsigned shorts. */
module RxBuffers {
  import opened LinkSpec
  import opened Codec
  import opened Parse

  type U16 = x: int | 0 <= x < 65536

  class RxBuffer {
    const longMode: bool
    /** One cell more than allocated: when only a start byte has arrived, the source looks at the
        byte behind it. */
    var rframe: array<Byte>
    var ralloc: U16
    var rsz: U16
    var rcnt: U16
    var rwait: U16
    var rpos: U16
    var open: bool
    /** Complete frames handed to the protocol. */
    ghost var frames: seq<seq<Byte>>

    ghost predicate Sized()
      reads this
    {
      && rframe.Length == ralloc as int + 1
      && ralloc in {0, TCP_READ_SIZE, 2 * TCP_READ_SIZE}
      && rsz <= ralloc
    }

    ghost predicate Valid()
      reads this
    {
      Sized() && rwait == 0 && (open ==> rsz < FRAME_MAX) && (ralloc == 0 ==> rsz == 0)
    }

    ghost function State(): Rx
      requires Sized()
      reads this, rframe
    {
      Rx(rframe[..rsz], frames, open)
    }

    constructor (longMode: bool)
      ensures Valid() && State() == Rx([], [], true) && this.longMode == longMode && fresh(rframe)
    {
      this.longMode := longMode;
      rframe := new Byte[1](_ => 0);
      ralloc, rsz, rcnt, rwait, rpos := 0, 0, 0, 0, 0;
      open, frames := true, [];
    }

    /** Makes room for one more read. */
    method Reserve()
      requires Valid() && open
      modifies this`rframe, this`ralloc
      ensures Valid() && rsz + TCP_READ_SIZE <= ralloc
      ensures rframe[..rsz] == old(rframe[..rsz]) && (rframe == old(rframe) || fresh(rframe))
    {
      if rsz + TCP_READ_SIZE > ralloc {
        var newsize: U16 := ralloc + TCP_READ_SIZE;
        var old_ := rframe;
        rframe := new Byte[newsize + 1](i requires 0 <= i reads old_ => if i < old_.Length then old_[i] else 0);
        ralloc := newsize;
      }
    }

    /** The connection is gone and the buffer is freed. */
    method Disconnect()
      modifies this`rframe, this`ralloc, this`rsz, this`rwait, this`open
      ensures Valid() && !open && fresh(rframe)
    {
      rframe := new Byte[1](_ => 0);
      ralloc, rsz, rwait := 0, 0, 0;
      open := false;
    }

    /** The unread part of the buffer. */
    ghost function Unread(): seq<Byte>
      requires Sized() && rpos + rcnt <= ralloc
      reads this, rframe
    {
      rframe[rpos..rpos + rcnt]
    }

    /** Notes in `rwait` the announced length of the frame, as far as its header has arrived. */
    method AwaitFrame() returns (idxctrl: nat)
      requires Sized() && rwait == 0 && 0 < rcnt && rpos + rcnt <= ralloc
      requires !BadStart(Unread(), longMode)
      modifies this`rwait
      ensures idxctrl == HeaderLen(Unread())
      ensures idxctrl <= rcnt ==> rwait == FrameLen(Unread())
      ensures rcnt < idxctrl && Kept(Unread()) ==> rwait > 0
      ensures rcnt < idxctrl && Stranded(Unread()) ==> rwait == 0
    {
      ghost var b := Unread();
      assert b[0] == rframe[rpos];
      if rframe[rpos] == STARTFRAME {
        idxctrl := 2;
        assert 2 <= rcnt ==> b[1] == rframe[rpos + 1];
        rwait := rframe[rpos + 1] as int + idxctrl;
      } else {
        idxctrl := 3;
        if rcnt >= 2 {
          assert b[1] == rframe[rpos + 1] && (3 <= rcnt ==> b[2] == rframe[rpos + 2]);
          rwait := rframe[rpos + 1] as int * 256;
          rwait := (rwait + rframe[rpos + 2] + idxctrl) % 65536;
        }
      }
    }

    /** Looks at the unread bytes: -1 for a bad start, the number of bytes of a frame that was
        handed on, or 0 if no frame is complete. */
    method SearchFrame() returns (ret: int)
      requires Sized() && rwait == 0 && 0 < rcnt && rpos + rcnt <= ralloc
      modifies this`rcnt, this`rwait, this`frames
      ensures var b := old(Unread());
        if BadStart(b, longMode) then ret == -1 && frames == old(frames) && rcnt == old(rcnt)
        else if Complete(b, longMode) then
          0 < ret <= |b| && ret == FrameLen(b) && frames == old(frames) + [b[..ret]] && rwait == 0
        else ret == 0 && frames == old(frames) && rcnt == old(rcnt)
             && (Kept(b) ==> rwait > 0) && (Stranded(b) ==> rwait == 0)
    {
      ghost var b := Unread();
      assert b[0] == rframe[rpos];
      if rframe[rpos] != STARTFRAME && (rframe[rpos] != STARTFRAMELONG || !longMode) {
        return -1;
      }
      var idxctrl := AwaitFrame();
      hide FrameLen;
      if rwait != 0 && rcnt > idxctrl && rcnt >= rwait {
        ret := rwait;
        assert rframe[rpos..rpos + rwait] == b[..rwait];
        rcnt := rwait;
        frames := frames + [rframe[rpos..rpos + rcnt]];
        rcnt, rwait := 0, 0;
        return ret;
      }
      return 0;
    }

    /** Moves the incomplete frame to the start of the buffer. */
    method Compact()
      requires Sized() && rpos + rcnt <= ralloc && rcnt < FRAME_MAX
      modifies this`rsz, this`rcnt, this`rwait, this`rpos, rframe
      ensures Sized() && rsz == old(rcnt) && rwait == 0 && rframe[..rsz] == old(Unread())
    {
      var tmp := rframe[rpos..rpos + rcnt];
      forall i | 0 <= i < |tmp| {
        rframe[i] := tmp[i];
      }
      rsz, rpos, rcnt, rwait := rcnt, 0, 0, 0;
      assert rframe[..rsz] == tmp;
    }

    /** No further frame: gives up on a bad start or too long a frame, or keeps what is left. */
    method KeepRest(bad: bool) returns (ret: int)
      requires Sized() && open && 0 < rcnt == rsz && rpos + rcnt <= ralloc
      modifies this`rframe, this`ralloc, this`rsz, this`rcnt, this`rwait, this`rpos, this`open, rframe
      ensures Valid() && (rframe == old(rframe) || fresh(rframe))
      ensures open <==> !bad && old(rsz) < FRAME_MAX
      ensures open ==> rsz == old(rsz)
                       && rframe[..rsz] == if old(rwait) > 0 then old(Unread()) else old(rframe[..rsz])
      ensures ret == if open then 0 else -1
    {
      if bad || rsz >= FRAME_MAX {
        Disconnect();
        return -1;
      }
      if rwait > 0 && rcnt > 0 {
        Compact();
      }
      return 0;
    }

    /** Cuts all complete frames out of the first `rsz` bytes and keeps what is left. */
    method CutFrames() returns (ret: int)
      requires Sized() && open && rwait == 0 && APCI_SZ <= rsz
      modifies this`rframe, this`ralloc, this`rsz, this`rcnt, this`rwait, this`rpos, this`open, this`frames, rframe
      ensures Valid() && (rframe == old(rframe) || fresh(rframe))
      ensures var p := ParseAll(old(rframe[..rsz]), longMode);
              frames == old(frames) + p.frames
              && (open <==> !p.bad && |p.rest| < FRAME_MAX)
              && (open ==> Leftover(old(rframe[..rsz]), p.rest, rframe[..rsz]))
      ensures ret == if open then 0 else -1
    {
      hide ParseAll, CutTo, FrameLen, HeaderLen, SizeField, Kept, Stranded, BadStart, Leftover;
      ghost var s := rframe[..rsz];
      ghost var done: seq<seq<Byte>> := [];
      var pos := 0;
      CutStart(s, longMode);
      while rsz > 0
        invariant Sized() && open && rwait == 0 && 0 <= pos && pos + rsz == |s| <= ralloc
        invariant rframe == old(rframe) && rframe[..|s|] == s
        invariant frames == old(frames) + done && CutTo(s, pos, done, longMode)
        decreases rsz
      {
        rcnt, rpos := rsz, pos;
        ghost var b := s[pos..];
        assert Unread() == b;
        ret := SearchFrame();
        if ret <= 0 {
          ret := StopCut(ret < 0, s, done);
          return;
        }
        CutOne(s, pos, done, longMode);
        done := done + [b[..ret]];
        pos, rsz := pos + ret, rsz - ret;
        rcnt, rwait := 0, 0;
      }
      NothingLeft(s, done);
      return 0;
    }

    lemma NothingLeft(s: seq<Byte>, done: seq<seq<Byte>>)
      requires CutTo(s, |s|, done, longMode)
      ensures ParseAll(s, longMode) == Parsed(done, [], false) && Leftover(s, [], [])
    {
      CutStops(s, |s|, done, longMode);
    }

    /** The end of the loop: what is left of the bytes `s` does not start with a complete frame. */
    method StopCut(bad: bool, ghost s: seq<Byte>, ghost done: seq<seq<Byte>>) returns (ret: int)
      requires Sized() && open && 0 < rcnt == rsz && rpos + rcnt == |s| <= ralloc && rframe[..|s|] == s
      requires CutTo(s, rpos, done, longMode) && bad == BadStart(s[rpos..], longMode) && !Complete(s[rpos..], longMode)
      requires !bad ==> (Kept(s[rpos..]) ==> rwait > 0) && (Stranded(s[rpos..]) ==> rwait == 0)
      modifies this`rframe, this`ralloc, this`rsz, this`rcnt, this`rwait, this`rpos, this`open, rframe
      ensures Valid() && (rframe == old(rframe) || fresh(rframe))
      ensures var p := ParseAll(s, longMode);
              p.frames == done && (open <==> !p.bad && |p.rest| < FRAME_MAX)
              && (open ==> Leftover(s, p.rest, rframe[..rsz]))
      ensures ret == if open then 0 else -1
    {
      hide ParseAll, CutTo, Complete, BadStart, Kept, Stranded;
      ghost var rest := s[rpos..];
      CutStops(s, rpos, done, longMode);
      assert Unread() == rest && rframe[..rsz] == s[..rsz];
      ret := KeepRest(bad);
    }

    /** Puts the bytes behind those that are there. */
    method Fill(chunk: seq<Byte>)
      requires Sized() && rsz + |chunk| <= ralloc
      modifies this`rsz, rframe
      ensures Sized() && rframe[..rsz] == old(rframe[..rsz]) + chunk
    {
      forall i | 0 <= i < |chunk| {
        rframe[rsz + i] := chunk[i];
      }
      rsz := rsz + |chunk|;
    }

    /** One read of at most TCP_READ_SIZE bytes; no bytes at all mean the end of the connection. */
    method ReadSocket(chunk: seq<Byte>) returns (ret: int)
      requires Valid() && open && |chunk| <= TCP_READ_SIZE
      modifies this, rframe
      ensures Valid() && (rframe == old(rframe) || fresh(rframe))
      ensures Reads(old(State()), chunk, State(), longMode)
      ensures ret == if open then 0 else -1
    {
      hide ParseAll, Leftover;
      Reserve();
      if chunk == [] {
        Disconnect();
        return -1;
      }
      Fill(chunk);
      if rsz < APCI_SZ {
        return 0;
      }
      ret := CutFrames();
    }
  }
}
