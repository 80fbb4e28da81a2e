/** Frames as bytes: the builders write into a caller's buffer in place, the decoder reads one
    complete frame of the receive buffer. */
module Codec {
  import opened LinkSpec

  const STARTFRAME: Byte := 0x68
  const STARTFRAMELONG: Byte := 0x69
  const ACTIVATELONGLENGTH := 250
  const APCI_SZ := 6

  function UCode(t: UType): Byte
  {
    match t
    case TestFrAct => 0x43
    case TestFrCon => 0x83
    case StopDtAct => 0x13
    case StopDtCon => 0x23
    case StartDtAct => 0x07
    case StartDtCon => 0x0B
  }

  /** x << 1 in an unsigned short. */
  function Shl1(x: nat): (r: nat)
    ensures r < 65536 && r % 2 == 0
  {
    (2 * x) % 65536
  }

  function Lo(x: nat): Byte { x % 256 }

  function Hi(x: nat): Byte
    requires x < 65536
  {
    x / 256
  }

  // ---- what the builders write ----

  /** The long form is used from 250 bytes on, if it is enabled. */
  predicate UsesLong(lg: nat, longMode: bool) { lg >= ACTIVATELONGLENGTH && longMode }

  function Header(lg: nat, longMode: bool): seq<Byte>
  {
    if UsesLong(lg, longMode) then [STARTFRAMELONG, Lo((lg + 4) / 256), Lo(lg + 4)]
    else [STARTFRAME, Lo(lg + 4)]
  }

  function NumberFields(ns: nat, nr: nat): seq<Byte>
  {
    [Lo(Shl1(ns)), Hi(Shl1(ns)), Lo(Shl1(nr)), Hi(Shl1(nr))]
  }

  function BytesU(t: UType): seq<Byte> { [STARTFRAME, 4, UCode(t), 0, 0, 0] }

  function BytesS(ext: Byte, nr: nat): seq<Byte>
  {
    [STARTFRAME, 4, 1, ext, Lo(Shl1(nr)), Hi(Shl1(nr))]
  }

  function BytesI(ns: nat, nr: nat, asdu: Asdu, longMode: bool): seq<Byte>
  {
    Header(|asdu|, longMode) + NumberFields(ns, nr) + asdu
  }

  function Encode(f: Frame, longMode: bool): seq<Byte>
  {
    match f
    case U(t) => BytesU(t)
    case S(ext, nr) => BytesS(ext, nr)
    case I(ns, nr, asdu) => BytesI(ns, nr, asdu, longMode)
  }

  // ---- the builders ----

  method SetFrameU(frame: array<Byte>, t: UType)
    requires APCI_SZ <= frame.Length
    modifies frame
    ensures frame[..APCI_SZ] == BytesU(t) && frame[APCI_SZ..] == old(frame[APCI_SZ..])
  {
    frame[0], frame[1] := STARTFRAME, 4;
    frame[2], frame[3], frame[4], frame[5] := UCode(t), 0, 0, 0;
  }

  method SetFrameS(frame: array<Byte>, ext: Byte, nr: nat)
    requires APCI_SZ <= frame.Length
    modifies frame
    ensures frame[..APCI_SZ] == BytesS(ext, nr) && frame[APCI_SZ..] == old(frame[APCI_SZ..])
  {
    var shifted := Shl1(nr);
    frame[0], frame[1] := STARTFRAME, 4;
    frame[2], frame[3] := 1, ext;
    frame[4], frame[5] := Lo(shifted), Hi(shifted);
  }

  /** The copy of the user data into a frame. */
  method CopyAsdu(frame: array<Byte>, at: nat, asdu: Asdu)
    requires at + |asdu| <= frame.Length
    modifies frame
    ensures frame[..] == old(frame[..at]) + asdu + old(frame[at + |asdu|..])
  {
    for i := 0 to |asdu|
      invariant frame[..] == old(frame[..at]) + asdu[..i] + old(frame[at + i..])
    {
      frame[at + i] := asdu[i];
    }
  }

  /** Builds an I frame with zero numbers; the buffer has the few spare bytes the caller allocates. */
  method SetFrameAsdu(frame: array<Byte>, asdu: Asdu, longMode: bool) returns (sz: nat)
    requires |asdu| + APCI_SZ + 5 <= frame.Length
    modifies frame
    ensures sz <= frame.Length && frame[..] == BytesI(0, 0, asdu, longMode) + old(frame[sz..])
  {
    var lg := |asdu|;
    var idxctrl;
    if lg >= ACTIVATELONGLENGTH && longMode {
      idxctrl := 3;
      frame[0] := STARTFRAMELONG;
      frame[1] := Lo((lg + APCI_SZ + 1 - idxctrl) / 256);
      frame[2] := Lo(lg + APCI_SZ + 1 - idxctrl);
    } else {
      idxctrl := 2;
      frame[0] := STARTFRAME;
      frame[1] := Lo(lg + APCI_SZ - idxctrl);
    }
    frame[idxctrl], frame[idxctrl + 1], frame[idxctrl + 2], frame[idxctrl + 3] := 0, 0, 0, 0;
    assert frame[..idxctrl + 4] == Header(lg, longMode) + NumberFields(0, 0);
    CopyAsdu(frame, idxctrl + 4, asdu);
    sz := lg + idxctrl + 4;
  }

  /** Where the control field starts, read off the start byte. */
  function CtrlIndex(start: Byte): nat { if start == STARTFRAMELONG then 3 else 2 }

  /** Writes N(S) and N(R) into a built frame, as often as it is sent. */
  method SetFrameI(frame: array<Byte>, ns: nat, nr: nat)
    requires 7 <= frame.Length
    modifies frame
    ensures frame[..] == Renumbered(old(frame[..]), ns, nr)
  {
    var ns1, nr1 := Shl1(ns), Shl1(nr);
    var idxctrl := if frame[0] == STARTFRAMELONG then 3 else 2;
    frame[idxctrl], frame[idxctrl + 1] := Lo(ns1), Hi(ns1);
    frame[idxctrl + 2], frame[idxctrl + 3] := Lo(nr1), Hi(nr1);
  }

  function Renumbered(b: seq<Byte>, ns: nat, nr: nat): seq<Byte>
    requires 7 <= |b|
  {
    var c := CtrlIndex(b[0]);
    b[..c] + NumberFields(ns, nr) + b[c + 4..]
  }

  /** Numbering a built frame again replaces the numbers and nothing else: the bytes beyond the
      frame and the user data at its end stay. */
  lemma RenumberedFrame(ns0: nat, nr0: nat, asdu: Asdu, longMode: bool, spare: seq<Byte>, ns: nat, nr: nat)
    requires 7 <= |BytesI(ns0, nr0, asdu, longMode) + spare|
    ensures Renumbered(BytesI(ns0, nr0, asdu, longMode) + spare, ns, nr) == BytesI(ns, nr, asdu, longMode) + spare
  {
    var h, m := Header(|asdu|, longMode), NumberFields(ns0, nr0);
    var b := h + m + asdu + spare;
    assert b[0] == h[0];
    assert b[..|h|] == h;
    assert b[|h| + 4..] == asdu + spare;
  }

  // ---- decoding ----

  /** `Runt` is a frame whose control field is shorter than four bytes. */
  datatype Decoded = Got(f: Frame) | Dropped | FormatError | Runt

  predicate IsLong(buf: seq<Byte>, longMode: bool)
    requires buf != []
  {
    buf[0] == STARTFRAMELONG && longMode
  }

  function Number(lo: Byte, hi: Byte): nat { (lo + hi * 256) / 2 }

  function GetNs(buf: seq<Byte>, longMode: bool): nat
    requires 7 <= |buf| || (6 <= |buf| && !IsLong(buf, longMode))
  {
    var c := if IsLong(buf, longMode) then 3 else 2;
    Number(buf[c], buf[c + 1])
  }

  function GetNr(buf: seq<Byte>, longMode: bool): nat
    requires 7 <= |buf| || (6 <= |buf| && !IsLong(buf, longMode))
  {
    var c := if IsLong(buf, longMode) then 3 else 2;
    Number(buf[c + 2], buf[c + 3])
  }

  predicate IsUCode(b: Byte) { b in {0x43, 0x83, 0x13, 0x23, 0x07, 0x0B} }

  function UTypeOf(b: Byte): (t: UType)
    requires IsUCode(b)
    ensures UCode(t) == b
  {
    if b == 0x43 then TestFrAct
    else if b == 0x83 then TestFrCon
    else if b == 0x13 then StopDtAct
    else if b == 0x23 then StopDtCon
    else if b == 0x07 then StartDtAct
    else StartDtCon
  }

  /** The size field: one byte, or two in the long form. */
  function SizeField(buf: seq<Byte>): nat
    requires 2 <= |buf| && (buf[0] != STARTFRAME ==> 3 <= |buf|)
  {
    if buf[0] == STARTFRAME then buf[1] else buf[1] as int * 256 + buf[2]
  }

  /** One complete frame, as the receive buffer delimits it. */
  function Decode(buf: seq<Byte>, longMode: bool): Decoded
    requires buf != []
  {
    var c := if IsLong(buf, longMode) then 3 else 2;
    var sz := |buf| - c;
    if sz <= 0 || (buf[0] != STARTFRAME && !IsLong(buf, longMode)) then Dropped
    else if sz != SizeField(buf) then Dropped
    else if sz < 4 then Runt
    else if sz == 4 && IsUCode(buf[c]) then Got(U(UTypeOf(buf[c])))
    else if sz == 4 && buf[c] == 1 then Got(S(buf[c + 1], GetNr(buf, longMode)))
    else if buf[c] % 2 != 0 || buf[c + 2] % 2 != 0 then FormatError
    else Got(I(GetNs(buf, longMode), GetNr(buf, longMode), buf[c + 4..]))
  }

  /** The payload lengths whose size field holds the size. */
  predicate Encodable(lg: nat, longMode: bool)
  {
    if UsesLong(lg, longMode) then lg + 4 < 65536 else lg + 4 < 256
  }

  lemma NumberOfFields(x: nat)
    ensures Number(Lo(Shl1(x)), Hi(Shl1(x))) == x % 32768
    ensures Lo(Shl1(x)) % 2 == 0
  {
    assert (2 * x) % 65536 == 2 * (x % 32768);
  }

  /** A U frame decodes to itself. */
  lemma DecodeBytesU(t: UType, longMode: bool)
    ensures Decode(BytesU(t), longMode) == Got(U(t))
  {
  }

  lemma DecodeBytesS(ext: Byte, nr: nat, longMode: bool)
    ensures Decode(BytesS(ext, nr), longMode) == Got(S(ext, nr % 32768))
  {
    NumberOfFields(nr);
  }

  /** An I frame decodes to an I frame with its numbers and payload, never to an S or U frame,
      exactly if its length fits the size field; otherwise it is dropped. */
  lemma DecodeBytesI(ns: nat, nr: nat, asdu: Asdu, longMode: bool)
    ensures var d := Decode(BytesI(ns, nr, asdu, longMode), longMode);
            if Encodable(|asdu|, longMode) then d == Got(I(ns % 32768, nr % 32768, asdu)) else d == Dropped
  {
    var h, m := Header(|asdu|, longMode), NumberFields(ns, nr);
    var b := BytesI(ns, nr, asdu, longMode);
    var c := |h|;
    assert b[0] == h[0] && b[1] == h[1];
    assert UsesLong(|asdu|, longMode) ==> b[2] == h[2];
    assert b[c] == m[0] && b[c + 1] == m[1] && b[c + 2] == m[2] && b[c + 3] == m[3];
    assert b[c + 4..] == asdu;
    NumberOfFields(ns);
    NumberOfFields(nr);
  }

  /** What a frame of any origin must be to be taken for an I frame: of the right size, with the
      number fields that the builder writes for its numbers, followed by its data. */
  lemma DecodedI(buf: seq<Byte>, longMode: bool)
    requires buf != [] && Decode(buf, longMode).Got? && Decode(buf, longMode).f.I?
    ensures var I(ns, nr, asdu), c := Decode(buf, longMode).f, if IsLong(buf, longMode) then 3 else 2;
            && ns < 32768 && nr < 32768 && SizeField(buf) == |asdu| + 4 == |buf| - c
            && buf[c..] == NumberFields(ns, nr) + asdu
            && !(asdu == [] && (IsUCode(buf[c]) || buf[c] == 1))
  {
    var c := if IsLong(buf, longMode) then 3 else 2;
    assert buf[c..] == buf[c..c + 4] + buf[c + 4..];
    EvenField(buf[c], buf[c + 1]);
    EvenField(buf[c + 2], buf[c + 3]);
  }

  lemma EvenField(lo: Byte, hi: Byte)
    requires lo % 2 == 0
    ensures Number(lo, hi) < 32768 && Lo(Shl1(Number(lo, hi))) == lo && Hi(Shl1(Number(lo, hi))) == hi
  {
    assert lo + hi * 256 == 2 * Number(lo, hi);
  }

  /** A frame of the right size that is no U or S frame is reported as malformed exactly if the low
      bit of one of its number fields is set. */
  lemma MalformedExactly(buf: seq<Byte>, longMode: bool)
    requires buf != [] && (buf[0] == STARTFRAME || IsLong(buf, longMode))
    requires var c := if IsLong(buf, longMode) then 3 else 2;
             c + 4 <= |buf| && SizeField(buf) == |buf| - c && !(|buf| == c + 4 && (IsUCode(buf[c]) || buf[c] == 1))
    ensures var c := if IsLong(buf, longMode) then 3 else 2;
            (Decode(buf, longMode).FormatError? <==> buf[c] % 2 == 1 || buf[c + 2] % 2 == 1)
            && (!Decode(buf, longMode).FormatError? ==> Decode(buf, longMode).Got? && Decode(buf, longMode).f.I?)
  {
  }

  /** What becomes of any bytes: they are dropped exactly if they do not begin with a start byte or
      are not of the size that they announce; short control fields are told apart, and everything
      else of the right size is a frame or malformed. */
  lemma DroppedExactly(buf: seq<Byte>, longMode: bool)
    requires buf != []
    ensures var c, d := if IsLong(buf, longMode) then 3 else 2, Decode(buf, longMode);
            && (d.Dropped? <==> (buf[0] != 0x68 && !(buf[0] == 0x69 && longMode)) || |buf| <= c || SizeField(buf) != |buf| - c)
            && (d.Runt? <==> !d.Dropped? && |buf| < c + 4)
  {
  }

  /** What arrives when `f` is sent: numbers are cut to 15 bits, and a frame whose payload does
      not fit its size field is dropped. */
  function Arrives(f: Frame, longMode: bool): Decoded
  {
    match f
    case U(t) => Got(f)
    case S(ext, nr) => Got(S(ext, nr % 32768))
    case I(ns, nr, asdu) => if Encodable(|asdu|, longMode) then Got(I(ns % 32768, nr % 32768, asdu)) else Dropped
  }

  lemma DecodeEncode(f: Frame, longMode: bool)
    ensures Decode(Encode(f, longMode), longMode) == Arrives(f, longMode)
  {
    match f
    case U(t) => DecodeBytesU(t, longMode);
    case S(ext, nr) => DecodeBytesS(ext, nr, longMode);
    case I(ns, nr, asdu) => DecodeBytesI(ns, nr, asdu, longMode);
  }

  predicate Fits(f: Frame, longMode: bool)
  {
    match f
    case U(_) => true
    case S(_, nr) => nr < 32768
    case I(ns, nr, asdu) => ns < 32768 && nr < 32768 && Encodable(|asdu|, longMode)
  }

  lemma ArrivesUnchanged(f: Frame, longMode: bool)
    ensures Arrives(f, longMode) == Got(f) <==> Fits(f, longMode)
  {
  }

  /** Codec round trip: a frame survives exactly if its numbers have 15 bits and its payload fits. */
  lemma RoundTrip(f: Frame, longMode: bool)
    ensures Decode(Encode(f, longMode), longMode) == Got(f) <==> Fits(f, longMode)
  {
    DecodeEncode(f, longMode);
    ArrivesUnchanged(f, longMode);
  }

  /** Different frames have different bytes. */
  lemma EncodeInjective(f: Frame, g: Frame, longMode: bool)
    requires Fits(f, longMode) && Fits(g, longMode) && Encode(f, longMode) == Encode(g, longMode)
    ensures f == g
  {
    RoundTrip(f, longMode);
    RoundTrip(g, longMode);
  }
}
