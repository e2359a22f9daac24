/**
 Frames and identifiers as bytes of the MCP2515's transmit, receive, filter and mask
 registers. All shifts and masks are those of the driver, on words of the same width.
 */
module CanFrames {
  import opened CanInf

  const MAX_BUF_LEN: nat := 13
  const DLC: nat := 4
  const DAT: nat := 5

  /** Storing a 32-bit value into a `uint8_t`. */
  function Low8(x: bv32): bv8 {
    (x & 0xFF) as bv8
  }

  // ----------------------------------------------- identifiers as registers

  /** SIDH, SIDL, EID8 and EID0. */
  datatype IdBytes = IdBytes(sidh: bv8, sidl: bv8, eid8: bv8, eid0: bv8)

  /** The standard part of an identifier or mask. */
  function Sid(x: bv32, exide: bool): bv32 {
    if exide then x >> 18 else x
  }

  function Eid(x: bv32, exide: bool): bv32 {
    if exide then x & 0x3FFFF else 0
  }

  function ExideBit(exide: bool): bv32 {
    if exide then 8 else 0
  }

  /** The layout load_txb and write_to_filter use for identifiers. */
  function IdRegs(x: bv32, exide: bool): IdBytes {
    var sid, eid := Sid(x, exide), Eid(x, exide);
    IdBytes(Low8(sid >> 3), Low8((sid << 5) | ExideBit(exide) | (eid >> 16)), Low8(eid >> 8), Low8(eid))
  }

  /** The layout write_to_filter uses for masks: the same without the EXIDE bit. */
  function MaskRegs(x: bv32, exide: bool): IdBytes {
    var sid, eid := Sid(x, exide), Eid(x, exide);
    IdBytes(Low8(sid >> 3), Low8((sid << 5) | (eid >> 16)), Low8(eid >> 8), Low8(eid))
  }

  /** How recv_rxb reads the identifier registers. */
  function ReadExide(b: IdBytes): bool {
    (b.sidl >> 3) & 1 != 0
  }

  function ReadId(b: IdBytes): bv32 {
    var sid := ((b.sidh as bv32) << 3) | ((b.sidl as bv32) >> 5);
    if ReadExide(b) then
      (sid << 18) | (((b.sidl as bv32) & 3) << 16) | ((b.eid8 as bv32) << 8) | (b.eid0 as bv32)
    else sid
  }

  /** recv_rxb stores the identifier into a field of 29 bits. */
  function FrameId(b: IdBytes): bv29 {
    (ReadId(b) & 0x1FFF_FFFF) as bv29
  }

  /** Identifiers have 11 bits in standard frames and 29 in extended ones. */
  predicate InRange(x: bv32, exide: bool) {
    if exide then x < 0x2000_0000 else x < 0x800
  }

  predicate FitsFormat(id: bv29, exide: bool) {
    exide || id < 0x800
  }

  lemma StandardId(id: bv29)
    ensures ReadExide(IdRegs(id as bv32, false)) == false
    ensures FrameId(IdRegs(id as bv32, false)) == id & 0x7FF
  {
  }

  lemma ExtendedId(id: bv29)
    ensures ReadExide(IdRegs(id as bv32, true)) == true
    ensures FrameId(IdRegs(id as bv32, true)) == id
  {
  }

  lemma ElevenBits(id: bv29)
    ensures (id & 0x7FF == id) == (id < 0x800)
  {
  }

  /** An identifier survives the registers exactly when it fits its format; the format always
      survives. */
  lemma IdRoundTrip(id: bv29, exide: bool)
    ensures ReadExide(IdRegs(id as bv32, exide)) == exide
    ensures FrameId(IdRegs(id as bv32, exide)) == id <==> FitsFormat(id, exide)
  {
    if exide {
      ExtendedId(id);
    } else {
      StandardId(id);
      ElevenBits(id);
    }
  }

  // ------------------------------------------------- the layout as one word

  /** The four registers as one word, SIDH first. In it bits 31..21 are the 11 bits of a standard
      identifier or the upper 11 of an extended one, bit 19 is EXIDE, and bits 17..0 are the lower 18
      of an extended one. Bits 20 and 18 mean nothing to filters and are written as 0. */
  function Word(b: IdBytes): bv32 {
    ((b.sidh as bv32) << 24) | ((b.sidl as bv32) << 16) | ((b.eid8 as bv32) << 8) | (b.eid0 as bv32)
  }

  const EXIDE: bv32 := 0x80000

  /** Every register bit of an identifier. */
  lemma IdLayout(x: bv32, exide: bool)
    ensures Word(IdRegs(x, exide))
         == if exide then (((x >> 18) & 0x7FF) << 21) | EXIDE | (x & 0x3FFFF) else (x & 0x7FF) << 21
  {
    if exide {
      ExtendedLayout(x);
    } else {
      StandardLayout(x);
    }
  }

  lemma StandardLayout(x: bv32)
    ensures Word(IdRegs(x, false)) == (x & 0x7FF) << 21
    ensures Word(MaskRegs(x, false)) == (x & 0x7FF) << 21
  {
  }

  lemma ExtendedLayout(x: bv32)
    ensures Word(IdRegs(x, true)) == (((x >> 18) & 0x7FF) << 21) | EXIDE | (x & 0x3FFFF)
    ensures Word(MaskRegs(x, true)) == (((x >> 18) & 0x7FF) << 21) | (x & 0x3FFFF)
  {
  }

  /** Every register bit of a mask: that of an identifier, without EXIDE. */
  lemma MaskLayout(x: bv32, exide: bool)
    ensures Word(MaskRegs(x, exide))
         == if exide then (((x >> 18) & 0x7FF) << 21) | (x & 0x3FFFF) else (x & 0x7FF) << 21
  {
    if exide {
      ExtendedLayout(x);
    } else {
      StandardLayout(x);
    }
  }

  /** What is read from any register contents: bits 20 and 18, and in a standard frame also the
      lower 18, play no part. */
  lemma ReadsWord(b: IdBytes)
    ensures ReadExide(b) == (Word(b) & EXIDE != 0)
    ensures FrameId(b) as bv32
         == if Word(b) & EXIDE != 0 then ((Word(b) >> 21) << 18) | (Word(b) & 0x3FFFF) else Word(b) >> 21
  {
  }

  // --------------------------------------------------------- whole frames

  function DlcByte(rtr: bool, dlc: bv4): bv8 {
    (if rtr then 0x40 else 0) | (dlc as bv8)
  }

  function ReadRtr(b: bv8): bool {
    (b >> 6) & 1 != 0
  }

  function ReadDlc(b: bv8): bv4 {
    (b & 0xF) as bv4
  }

  lemma DlcRoundTrip(rtr: bool, dlc: bv4)
    ensures ReadRtr(DlcByte(rtr, dlc)) == rtr
    ensures ReadDlc(DlcByte(rtr, dlc)) == dlc
  {
  }

  /** Every bit of the DLC register: the length in bits 3..0, the remote flag in bit 6, others 0; and
      of any contents no other bits are read. */
  lemma DlcLayout(rtr: bool, dlc: bv4, b: bv8)
    ensures DlcByte(rtr, dlc) & 0xF == dlc as bv8
    ensures (DlcByte(rtr, dlc) & 0x40 != 0) == rtr
    ensures DlcByte(rtr, dlc) & 0xB0 == 0
    ensures ReadDlc(b) as bv8 == b & 0xF
    ensures ReadRtr(b) == (b & 0x40 != 0)
  {
  }

  /** The payload fits the eight data bytes. */
  predicate Sendable(f: Frame) {
    IsFrame(f) && f.dlc as nat <= CAN_MAX_DLC
  }

  function Header(f: Frame): (b: seq<bv8>)
    ensures |b| == DAT
  {
    var r := IdRegs(f.ident.id as bv32, f.ident.exide);
    [r.sidh, r.sidl, r.eid8, r.eid0, DlcByte(f.ident.rtr, f.dlc)]
  }

  /** The bytes load_txb sends to the controller. */
  function TxBytes(f: Frame): (b: seq<bv8>)
    requires Sendable(f)
  {
    Header(f) + f.data[..f.dlc as nat]
  }

  function HeaderRegs(b: seq<bv8>): IdBytes
    requires DAT <= |b|
  {
    IdBytes(b[0], b[1], b[2], b[3])
  }

  /** The payload length recv_rxb copies. */
  function PayloadLength(b: seq<bv8>): nat
    requires DAT <= |b|
  {
    if ReadRtr(b[DLC]) then 0 else ReadDlc(b[DLC]) as nat
  }

  /** What recv_rxb makes of a receive buffer, given what the frame held before. */
  function RxFrame(b: seq<bv8>, before: Frame): Frame
    requires |b| == MAX_BUF_LEN && IsFrame(before) && PayloadLength(b) <= CAN_MAX_DLC
  {
    var r := HeaderRegs(b);
    var n := PayloadLength(b);
    before.(ident := before.ident.(id := FrameId(r), exide := ReadExide(r), rtr := ReadRtr(b[DLC])),
            dlc := if ReadRtr(b[DLC]) then 0 else ReadDlc(b[DLC]),
            data := b[DAT..DAT + n] + before.data[n..])
  }

  lemma HeaderIs(f: Frame, r: IdBytes, d: bv8)
    requires r == IdRegs(f.ident.id as bv32, f.ident.exide) && d == DlcByte(f.ident.rtr, f.dlc)
    ensures Header(f) == [r.sidh, r.sidl, r.eid8, r.eid0, d]
  {
  }

  /** Five bytes at the start of a buffer, which make up the header of f. */
  method PutHeader(ghost f: Frame, r: IdBytes, d: bv8, buf: array<bv8>)
    requires buf.Length == MAX_BUF_LEN && Header(f) == [r.sidh, r.sidl, r.eid8, r.eid0, d]
    modifies buf
    ensures buf[..DAT] == Header(f)
    ensures buf[DAT..] == old(buf[DAT..])
  {
    buf[0] := r.sidh;
    buf[1] := r.sidl;
    buf[2] := r.eid8;
    buf[3] := r.eid0;
    buf[DLC] := d;
    assert buf[..DAT] == [r.sidh, r.sidl, r.eid8, r.eid0, d];
  }

  /** The identifier and length bytes of load_txb. */
  method FillHeader(frame: Frame, buf: array<bv8>)
    requires Sendable(frame) && buf.Length == MAX_BUF_LEN
    modifies buf
    ensures buf[..DAT] == Header(frame)
    ensures buf[DAT..] == old(buf[DAT..])
  {
    var r, d := IdRegs(frame.ident.id as bv32, frame.ident.exide), DlcByte(frame.ident.rtr, frame.dlc);
    HeaderIs(frame, r, d);
    PutHeader(frame, r, d, buf);
  }

  /** The payload, byte by byte. */
  method FillPayload(data: seq<bv8>, n: nat, buf: array<bv8>)
    requires buf.Length == MAX_BUF_LEN && n <= |data| == CAN_MAX_DLC
    modifies buf
    ensures buf[..DAT] == old(buf[..DAT])
    ensures buf[DAT..DAT + n] == data[..n]
    ensures buf[DAT + n..] == old(buf[DAT + n..])
  {
    var i := 0;
    while i < n
      invariant 0 <= i <= n
      invariant buf[..DAT] == old(buf[..DAT])
      invariant buf[DAT..DAT + i] == data[..i]
      invariant buf[DAT + i..] == old(buf[DAT + i..])
    {
      buf[DAT + i] := data[i];
      i := i + 1;
    }
  }

  /** load_txb fills its local buffer; the first dlc + DAT bytes of it are transferred. */
  method LoadTxb(frame: Frame, buf: array<bv8>) returns (len: nat)
    requires Sendable(frame) && buf.Length == MAX_BUF_LEN
    modifies buf
    ensures len <= buf.Length && buf[..len] == TxBytes(frame)
    ensures forall i | len <= i < buf.Length :: buf[i] == 0
  {
    forall i | 0 <= i < buf.Length {
      buf[i] := 0;
    }
    FillHeader(frame, buf);
    assert forall i | DAT <= i < buf.Length :: buf[i] == buf[DAT..][i - DAT] == 0;
    var n := frame.dlc as nat;
    len := DAT + n;
    FillPayload(frame.data, n, buf);
    assert forall i | len <= i < buf.Length :: buf[i] == buf[len..][i - len];
    assert buf[..len] == buf[..DAT] + buf[DAT..len];
  }

  /** What remains of frame f, received into a frame that held `before`. */
  predicate Restores(f: Frame, before: Frame, r: Frame)
    requires Sendable(f) && IsFrame(before)
  {
    && r.ident.exide == f.ident.exide && r.ident.rtr == f.ident.rtr
    && (r.ident.id == f.ident.id <==> FitsFormat(f.ident.id, f.ident.exide))
    && if f.ident.rtr then r.dlc == 0 && r.data == before.data
       else r.dlc == f.dlc && r.data == f.data[..f.dlc as nat] + before.data[f.dlc as nat..]
  }

  /** Decoding what was encoded: the format, the remote flag, the length and the payload come
      back for every frame, the identifier exactly when it is in range; a remote frame comes
      back without payload. `rest` stands for whatever else the receive buffer holds. */
  lemma FrameRoundTrip(f: Frame, b: seq<bv8>, before: Frame)
    requires Sendable(f) && IsFrame(before)
    requires |b| == MAX_BUF_LEN && TxBytes(f) <= b
    ensures PayloadLength(b) <= CAN_MAX_DLC
    ensures Restores(f, before, RxFrame(b, before))
  {
    IdSurvives(f, b, before);
    PayloadSurvives(f, b, before);
  }

  lemma IdSurvives(f: Frame, b: seq<bv8>, before: Frame)
    requires Sendable(f) && IsFrame(before) && |b| == MAX_BUF_LEN && TxBytes(f) <= b
    ensures ReadExide(HeaderRegs(b)) == f.ident.exide
    ensures FrameId(HeaderRegs(b)) == f.ident.id <==> FitsFormat(f.ident.id, f.ident.exide)
  {
    EncodedParts(f, b);
    IdRoundTrip(f.ident.id, f.ident.exide);
  }

  lemma PayloadSurvives(f: Frame, b: seq<bv8>, before: Frame)
    requires Sendable(f) && IsFrame(before) && |b| == MAX_BUF_LEN && TxBytes(f) <= b
    ensures ReadRtr(b[DLC]) == f.ident.rtr && PayloadLength(b) <= CAN_MAX_DLC
    ensures var r := RxFrame(b, before);
            if f.ident.rtr then r.dlc == 0 && r.data == before.data
            else r.dlc == f.dlc && r.data == f.data[..f.dlc as nat] + before.data[f.dlc as nat..]
  {
    EncodedParts(f, b);
    DlcRoundTrip(f.ident.rtr, f.dlc);
    DecodedParts(b, before);
  }

  /** Where the parts of an encoded frame are in the receive buffer. */
  lemma EncodedParts(f: Frame, b: seq<bv8>)
    requires Sendable(f) && |b| == MAX_BUF_LEN && TxBytes(f) <= b
    ensures HeaderRegs(b) == IdRegs(f.ident.id as bv32, f.ident.exide)
    ensures b[DLC] == DlcByte(f.ident.rtr, f.dlc)
    ensures b[DAT..DAT + f.dlc as nat] == f.data[..f.dlc as nat]
  {
    var h, n := Header(f), f.dlc as nat;
    assert forall i | 0 <= i < DAT :: b[i] == TxBytes(f)[i] == h[i];
    assert b[DAT..DAT + n] == TxBytes(f)[DAT..];
  }

  /** The parts of a decoded frame. */
  lemma DecodedParts(b: seq<bv8>, before: Frame)
    requires |b| == MAX_BUF_LEN && IsFrame(before) && PayloadLength(b) <= CAN_MAX_DLC
    ensures var r, n := RxFrame(b, before), PayloadLength(b);
            && r.ident.id == FrameId(HeaderRegs(b)) && r.ident.exide == ReadExide(HeaderRegs(b))
            && r.ident.rtr == ReadRtr(b[DLC])
            && r.dlc == (if ReadRtr(b[DLC]) then 0 else ReadDlc(b[DLC]))
            && r.data == b[DAT..DAT + n] + before.data[n..]
            && (n == 0 ==> r.data == before.data)
  {
  }

  lemma RestoresAll(b: seq<bv8>, before: Frame)
    requires |b| == MAX_BUF_LEN && IsFrame(before) && PayloadLength(b) <= CAN_MAX_DLC
    ensures forall f | Sendable(f) && TxBytes(f) <= b :: Restores(f, before, RxFrame(b, before))
  {
    forall f | Sendable(f) && TxBytes(f) <= b
      ensures Restores(f, before, RxFrame(b, before))
    {
      FrameRoundTrip(f, b, before);
    }
  }

  // ----------------------------------------------------- receiving in place

  /** The caller's frame, which recv_rxb fills in. */
  class FrameBuffer {
    var ident: CanId
    var prio: bv2
    var dlc: bv4
    const data: array<bv8>

    ghost predicate Valid() {
      data.Length == CAN_MAX_DLC
    }

    ghost function Value(): (f: Frame)
      requires Valid()
      reads this, data
      ensures IsFrame(f)
    {
      Frame(ident, prio, dlc, data[..])
    }

    constructor (f: Frame)
      requires IsFrame(f)
      ensures Valid() && Value() == f && fresh(data)
    {
      ident, prio, dlc := f.ident, f.prio, f.dlc;
      data := new bv8[CAN_MAX_DLC](i requires 0 <= i < CAN_MAX_DLC => f.data[i]);
      new;
      assert data[..] == f.data;
    }

    /** The payload, byte by byte. */
    method CopyPayload(buf: array<bv8>, n: nat)
      requires Valid() && buf.Length == MAX_BUF_LEN && n <= CAN_MAX_DLC && buf != data
      modifies data
      ensures data[..] == buf[DAT..DAT + n] + old(data[n..])
    {
      var i := 0;
      while i < n
        invariant 0 <= i <= n
        invariant data[..i] == buf[DAT..DAT + i] && data[i..] == old(data[i..])
      {
        data[i] := buf[DAT + i];
        i := i + 1;
      }
      assert data[..] == data[..n] + data[n..];
    }

    /** recv_rxb, from the bytes read out of the controller: whatever frame they are the encoding
        of is restored. */
    method RecvRxb(buf: array<bv8>)
      requires Valid() && buf.Length == MAX_BUF_LEN && PayloadLength(buf[..]) <= CAN_MAX_DLC && buf != data
      modifies this, data
      ensures Value() == RxFrame(buf[..], old(Value()))
      ensures forall f | Sendable(f) && TxBytes(f) <= buf[..] :: Restores(f, old(Value()), Value())
    {
      ghost var before := Value();
      var r := IdBytes(buf[0], buf[1], buf[2], buf[3]);
      var rtr := ReadRtr(buf[DLC]);
      ident := ident.(id := FrameId(r), exide := ReadExide(r), rtr := rtr);
      if rtr {
        dlc := 0;
      } else {
        dlc := ReadDlc(buf[DLC]);
      }
      CopyPayload(buf, if rtr then 0 else ReadDlc(buf[DLC]) as nat);
      RestoresAll(buf[..], before);
    }
  }

  // ------------------------------------------------------ acceptance filters

  /** The controller accepts an identifier when it equals the filter in all bits of the mask. */
  predicate Accepts(mask: IdBytes, filter: IdBytes, id: IdBytes) {
    && (id.sidh ^ filter.sidh) & mask.sidh == 0
    && (id.sidl ^ filter.sidl) & mask.sidl == 0
    && (id.eid8 ^ filter.eid8) & mask.eid8 == 0
    && (id.eid0 ^ filter.eid0) & mask.eid0 == 0
  }

  lemma AcceptsStandard(id: bv32, filter: bv32, mask: bv32)
    ensures Accepts(MaskRegs(mask, false), IdRegs(filter, false), IdRegs(id, false))
       <==> (id ^ filter) & mask & 0x7FF == 0
  {
  }

  lemma AcceptsExtended(id: bv32, filter: bv32, mask: bv32)
    ensures Accepts(MaskRegs(mask, true), IdRegs(filter, true), IdRegs(id, true))
       <==> (id ^ filter) & mask & 0x1FFF_FFFF == 0
  {
    if Accepts(MaskRegs(mask, true), IdRegs(filter, true), IdRegs(id, true)) {
      AcceptedAgrees(id, filter, mask);
    } else if (id ^ filter) & mask & 0x1FFF_FFFF == 0 {
      AgreeingIsAccepted(id, filter, mask);
      assert false;
    }
  }

  lemma AcceptedAgrees(id: bv32, filter: bv32, mask: bv32)
    requires Accepts(MaskRegs(mask, true), IdRegs(filter, true), IdRegs(id, true))
    ensures (id ^ filter) & mask & 0x1FFF_FFFF == 0
  {
  }

  lemma AgreeingIsAccepted(id: bv32, filter: bv32, mask: bv32)
    requires (id ^ filter) & mask & 0x1FFF_FFFF == 0
    ensures Accepts(MaskRegs(mask, true), IdRegs(filter, true), IdRegs(id, true))
  {
  }

  /** For identifiers of the format of the filter, the registers that write_to_filter sets accept
      exactly those that agree with the filter on the mask. */
  lemma FilterMeaning(id: bv32, filter: bv32, mask: bv32, exide: bool)
    requires InRange(id, exide) && InRange(filter, exide)
    ensures Accepts(MaskRegs(mask, exide), IdRegs(filter, exide), IdRegs(id, exide))
       <==> (id ^ filter) & mask == 0
  {
    if exide {
      AcceptsExtended(id, filter, mask);
      ExtendedOnly(id, filter, mask);
    } else {
      AcceptsStandard(id, filter, mask);
      StandardOnly(id, filter, mask);
    }
  }

  lemma StandardOnly(id: bv32, filter: bv32, mask: bv32)
    requires id < 0x800 && filter < 0x800
    ensures (id ^ filter) & mask & 0x7FF == (id ^ filter) & mask
  {
  }

  lemma ExtendedOnly(id: bv32, filter: bv32, mask: bv32)
    requires id < 0x2000_0000 && filter < 0x2000_0000
    ensures (id ^ filter) & mask & 0x1FFF_FFFF == (id ^ filter) & mask
  {
  }
}
