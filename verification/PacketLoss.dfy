/** Packet-loss detection of plc_utils.c: header and checksum parsing, sequence numbers,
    muted and repeated packets, and the histogram of outcomes. */
module PacketLoss {
  import opened Bytes
  import Crc

  const PKT_SIZE := 60
  const NO_SEQ := 0xff

  type Packet = p: seq<Byte> | |p| == PKT_SIZE witness seq(PKT_SIZE, _ => 0)

  /** How far off the frame boundary the stream sits. */
  type Index = i: nat | i < PKT_SIZE

  /** In the order of the source's enumeration. */
  datatype PlcType =
    | Pass | ControllerMute | HeaderError | CrcError | PadError | DataMissing
    | SequenceDiscontinue | BleConflict | DecoderError | TransmitterOffset

  datatype Header = Ok(sn: nat) | Err(code: int)

  // ----- The parts of a packet -----

  /** The second header byte for sequence number n: each of its two bits is sent twice. */
  function SeqByte(n: nat): (b: Byte)
    requires n < 4
    ensures b == 0x08 + 0x30 * (n % 2) + 0xC0 * (n / 2)
  {
    match n case 0 => 0x08 case 1 => 0x38 case 2 => 0xC8 case _ => 0xF8
  }

  /** The checksum covers bytes 3, 4 and 6 to 9. */
  function Covered(p: Packet): seq<Byte> {
    [p[3], p[4]] + p[6..10]
  }

  function FrameCheck(p: Packet): bv8 {
    Crc.TableDriven(0x0F, AsBits(Covered(p)))
  }

  function SyncOf(p: Packet): Header {
    if p[0] != 0x01 || p[1] % 16 != 0x08 || p[2] != 0xad then Err(-1) else
    var sn1, sn2 := p[1] / 16 % 4, p[1] / 64;
    if sn1 != 0 && sn1 != 3 then Err(-2) else
    if sn2 != 0 && sn2 != 3 then Err(-3) else
    Ok((if sn1 == 3 then 1 else 0) + (if sn2 == 3 then 2 else 0))
  }

  function HeaderOf(p: Packet): Header {
    if SyncOf(p).Err? then SyncOf(p)
    else if p[3] != 0 || p[4] != 0 || p[5] as bv8 != FrameCheck(p) then Err(-4)
    else SyncOf(p)
  }

  /** A whole frame as the transmitter builds it, with the checksum its encoder owes. */
  predicate ValidFrame(p: Packet, n: nat) {
    && n < 4
    && p[0] == 0x01 && p[1] == SeqByte(n) && p[2] == 0xad
    && p[3] == 0 && p[4] == 0 && p[5] as bv8 == FrameCheck(p)
  }

  /** The parser accepts exactly the valid frames, and reads their sequence number. */
  lemma ParserAcceptsValidFrames(p: Packet, n: nat)
    ensures HeaderOf(p) == Ok(n) <==> ValidFrame(p, n)
  {
  }

  predicate Muted(p: Packet, pattern: Byte) {
    forall i :: 0 <= i < PKT_SIZE - 1 ==> p[i] == pattern
  }

  predicate OffsetMuted(p: Packet, pattern: Byte, index: Index)
  {
    if index == 0 || (index == 1 && pattern == 0) then false
    else if p[0] == pattern then forall i :: 0 <= i < PKT_SIZE - index ==> p[i] == pattern
    else forall i :: PKT_SIZE - index <= i < PKT_SIZE ==> p[i] == pattern
  }

  function Body(p: Packet): seq<Byte> {
    p[..PKT_SIZE - 1]
  }

  // ----- The detector's memory and its decision for one packet -----

  /** The last accepted sequence number, the packet before last, the last packet, and the
      results of the last conflict check and the one before it. */
  datatype Memory = Memory(lastSeq: nat, older: Packet, newer: Packet, flag0: bool, flag1: bool)

  predicate Repeats(m: Memory, p: Packet) {
    !m.flag1 && Body(m.older) == Body(p)
  }

  function NextSeq(n: nat): nat {
    if n + 1 == 4 then 0 else n + 1
  }

  /** What one packet shows by itself. */
  datatype Facts = Facts(pkt: Packet, muted: bool, offsetMuted: bool, header: Header)

  function Inspect(p: Packet, pattern: Byte, index: Index): Facts {
    Facts(p, Muted(p, pattern), OffsetMuted(p, pattern, index), HeaderOf(p))
  }

  function OutcomeOf(m: Memory, f: Facts): PlcType {
    if f.muted then ControllerMute
    else if f.offsetMuted then TransmitterOffset
    else if Repeats(m, f.pkt) then BleConflict
    else match f.header
      case Err(code) => if code == -4 then CrcError else HeaderError
      case Ok(n) => if m.lastSeq == NO_SEQ || n == NextSeq(m.lastSeq) then Pass else SequenceDiscontinue
  }

  /** The flags move only when a packet gets as far as the conflict check. */
  function Advance(m: Memory, f: Facts): Memory {
    var checked := !f.muted && !f.offsetMuted;
    Memory(
      if OutcomeOf(m, f) == Pass then f.header.sn else NO_SEQ,
      m.newer, f.pkt,
      if checked then Repeats(m, f.pkt) else m.flag0,
      if checked then m.flag0 else m.flag1)
  }

  // ----- The detector as the source runs it -----

  method CheckMute(p: Packet, pattern: Byte) returns (muted: bool)
    ensures muted <==> Muted(p, pattern)
  {
    for i := 0 to PKT_SIZE - 1
      invariant forall k :: 0 <= k < i ==> p[k] == pattern
    {
      if p[i] != pattern {
        return false;
      }
    }
    return true;
  }

  method CheckTransmitterOffset(p: Packet, pattern: Byte, index: Index) returns (muted: bool)
    ensures muted <==> OffsetMuted(p, pattern, index)
  {
    if index == 0 {
      return false;
    }
    if index == 1 && pattern == 0x00 {
      return false;
    }
    if p[0] == pattern {
      for i := 0 to PKT_SIZE - index
        invariant forall k :: 0 <= k < i ==> p[k] == pattern
      {
        if p[i] != pattern {
          return false;
        }
      }
    } else {
      for i := PKT_SIZE - index to PKT_SIZE
        invariant forall k :: PKT_SIZE - index <= k < i ==> p[k] == pattern
      {
        if p[i] != pattern {
          return false;
        }
      }
    }
    return true;
  }

  /** The checksum of bytes 3 and 4 and of those from 6 up to ind. */
  function SumTo(p: Packet, ind: nat): bv8
    requires 6 <= ind <= 10
  {
    Crc.TableDriven(0x0F, AsBits([p[3], p[4]] + p[6..ind]))
  }

  /** The two bytes summed before the loop. */
  method StartSum(p: Packet) returns (fcs: bv8)
    ensures fcs == SumTo(p, 6)
  {
    var b3, b4 := p[3] as bv8, p[4] as bv8;
    assert AsBits([p[3], p[4]] + p[6..6]) == ([] + [b3]) + [b4];
    Crc.FoldSnoc(Crc.Xor, Crc.Table, 0x0F, [], b3);
    Crc.FoldSnoc(Crc.Xor, Crc.Table, 0x0F, [] + [b3], b4);
    fcs := Crc.Table(Crc.Xor(0x0F, b3));
    fcs := Crc.Table(Crc.Xor(fcs, b4));
  }

  lemma SumGrows(p: Packet, ind: nat)
    requires 6 <= ind < 10
    ensures SumTo(p, ind + 1) == Crc.Table(Crc.Xor(SumTo(p, ind), p[ind] as bv8))
  {
    var s := [p[3], p[4]] + p[6..ind];
    assert AsBits([p[3], p[4]] + p[6..ind + 1]) == AsBits(s) + [p[ind] as bv8];
    Crc.FoldSnoc(Crc.Xor, Crc.Table, 0x0F, AsBits(s), p[ind] as bv8);
  }

  /** One turn of the checksum for a whole byte. */
  method LookUp(fcs: bv8, p: Packet, ind: nat) returns (next: bv8)
    requires 6 <= ind < 10 && fcs == SumTo(p, ind)
    ensures next == SumTo(p, ind + 1)
  {
    SumGrows(p, ind);
    next := Crc.Table(Crc.Xor(fcs, p[ind] as bv8));
  }

  /** The checksum loop: eight turns of four bits, a whole byte on every other turn. The branch
      for four left-over bits is dead, since the eighth turn stands in the middle of a byte. */
  method ComputeCheck(p: Packet) returns (fcs: bv8)
    ensures fcs == FrameCheck(p)
  {
    fcs := StartSum(p);
    var ind, bitOffset := 6, 24;
    for sb := 0 to 8
      invariant Position(sb, ind, bitOffset)
      invariant fcs == SumTo(p, ind)
    {
      Step(sb, ind, bitOffset);
      if bitOffset % 8 != 0 {
        fcs := LookUp(fcs, p, ind);
        ind := ind + 1;
      } else if sb == 7 {
        assert false;
      }
      bitOffset := bitOffset + 4;
    }
  }

  /** Where the checksum loop stands at turn sb. */
  predicate Position(sb: nat, ind: nat, bitOffset: nat) {
    && 6 <= ind <= 10 && sb <= 8 && bitOffset == 24 + 4 * sb
    && (bitOffset == 8 * (ind - 3) || bitOffset == 8 * (ind - 3) + 4)
  }

  lemma Step(sb: nat, ind: nat, bitOffset: nat)
    requires Position(sb, ind, bitOffset) && sb < 8
    ensures bitOffset % 8 == 0 ==> sb != 7 && Position(sb + 1, ind, bitOffset + 4)
    ensures bitOffset % 8 != 0 ==> ind < 10 && Position(sb + 1, ind + 1, bitOffset + 4)
  {
  }

  method ParseHeader(p: Packet) returns (err: int, sn: nat)
    ensures match HeaderOf(p) case Ok(n) => err == 0 && sn == n case Err(code) => err == code && sn == NO_SEQ
  {
    sn := NO_SEQ;
    if p[0] != 0x01 || p[1] % 16 != 0x08 || p[2] != 0xad {
      return -1, sn;
    }
    var sn1, sn2 := p[1] / 16 % 4, p[1] / 64;
    if sn1 != 0 && sn1 != 0x3 {
      return -2, sn;
    }
    if sn2 != 0 && sn2 != 0x3 {
      return -3, sn;
    }
    if p[3] != 0x00 || p[4] != 0x00 {
      return -4, sn;
    }
    var fcs := ComputeCheck(p);
    if p[5] as bv8 != fcs {
      return -4, sn;
    }
    return 0, sn1 % 2 + sn2 / 2 * 2;
  }

  class Detector {
    var lastSeqNum: nat
    const lastPkt: array<Byte>
    var conflictFlag0: bool
    var conflictFlag1: bool
    const hist: array<int>

    ghost predicate Valid()
      reads this, lastPkt
    {
      lastPkt.Length == 2 * PKT_SIZE && hist.Length == 10
    }

    ghost function Remembered(): Memory
      requires Valid()
      reads this, lastPkt
    {
      Memory(lastSeqNum, lastPkt[..PKT_SIZE], lastPkt[PKT_SIZE..], conflictFlag0, conflictFlag1)
    }

    constructor ()
      ensures Valid() && fresh(lastPkt) && fresh(hist)
      ensures Remembered() == Fresh() && hist[..] == seq(10, _ => 0)
    {
      lastSeqNum := NO_SEQ;
      conflictFlag0, conflictFlag1 := false, false;
      lastPkt := new Byte[2 * PKT_SIZE](_ => 0);
      hist := new int[10](_ => 0);
    }

    method UpdateConflict(pkt: Packet) returns (same: bool)
      requires Valid()
      modifies lastPkt
      ensures same == old(Repeats(Remembered(), pkt))
      ensures lastPkt[..PKT_SIZE] == old(lastPkt[PKT_SIZE..]) && lastPkt[PKT_SIZE..] == pkt
    {
      same := !conflictFlag1;
      if same {
        var i := 0;
        while i < PKT_SIZE - 1 && lastPkt[i] == pkt[i]
          invariant 0 <= i <= PKT_SIZE - 1
          invariant lastPkt[..i] == pkt[..i]
        {
          i := i + 1;
        }
        same := i == PKT_SIZE - 1;
        assert same ==> Body(lastPkt[..PKT_SIZE]) == Body(pkt);
      }
      forall i | 0 <= i < PKT_SIZE {
        lastPkt[i] := lastPkt[i + PKT_SIZE];
      }
      forall i | 0 <= i < PKT_SIZE {
        lastPkt[i + PKT_SIZE] := pkt[i];
      }
    }

    method CheckConflict(same: bool) returns (conflict: bool)
      modifies this`conflictFlag0, this`conflictFlag1
      ensures conflict == same && conflictFlag0 == same && conflictFlag1 == old(conflictFlag0)
    {
      conflictFlag1 := conflictFlag0;
      conflictFlag0 := same;
      return same;
    }

    method UpdateHistogram(t: PlcType)
      requires Valid()
      modifies hist
      ensures hist[..] == Counted(old(hist[..]), t)
    {
      if t == DecoderError {
        hist[0] := hist[0] - 1;
      }
      hist[Slot(t)] := hist[Slot(t)] + 1;
    }

    method Process(pkt: Packet, pattern: Byte, index: Index) returns (t: PlcType)
      requires Valid()
      modifies this, lastPkt, hist
      ensures Valid()
      ensures t == old(OutcomeOf(Remembered(), Inspect(pkt, pattern, index)))
      ensures Remembered() == old(Advance(Remembered(), Inspect(pkt, pattern, index)))
      ensures hist[..] == Counted(old(hist[..]), t)
    {
      t := Pass;
      var same := UpdateConflict(pkt);
      var muted := CheckMute(pkt, pattern);
      if muted {
        t := ControllerMute;
        lastSeqNum := NO_SEQ;
      } else {
        var offset := CheckTransmitterOffset(pkt, pattern, index);
        if offset {
          t := TransmitterOffset;
          lastSeqNum := NO_SEQ;
        } else {
          var conflict := CheckConflict(same);
          if conflict {
            t := BleConflict;
            lastSeqNum := NO_SEQ;
          } else {
            var err, seqNum := ParseHeader(pkt);
            if err < 0 && err >= -3 {
              t := HeaderError;
              lastSeqNum := NO_SEQ;
            } else if err == -4 {
              t := CrcError;
              lastSeqNum := NO_SEQ;
            } else if seqNum == NO_SEQ {
              assert false;
            } else if lastSeqNum == NO_SEQ {
              t := Pass;
              lastSeqNum := seqNum;
            } else if seqNum == NextSeq(lastSeqNum) {
              lastSeqNum := seqNum;
              t := Pass;
            } else {
              lastSeqNum := NO_SEQ;
              t := SequenceDiscontinue;
            }
          }
        }
      }
      UpdateHistogram(t);
    }
  }

  // ----- The histogram -----

  function Slot(t: PlcType): (i: nat)
    ensures i < 10
  {
    match t
    case Pass => 0 case ControllerMute => 1 case HeaderError => 2 case CrcError => 3 case PadError => 4
    case DataMissing => 5 case SequenceDiscontinue => 6 case BleConflict => 7 case DecoderError => 8
    case TransmitterOffset => 9
  }

  /** A decoder error is counted in place of the pass that was counted for the same packet. */
  function Counted(hist: seq<int>, t: PlcType): (h: seq<int>)
    requires |hist| == 10
    ensures |h| == 10
  {
    var h := if t == DecoderError then hist[0 := hist[0] - 1] else hist;
    h[Slot(t) := h[Slot(t)] + 1]
  }

  ghost function Fresh(): Memory {
    Memory(NO_SEQ, seq(PKT_SIZE, _ => 0), seq(PKT_SIZE, _ => 0), false, false)
  }
}
