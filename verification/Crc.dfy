/** The SBC frame check of plc_utils.c: a table-driven CRC-8 over bytes. */
module Crc {

  // ----- The lookup table, sixteen entries a row -----

  function Row0(low: bv4): bv8 {
    match low
    case 0 => 0x00 case 1 => 0x1D case 2 => 0x3A case 3 => 0x27 case 4 => 0x74 case 5 => 0x69 case 6 => 0x4E case 7 => 0x53
    case 8 => 0xE8 case 9 => 0xF5 case 10 => 0xD2 case 11 => 0xCF case 12 => 0x9C case 13 => 0x81 case 14 => 0xA6 case _ => 0xBB
  }
  function Row1(low: bv4): bv8 {
    match low
    case 0 => 0xCD case 1 => 0xD0 case 2 => 0xF7 case 3 => 0xEA case 4 => 0xB9 case 5 => 0xA4 case 6 => 0x83 case 7 => 0x9E
    case 8 => 0x25 case 9 => 0x38 case 10 => 0x1F case 11 => 0x02 case 12 => 0x51 case 13 => 0x4C case 14 => 0x6B case _ => 0x76
  }
  function Row2(low: bv4): bv8 {
    match low
    case 0 => 0x87 case 1 => 0x9A case 2 => 0xBD case 3 => 0xA0 case 4 => 0xF3 case 5 => 0xEE case 6 => 0xC9 case 7 => 0xD4
    case 8 => 0x6F case 9 => 0x72 case 10 => 0x55 case 11 => 0x48 case 12 => 0x1B case 13 => 0x06 case 14 => 0x21 case _ => 0x3C
  }
  function Row3(low: bv4): bv8 {
    match low
    case 0 => 0x4A case 1 => 0x57 case 2 => 0x70 case 3 => 0x6D case 4 => 0x3E case 5 => 0x23 case 6 => 0x04 case 7 => 0x19
    case 8 => 0xA2 case 9 => 0xBF case 10 => 0x98 case 11 => 0x85 case 12 => 0xD6 case 13 => 0xCB case 14 => 0xEC case _ => 0xF1
  }
  function Row4(low: bv4): bv8 {
    match low
    case 0 => 0x13 case 1 => 0x0E case 2 => 0x29 case 3 => 0x34 case 4 => 0x67 case 5 => 0x7A case 6 => 0x5D case 7 => 0x40
    case 8 => 0xFB case 9 => 0xE6 case 10 => 0xC1 case 11 => 0xDC case 12 => 0x8F case 13 => 0x92 case 14 => 0xB5 case _ => 0xA8
  }
  function Row5(low: bv4): bv8 {
    match low
    case 0 => 0xDE case 1 => 0xC3 case 2 => 0xE4 case 3 => 0xF9 case 4 => 0xAA case 5 => 0xB7 case 6 => 0x90 case 7 => 0x8D
    case 8 => 0x36 case 9 => 0x2B case 10 => 0x0C case 11 => 0x11 case 12 => 0x42 case 13 => 0x5F case 14 => 0x78 case _ => 0x65
  }
  function Row6(low: bv4): bv8 {
    match low
    case 0 => 0x94 case 1 => 0x89 case 2 => 0xAE case 3 => 0xB3 case 4 => 0xE0 case 5 => 0xFD case 6 => 0xDA case 7 => 0xC7
    case 8 => 0x7C case 9 => 0x61 case 10 => 0x46 case 11 => 0x5B case 12 => 0x08 case 13 => 0x15 case 14 => 0x32 case _ => 0x2F
  }
  function Row7(low: bv4): bv8 {
    match low
    case 0 => 0x59 case 1 => 0x44 case 2 => 0x63 case 3 => 0x7E case 4 => 0x2D case 5 => 0x30 case 6 => 0x17 case 7 => 0x0A
    case 8 => 0xB1 case 9 => 0xAC case 10 => 0x8B case 11 => 0x96 case 12 => 0xC5 case 13 => 0xD8 case 14 => 0xFF case _ => 0xE2
  }
  function Row8(low: bv4): bv8 {
    match low
    case 0 => 0x26 case 1 => 0x3B case 2 => 0x1C case 3 => 0x01 case 4 => 0x52 case 5 => 0x4F case 6 => 0x68 case 7 => 0x75
    case 8 => 0xCE case 9 => 0xD3 case 10 => 0xF4 case 11 => 0xE9 case 12 => 0xBA case 13 => 0xA7 case 14 => 0x80 case _ => 0x9D
  }
  function Row9(low: bv4): bv8 {
    match low
    case 0 => 0xEB case 1 => 0xF6 case 2 => 0xD1 case 3 => 0xCC case 4 => 0x9F case 5 => 0x82 case 6 => 0xA5 case 7 => 0xB8
    case 8 => 0x03 case 9 => 0x1E case 10 => 0x39 case 11 => 0x24 case 12 => 0x77 case 13 => 0x6A case 14 => 0x4D case _ => 0x50
  }
  function RowA(low: bv4): bv8 {
    match low
    case 0 => 0xA1 case 1 => 0xBC case 2 => 0x9B case 3 => 0x86 case 4 => 0xD5 case 5 => 0xC8 case 6 => 0xEF case 7 => 0xF2
    case 8 => 0x49 case 9 => 0x54 case 10 => 0x73 case 11 => 0x6E case 12 => 0x3D case 13 => 0x20 case 14 => 0x07 case _ => 0x1A
  }
  function RowB(low: bv4): bv8 {
    match low
    case 0 => 0x6C case 1 => 0x71 case 2 => 0x56 case 3 => 0x4B case 4 => 0x18 case 5 => 0x05 case 6 => 0x22 case 7 => 0x3F
    case 8 => 0x84 case 9 => 0x99 case 10 => 0xBE case 11 => 0xA3 case 12 => 0xF0 case 13 => 0xED case 14 => 0xCA case _ => 0xD7
  }
  function RowC(low: bv4): bv8 {
    match low
    case 0 => 0x35 case 1 => 0x28 case 2 => 0x0F case 3 => 0x12 case 4 => 0x41 case 5 => 0x5C case 6 => 0x7B case 7 => 0x66
    case 8 => 0xDD case 9 => 0xC0 case 10 => 0xE7 case 11 => 0xFA case 12 => 0xA9 case 13 => 0xB4 case 14 => 0x93 case _ => 0x8E
  }
  function RowD(low: bv4): bv8 {
    match low
    case 0 => 0xF8 case 1 => 0xE5 case 2 => 0xC2 case 3 => 0xDF case 4 => 0x8C case 5 => 0x91 case 6 => 0xB6 case 7 => 0xAB
    case 8 => 0x10 case 9 => 0x0D case 10 => 0x2A case 11 => 0x37 case 12 => 0x64 case 13 => 0x79 case 14 => 0x5E case _ => 0x43
  }
  function RowE(low: bv4): bv8 {
    match low
    case 0 => 0xB2 case 1 => 0xAF case 2 => 0x88 case 3 => 0x95 case 4 => 0xC6 case 5 => 0xDB case 6 => 0xFC case 7 => 0xE1
    case 8 => 0x5A case 9 => 0x47 case 10 => 0x60 case 11 => 0x7D case 12 => 0x2E case 13 => 0x33 case 14 => 0x14 case _ => 0x09
  }
  function RowF(low: bv4): bv8 {
    match low
    case 0 => 0x7F case 1 => 0x62 case 2 => 0x45 case 3 => 0x58 case 4 => 0x0B case 5 => 0x16 case 6 => 0x31 case 7 => 0x2C
    case 8 => 0x97 case 9 => 0x8A case 10 => 0xAD case 11 => 0xB0 case 12 => 0xE3 case 13 => 0xFE case 14 => 0xD9 case _ => 0xC4
  }

  function Cell(high: bv4, low: bv4): bv8 {
    match high
    case 0 => Row0(low) case 1 => Row1(low) case 2 => Row2(low) case 3 => Row3(low)
    case 4 => Row4(low) case 5 => Row5(low) case 6 => Row6(low) case 7 => Row7(low)
    case 8 => Row8(low) case 9 => Row9(low) case 10 => RowA(low) case 11 => RowB(low)
    case 12 => RowC(low) case 13 => RowD(low) case 14 => RowE(low) case _ => RowF(low)
  }

  function Table(i: bv8): bv8 {
    Cell((i >> 4) as bv4, (i & 0x0F) as bv4)
  }

  function Xor(a: bv8, b: bv8): bv8 {
    a ^ b
  }

  function Fold<T>(plus: (T, T) -> T, lookup: T -> T, c: T, s: seq<T>): T
    decreases |s|
  {
    if s == [] then c else Fold(plus, lookup, lookup(plus(c, s[0])), s[1..])
  }

  /** The way the checksum is computed: one lookup per byte. */
  function TableDriven(fcs: bv8, bytes: seq<bv8>): bv8 {
    Fold(Xor, Table, fcs, bytes)
  }

  lemma {:induction false} FoldSnoc<T>(plus: (T, T) -> T, lookup: T -> T, c: T, s: seq<T>, b: T)
    ensures Fold(plus, lookup, c, s + [b]) == lookup(plus(Fold(plus, lookup, c, s), b))
    decreases |s|
  {
    if s != [] {
      FoldSnoc(plus, lookup, lookup(plus(c, s[0])), s[1..], b);
      assert (s + [b])[1..] == s[1..] + [b];
    }
  }

  // ----- The reference: one message bit at a time, most significant bit first,
  // ----- divided by the polynomial x^8 + x^4 + x^3 + x^2 + 1 (0x1D below x^8)

  function Feedback(on: bool): bv8 {
    if on then 0x1D else 0
  }

  function Iterate<T>(step: T -> T, s: T, n: nat): T
    decreases n
  {
    if n == 0 then s else Iterate(step, step(s), n - 1)
  }

  function ShiftIn(c: bv8, bit: bool): bv8 {
    Xor(c << 1, Feedback((c & 0x80 != 0) != bit))
  }

  /** A register and a byte: the byte's top bit moves into the register. */
  function FeedBit(s: (bv8, bv8)): (bv8, bv8) {
    (ShiftIn(s.0, s.1 & 0x80 != 0), s.1 << 1)
  }

  function FeedByte(c: bv8, b: bv8): bv8 {
    Iterate(FeedBit, (c, b), 8).0
  }

  function BitSerial(c: bv8, bytes: seq<bv8>): bv8
    decreases |bytes|
  {
    if bytes == [] then c else BitSerial(FeedByte(c, bytes[0]), bytes[1..])
  }

  // ----- Each row of the table is eight shifts with no message -----

  function Shift(c: bv8): bv8 {
    Xor(c << 1, Feedback(c & 0x80 != 0))
  }

  function Shift8(c: bv8): bv8 {
    Shift(Shift(Shift(Shift(Shift(Shift(Shift(Shift(c))))))))
  }

  function CellShift8(high: bv4, low: bv4): bv8 {
    Shift8(((high as bv8) << 4) | (low as bv8))
  }

  lemma Rows01(low: bv4)
    ensures Row0(low) == CellShift8(0, low)
    ensures Row1(low) == CellShift8(1, low)
  {
  }

  lemma Rows23(low: bv4)
    ensures Row2(low) == CellShift8(2, low)
    ensures Row3(low) == CellShift8(3, low)
  {
  }

  lemma Rows45(low: bv4)
    ensures Row4(low) == CellShift8(4, low)
    ensures Row5(low) == CellShift8(5, low)
  {
  }

  lemma Rows67(low: bv4)
    ensures Row6(low) == CellShift8(6, low)
    ensures Row7(low) == CellShift8(7, low)
  {
  }

  lemma Rows89(low: bv4)
    ensures Row8(low) == CellShift8(8, low)
    ensures Row9(low) == CellShift8(9, low)
  {
  }

  lemma RowsAB(low: bv4)
    ensures RowA(low) == CellShift8(10, low)
    ensures RowB(low) == CellShift8(11, low)
  {
  }

  lemma RowsCD(low: bv4)
    ensures RowC(low) == CellShift8(12, low)
    ensures RowD(low) == CellShift8(13, low)
  {
  }

  lemma RowsEF(low: bv4)
    ensures RowE(low) == CellShift8(14, low)
    ensures RowF(low) == CellShift8(15, low)
  {
  }

  lemma Shift8Iterates(c: bv8)
    ensures Shift8(c) == Iterate(Shift, c, 8)
  {
    assert Iterate(Shift, c, 8) == Iterate(Shift, Shift(Shift(Shift(Shift(c)))), 4);
  }

  lemma CellIsShift8(high: bv4, low: bv4)
    ensures Cell(high, low) == CellShift8(high, low)
  {
    match high
    case 0 => Rows01(low); case 1 => Rows01(low); case 2 => Rows23(low); case 3 => Rows23(low);
    case 4 => Rows45(low); case 5 => Rows45(low); case 6 => Rows67(low); case 7 => Rows67(low);
    case 8 => Rows89(low); case 9 => Rows89(low); case 10 => RowsAB(low); case 11 => RowsAB(low);
    case 12 => RowsCD(low); case 13 => RowsCD(low); case 14 => RowsEF(low); case _ => RowsEF(low);
  }

  lemma Reassemble(i: bv8)
    ensures ((((i >> 4) as bv4) as bv8) << 4) | (((i & 0x0F) as bv4) as bv8) == i
  {
  }

  lemma TableIsShift8(i: bv8)
    ensures Table(i) == Shift8(i)
  {
    CellIsShift8((i >> 4) as bv4, (i & 0x0F) as bv4);
    Reassemble(i);
  }

  // ----- What one step does, eight steps do; the steps stay abstract here -----

  lemma {:induction false} IterateSimulates<S(!new), T>(f: S -> S, g: T -> T, abs: S -> T, s: S, n: nat)
    requires forall x :: abs(f(x)) == g(abs(x))
    ensures abs(Iterate(f, s, n)) == Iterate(g, abs(s), n)
    decreases n
  {
    if n > 0 {
      IterateSimulates(f, g, abs, f(s), n - 1);
    }
  }

  lemma {:induction false} IterateInjective<T(!new)>(f: T -> T, s: T, t: T, n: nat)
    requires forall x, y :: x != y ==> f(x) != f(y)
    requires s != t
    ensures Iterate(f, s, n) != Iterate(f, t, n)
    decreases n
  {
    if n > 0 {
      IterateInjective(f, f(s), f(t), n - 1);
    }
  }

  function Sum(s: (bv8, bv8)): bv8 {
    Xor(s.0, s.1)
  }

  function ShiftBoth(s: (bv8, bv8)): (bv8, bv8) {
    (Shift(s.0), Shift(s.1))
  }

  lemma XorLaws(a: bv8, b: bv8, c: bv8)
    ensures Xor(a, b) == Xor(b, a)
    ensures Xor(Xor(a, b), c) == Xor(a, Xor(b, c))
  {
    assert (a ^ b) ^ c == a ^ (b ^ c);
  }

  lemma XorLast(a: bv8, b: bv8, c: bv8)
    ensures Xor(Xor(a, b), c) == Xor(Xor(a, c), b)
  {
    XorLaws(a, b, c);
    XorLaws(a, c, b);
    XorLaws(b, c, a);
  }

  lemma XorSwap(a: bv8, b: bv8, c: bv8, d: bv8)
    ensures Xor(Xor(a, b), Xor(c, d)) == Xor(Xor(a, c), Xor(b, d))
  {
    XorLaws(a, b, Xor(c, d));
    XorLaws(b, c, d);
    XorLaws(c, b, d);
    XorLaws(a, c, Xor(b, d));
  }

  lemma BitsOfXor(c: bv8, d: bv8)
    ensures (Xor(c, d) & 0x80 != 0) == ((c & 0x80 != 0) != (d & 0x80 != 0))
    ensures Xor(c, d) << 1 == Xor(c << 1, d << 1)
  {
  }

  lemma FeedbackOfXor(p: bool, q: bool)
    ensures Feedback(p != q) == Xor(Feedback(p), Feedback(q))
  {
  }

  lemma ShiftLinear(c: bv8, d: bv8)
    ensures Shift(Xor(c, d)) == Xor(Shift(c), Shift(d))
  {
    BitsOfXor(c, d);
    FeedbackOfXor(c & 0x80 != 0, d & 0x80 != 0);
    XorSwap(c << 1, d << 1, Feedback(c & 0x80 != 0), Feedback(d & 0x80 != 0));
  }

  lemma SumsFrom(x: bv8, y: bv8, z: bv8, p: bool, q: bool)
    requires z == Xor(x, y) && p == q
    ensures Xor(Xor(x, Feedback(p)), y) == Xor(z, Feedback(q))
  {
    XorLast(x, Feedback(p), y);
  }

  lemma ShiftInSums(c: bv8, b: bv8)
    ensures Xor(ShiftIn(c, b & 0x80 != 0), b << 1) == Shift(Xor(c, b))
  {
    BitsOfXor(c, b);
    SumsFrom(c << 1, b << 1, Xor(c, b) << 1, (c & 0x80 != 0) != (b & 0x80 != 0), Xor(c, b) & 0x80 != 0);
  }

  lemma ShiftInjective(c: bv8, d: bv8)
    requires c != d
    ensures Shift(c) != Shift(d)
  {
  }

  function ShiftOut(b: bv8): bv8 {
    b << 1
  }

  function Rest(s: (bv8, bv8)): bv8 {
    s.1
  }

  lemma AllBitsShiftedOut(b: bv8)
    ensures Iterate(ShiftOut, b, 8) == 0
  {
    assert Iterate(ShiftOut, b, 8) == Iterate(ShiftOut, b << 1 << 1 << 1 << 1, 4);
    assert b << 1 << 1 << 1 << 1 << 1 << 1 << 1 << 1 == 0;
  }

  lemma FeedBitSimulates()
    ensures forall s: (bv8, bv8) :: Sum(FeedBit(s)) == Shift(Sum(s))
  {
    forall s: (bv8, bv8) ensures Sum(FeedBit(s)) == Shift(Sum(s)) {
      ShiftInSums(s.0, s.1);
    }
  }

  lemma XorZero(x: bv8)
    ensures Xor(x, 0) == x
  {
  }

  lemma FeedIterates(c: bv8, b: bv8, n: nat)
    requires Iterate(ShiftOut, b, n) == 0
    ensures Iterate(FeedBit, (c, b), n).0 == Iterate(Shift, Xor(c, b), n)
  {
    FeedBitSimulates();
    IterateSimulates(FeedBit, Shift, Sum, (c, b), n);
    IterateSimulates(FeedBit, ShiftOut, Rest, (c, b), n);
    XorZero(Iterate(FeedBit, (c, b), n).0);
  }

  lemma FeedByteIterates(c: bv8, b: bv8)
    ensures FeedByte(c, b) == Iterate(Shift, Xor(c, b), 8)
  {
    AllBitsShiftedOut(b);
    FeedIterates(c, b, 8);
  }

  lemma TableIterates(i: bv8)
    ensures Table(i) == Iterate(Shift, i, 8)
  {
    TableIsShift8(i);
    Shift8Iterates(i);
  }

  /** One lookup does what feeding the byte bit by bit does. */
  lemma LookupFeedsByte(c: bv8, b: bv8)
    ensures Table(Xor(c, b)) == FeedByte(c, b)
  {
    FeedByteIterates(c, b);
    TableIterates(Xor(c, b));
  }

  function First(s: (bv8, bv8)): bv8 {
    s.0
  }

  lemma ShiftBothSums(c: bv8, d: bv8)
    ensures Sum(ShiftBoth((c, d))) == Shift(Xor(c, d))
  {
    ShiftLinear(c, d);
  }

  lemma ShiftBothSimulates()
    ensures forall s: (bv8, bv8) :: Sum(ShiftBoth(s)) == Shift(Sum(s))
  {
    forall s: (bv8, bv8) ensures Sum(ShiftBoth(s)) == Shift(Sum(s)) {
      ShiftBothSums(s.0, s.1);
    }
  }

  lemma IterateShiftLinear(c: bv8, d: bv8, n: nat)
    ensures Iterate(Shift, Xor(c, d), n) == Xor(Iterate(Shift, c, n), Iterate(Shift, d, n))
  {
    ShiftBothSimulates();
    IterateSimulates(ShiftBoth, Shift, Sum, (c, d), n);
    IterateSimulates(ShiftBoth, Shift, First, (c, d), n);
    IterateSimulates(ShiftBoth, Shift, Rest, (c, d), n);
  }

  lemma TableLinear(c: bv8, d: bv8)
    ensures Table(Xor(c, d)) == Xor(Table(c), Table(d))
  {
    IterateShiftLinear(c, d, 8);
    TableIterates(c);
    TableIterates(d);
    TableIterates(Xor(c, d));
  }

  lemma TableInjective(c: bv8, d: bv8)
    requires c != d
    ensures Table(c) != Table(d)
  {
    forall x, y | x != y ensures Shift(x) != Shift(y) {
      ShiftInjective(x, y);
    }
    IterateInjective(Shift, c, d, 8);
    TableIterates(c);
    TableIterates(d);
  }

  // ----- What one lookup does, a message does; the lookup stays abstract here -----

  function Zip<T>(plus: (T, T) -> T, x: seq<T>, y: seq<T>): (z: seq<T>)
    requires |x| == |y|
    ensures |z| == |x| && forall i :: 0 <= i < |z| ==> z[i] == plus(x[i], y[i])
  {
    seq(|x|, i requires 0 <= i < |x| => plus(x[i], y[i]))
  }

  predicate AdditiveAt<T(==)>(plus: (T, T) -> T, lookup: T -> T, c: T, d: T) {
    lookup(plus(c, d)) == plus(lookup(c), lookup(d))
  }

  predicate SwapAt<T(==)>(plus: (T, T) -> T, a: T, b: T, c: T, d: T) {
    plus(plus(a, b), plus(c, d)) == plus(plus(a, c), plus(b, d))
  }

  lemma {:induction false} FoldAdditive<T(!new)>(plus: (T, T) -> T, lookup: T -> T, c: T, d: T, x: seq<T>, y: seq<T>)
    requires |x| == |y|
    requires forall p, q :: AdditiveAt(plus, lookup, p, q)
    requires forall p, q, u, v :: SwapAt(plus, p, q, u, v)
    ensures Fold(plus, lookup, plus(c, d), Zip(plus, x, y)) == plus(Fold(plus, lookup, c, x), Fold(plus, lookup, d, y))
    decreases |x|
  {
    if x != [] {
      var p, q := plus(c, x[0]), plus(d, y[0]);
      assert SwapAt(plus, c, d, x[0], y[0]) && AdditiveAt(plus, lookup, p, q);
      FoldAdditive(plus, lookup, lookup(p), lookup(q), x[1..], y[1..]);
      assert Zip(plus, x, y)[1..] == Zip(plus, x[1..], y[1..]);
    }
  }

  ghost predicate KeepsApart<T(!new)>(plus: (T, T) -> T, lookup: T -> T) {
    && (forall p, q :: p != q ==> lookup(p) != lookup(q))
    && (forall p, q, r :: p != q ==> plus(p, r) != plus(q, r) && plus(r, p) != plus(r, q))
  }

  lemma {:induction false} FoldRegister<T(!new)>(plus: (T, T) -> T, lookup: T -> T, c: T, d: T, s: seq<T>)
    requires KeepsApart(plus, lookup) && c != d
    ensures Fold(plus, lookup, c, s) != Fold(plus, lookup, d, s)
    decreases |s|
  {
    if s != [] {
      FoldRegister(plus, lookup, lookup(plus(c, s[0])), lookup(plus(d, s[0])), s[1..]);
    }
  }

  lemma {:induction false} FoldChange<T(!new)>(plus: (T, T) -> T, lookup: T -> T, c: T, s: seq<T>, i: nat, b: T)
    requires KeepsApart(plus, lookup) && i < |s| && b != s[i]
    ensures Fold(plus, lookup, c, s[i := b]) != Fold(plus, lookup, c, s)
    decreases i
  {
    if i == 0 {
      FoldRegister(plus, lookup, lookup(plus(c, b)), lookup(plus(c, s[0])), s[1..]);
      assert s[0 := b][1..] == s[1..];
    } else {
      FoldChange(plus, lookup, lookup(plus(c, s[0])), s[1..], i - 1, b);
      assert s[i := b][1..] == s[1..][i - 1 := b];
    }
  }

  lemma XorKeepsApart(c: bv8, d: bv8, b: bv8)
    requires c != d
    ensures Xor(c, b) != Xor(d, b) && Xor(b, c) != Xor(b, d)
  {
  }

  // ----- The laws of the checksum -----

  /** The table-driven checksum is the bit-serial CRC, for every message and start value. */
  lemma {:induction false} TableDrivenIsBitSerial(c: bv8, bytes: seq<bv8>)
    ensures TableDriven(c, bytes) == BitSerial(c, bytes)
    decreases |bytes|
  {
    if bytes != [] {
      LookupFeedsByte(c, bytes[0]);
      TableDrivenIsBitSerial(FeedByte(c, bytes[0]), bytes[1..]);
    }
  }

  /** The checksum of a difference is the difference of the checksums. */
  lemma ChecksumLinear(c: bv8, d: bv8, x: seq<bv8>, y: seq<bv8>)
    requires |x| == |y|
    ensures TableDriven(Xor(c, d), Zip(Xor, x, y)) == Xor(TableDriven(c, x), TableDriven(d, y))
  {
    forall p, q ensures AdditiveAt(Xor, Table, p, q) {
      TableLinear(p, q);
    }
    forall p, q, u, v ensures SwapAt(Xor, p, q, u, v) {
      XorSwap(p, q, u, v);
    }
    FoldAdditive(Xor, Table, c, d, x, y);
  }

  /** Changing any one byte changes the checksum. */
  lemma OneByteChangeDetected(c: bv8, bytes: seq<bv8>, i: nat, b: bv8)
    requires i < |bytes| && b != bytes[i]
    ensures TableDriven(c, bytes[i := b]) != TableDriven(c, bytes)
  {
    forall p, q | p != q ensures Table(p) != Table(q) {
      TableInjective(p, q);
    }
    forall p, q, r | p != q ensures Xor(p, r) != Xor(q, r) && Xor(r, p) != Xor(r, q) {
      XorKeepsApart(p, q, r);
    }
    FoldChange(Xor, Table, c, bytes, i, b);
  }
}
