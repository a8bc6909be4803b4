/**
 XFireDB's slot digest: the table-driven CRC-16 of xfiredb_crc16, proved to be the
 remainder of polynomial division by x^16 + x^12 + x^5 + 1 over GF(2) (section 2 of
 ITU-T Recommendation V.41), with initial value 0.
 */
module Crc16 {

  // The 256-entry constant table, sixteen entries a row.
  const ROW_0: seq<bv16> := [
    0x0000, 0x1021, 0x2042, 0x3063, 0x4084, 0x50a5, 0x60c6, 0x70e7,
    0x8108, 0x9129, 0xa14a, 0xb16b, 0xc18c, 0xd1ad, 0xe1ce, 0xf1ef]
  const ROW_1: seq<bv16> := [
    0x1231, 0x0210, 0x3273, 0x2252, 0x52b5, 0x4294, 0x72f7, 0x62d6,
    0x9339, 0x8318, 0xb37b, 0xa35a, 0xd3bd, 0xc39c, 0xf3ff, 0xe3de]
  const ROW_2: seq<bv16> := [
    0x2462, 0x3443, 0x0420, 0x1401, 0x64e6, 0x74c7, 0x44a4, 0x5485,
    0xa56a, 0xb54b, 0x8528, 0x9509, 0xe5ee, 0xf5cf, 0xc5ac, 0xd58d]
  const ROW_3: seq<bv16> := [
    0x3653, 0x2672, 0x1611, 0x0630, 0x76d7, 0x66f6, 0x5695, 0x46b4,
    0xb75b, 0xa77a, 0x9719, 0x8738, 0xf7df, 0xe7fe, 0xd79d, 0xc7bc]
  const ROW_4: seq<bv16> := [
    0x48c4, 0x58e5, 0x6886, 0x78a7, 0x0840, 0x1861, 0x2802, 0x3823,
    0xc9cc, 0xd9ed, 0xe98e, 0xf9af, 0x8948, 0x9969, 0xa90a, 0xb92b]
  const ROW_5: seq<bv16> := [
    0x5af5, 0x4ad4, 0x7ab7, 0x6a96, 0x1a71, 0x0a50, 0x3a33, 0x2a12,
    0xdbfd, 0xcbdc, 0xfbbf, 0xeb9e, 0x9b79, 0x8b58, 0xbb3b, 0xab1a]
  const ROW_6: seq<bv16> := [
    0x6ca6, 0x7c87, 0x4ce4, 0x5cc5, 0x2c22, 0x3c03, 0x0c60, 0x1c41,
    0xedae, 0xfd8f, 0xcdec, 0xddcd, 0xad2a, 0xbd0b, 0x8d68, 0x9d49]
  const ROW_7: seq<bv16> := [
    0x7e97, 0x6eb6, 0x5ed5, 0x4ef4, 0x3e13, 0x2e32, 0x1e51, 0x0e70,
    0xff9f, 0xefbe, 0xdfdd, 0xcffc, 0xbf1b, 0xaf3a, 0x9f59, 0x8f78]
  const ROW_8: seq<bv16> := [
    0x9188, 0x81a9, 0xb1ca, 0xa1eb, 0xd10c, 0xc12d, 0xf14e, 0xe16f,
    0x1080, 0x00a1, 0x30c2, 0x20e3, 0x5004, 0x4025, 0x7046, 0x6067]
  const ROW_9: seq<bv16> := [
    0x83b9, 0x9398, 0xa3fb, 0xb3da, 0xc33d, 0xd31c, 0xe37f, 0xf35e,
    0x02b1, 0x1290, 0x22f3, 0x32d2, 0x4235, 0x5214, 0x6277, 0x7256]
  const ROW_A: seq<bv16> := [
    0xb5ea, 0xa5cb, 0x95a8, 0x8589, 0xf56e, 0xe54f, 0xd52c, 0xc50d,
    0x34e2, 0x24c3, 0x14a0, 0x0481, 0x7466, 0x6447, 0x5424, 0x4405]
  const ROW_B: seq<bv16> := [
    0xa7db, 0xb7fa, 0x8799, 0x97b8, 0xe75f, 0xf77e, 0xc71d, 0xd73c,
    0x26d3, 0x36f2, 0x0691, 0x16b0, 0x6657, 0x7676, 0x4615, 0x5634]
  const ROW_C: seq<bv16> := [
    0xd94c, 0xc96d, 0xf90e, 0xe92f, 0x99c8, 0x89e9, 0xb98a, 0xa9ab,
    0x5844, 0x4865, 0x7806, 0x6827, 0x18c0, 0x08e1, 0x3882, 0x28a3]
  const ROW_D: seq<bv16> := [
    0xcb7d, 0xdb5c, 0xeb3f, 0xfb1e, 0x8bf9, 0x9bd8, 0xabbb, 0xbb9a,
    0x4a75, 0x5a54, 0x6a37, 0x7a16, 0x0af1, 0x1ad0, 0x2ab3, 0x3a92]
  const ROW_E: seq<bv16> := [
    0xfd2e, 0xed0f, 0xdd6c, 0xcd4d, 0xbdaa, 0xad8b, 0x9de8, 0x8dc9,
    0x7c26, 0x6c07, 0x5c64, 0x4c45, 0x3ca2, 0x2c83, 0x1ce0, 0x0cc1]
  const ROW_F: seq<bv16> := [
    0xef1f, 0xff3e, 0xcf5d, 0xdf7c, 0xaf9b, 0xbfba, 0x8fd9, 0x9ff8,
    0x6e17, 0x7e36, 0x4e55, 0x5e74, 0x2e93, 0x3eb2, 0x0ed1, 0x1ef0]

  function Row(r: bv16): (row: seq<bv16>)
    ensures |row| == 16
  {
    if r == 0x0 then ROW_0 else
    if r == 0x1 then ROW_1 else
    if r == 0x2 then ROW_2 else
    if r == 0x3 then ROW_3 else
    if r == 0x4 then ROW_4 else
    if r == 0x5 then ROW_5 else
    if r == 0x6 then ROW_6 else
    if r == 0x7 then ROW_7 else
    if r == 0x8 then ROW_8 else
    if r == 0x9 then ROW_9 else
    if r == 0xA then ROW_A else
    if r == 0xB then ROW_B else
    if r == 0xC then ROW_C else
    if r == 0xD then ROW_D else
    if r == 0xE then ROW_E else
    ROW_F
  }

  /** Array indexing by a nibble, without leaving the bit-vector types. */
  function At(row: seq<bv16>, c: bv16): bv16
    requires |row| == 16
  {
    if c == 0x0 then row[0x0] else
    if c == 0x1 then row[0x1] else
    if c == 0x2 then row[0x2] else
    if c == 0x3 then row[0x3] else
    if c == 0x4 then row[0x4] else
    if c == 0x5 then row[0x5] else
    if c == 0x6 then row[0x6] else
    if c == 0x7 then row[0x7] else
    if c == 0x8 then row[0x8] else
    if c == 0x9 then row[0x9] else
    if c == 0xA then row[0xA] else
    if c == 0xB then row[0xB] else
    if c == 0xC then row[0xC] else
    if c == 0xD then row[0xD] else
    if c == 0xE then row[0xE] else
    row[0xF]
  }

  /** The table entry at index x, for x below 256. */
  function TableEntry(x: bv16): bv16
    requires x < 256
  {
    At(Row(x >> 4), x & 0xF)
  }

  /** One turn of the shift register: multiply by x and reduce. */
  function Shift(crc: bv16): bv16 {
    if crc & 0x8000 != 0 then (crc << 1) ^ 0x1021 else crc << 1
  }

  function Shift8(crc: bv16): bv16 {
    Shift(Shift(Shift(Shift(Shift(Shift(Shift(Shift(crc))))))))
  }

  // ----- every table entry is eight turns of the register

  predicate Filled(f: bv16 -> bv16, row: seq<bv16>, base: bv16) {
    && |row| == 16
    && row[0x0] == f(base ^ 0x0000)
    && row[0x1] == f(base ^ 0x0100)
    && row[0x2] == f(base ^ 0x0200)
    && row[0x3] == f(base ^ 0x0300)
    && row[0x4] == f(base ^ 0x0400)
    && row[0x5] == f(base ^ 0x0500)
    && row[0x6] == f(base ^ 0x0600)
    && row[0x7] == f(base ^ 0x0700)
    && row[0x8] == f(base ^ 0x0800)
    && row[0x9] == f(base ^ 0x0900)
    && row[0xA] == f(base ^ 0x0A00)
    && row[0xB] == f(base ^ 0x0B00)
    && row[0xC] == f(base ^ 0x0C00)
    && row[0xD] == f(base ^ 0x0D00)
    && row[0xE] == f(base ^ 0x0E00)
    && row[0xF] == f(base ^ 0x0F00)
  }

  lemma Row0Filled()
    ensures Filled(Shift8, ROW_0, 0x0000)
  {
  }

  lemma Row1Filled()
    ensures Filled(Shift8, ROW_1, 0x1000)
  {
  }

  lemma Row2Filled()
    ensures Filled(Shift8, ROW_2, 0x2000)
  {
  }

  lemma Row3Filled()
    ensures Filled(Shift8, ROW_3, 0x3000)
  {
  }

  lemma Row4Filled()
    ensures Filled(Shift8, ROW_4, 0x4000)
  {
  }

  lemma Row5Filled()
    ensures Filled(Shift8, ROW_5, 0x5000)
  {
  }

  lemma Row6Filled()
    ensures Filled(Shift8, ROW_6, 0x6000)
  {
  }

  lemma Row7Filled()
    ensures Filled(Shift8, ROW_7, 0x7000)
  {
  }

  lemma Row8Filled()
    ensures Filled(Shift8, ROW_8, 0x8000)
  {
  }

  lemma Row9Filled()
    ensures Filled(Shift8, ROW_9, 0x9000)
  {
  }

  lemma RowAFilled()
    ensures Filled(Shift8, ROW_A, 0xA000)
  {
  }

  lemma RowBFilled()
    ensures Filled(Shift8, ROW_B, 0xB000)
  {
  }

  lemma RowCFilled()
    ensures Filled(Shift8, ROW_C, 0xC000)
  {
  }

  lemma RowDFilled()
    ensures Filled(Shift8, ROW_D, 0xD000)
  {
  }

  lemma RowEFilled()
    ensures Filled(Shift8, ROW_E, 0xE000)
  {
  }

  lemma RowFFilled()
    ensures Filled(Shift8, ROW_F, 0xF000)
  {
  }

  lemma FilledAt(f: bv16 -> bv16, row: seq<bv16>, base: bv16, c: bv16)
    requires c < 16 && Filled(f, row, base)
    ensures At(row, c) == f(base ^ (c << 8))
  {
  }

  lemma RowFilled(r: bv16)
    requires r < 16
    ensures Filled(Shift8, Row(r), r << 12)
  {
    if r < 8 {
      LowRowFilled(r);
    } else {
      HighRowFilled(r);
    }
  }

  lemma LowRowFilled(r: bv16)
    requires r < 8
    ensures Filled(Shift8, Row(r), r << 12)
  {
    if r == 0x0 { Row0Filled(); }
    else if r == 0x1 { Row1Filled(); }
    else if r == 0x2 { Row2Filled(); }
    else if r == 0x3 { Row3Filled(); }
    else if r == 0x4 { Row4Filled(); }
    else if r == 0x5 { Row5Filled(); }
    else if r == 0x6 { Row6Filled(); }
    else if r == 0x7 { Row7Filled(); }
  }

  lemma HighRowFilled(r: bv16)
    requires 8 <= r < 16
    ensures Filled(Shift8, Row(r), r << 12)
  {
    if r == 0x8 { Row8Filled(); }
    else if r == 0x9 { Row9Filled(); }
    else if r == 0xA { RowAFilled(); }
    else if r == 0xB { RowBFilled(); }
    else if r == 0xC { RowCFilled(); }
    else if r == 0xD { RowDFilled(); }
    else if r == 0xE { RowEFilled(); }
    else if r == 0xF { RowFFilled(); }
  }

  lemma TableIsShift8(x: bv16)
    requires x < 256
    ensures TableEntry(x) == Shift8(x << 8)
  {
    var r, c := x >> 4, x & 0xF;
    RowFilled(r);
    FilledAt(Shift8, Row(r), r << 12, c);
    Nibbles(x);
  }

  lemma Nibbles(x: bv16)
    requires x < 256
    ensures ((x >> 4) << 12) ^ ((x & 0xF) << 8) == x << 8 && x >> 4 < 16 && x & 0xF < 16
  {
  }

  // ----- bit sequences, most significant first, as polynomials over GF(2)

  type Bits = seq<bool>

  function Zeros(n: nat): (z: Bits)
    ensures |z| == n && forall i :: 0 <= i < n ==> !z[i]
  {
    seq(n, i => false)
  }

  function Xor(a: Bits, b: Bits): (r: Bits)
    requires |a| == |b|
    ensures |r| == |a| && forall i :: 0 <= i < |a| ==> r[i] == (a[i] != b[i])
  {
    seq(|a|, i requires 0 <= i < |a| => a[i] != b[i])
  }

  /** x^12 + x^5 + 1, the generator without its leading x^16. */
  const GENERATOR: Bits := [false, false, false, true, false, false, false, false,
                            false, false, true, false, false, false, false, true]

  /** The i-th bit of x, counted from the most significant one. */
  function BitAt(x: bv16, i: nat): bool
    decreases i
  {
    if i == 0 then x & 0x8000 != 0 else BitAt(x << 1, i - 1)
  }

  /** The 16-bit register, bit by bit. */
  function ToBits(x: bv16): (r: Bits)
    ensures |r| == 16
  {
    seq(16, i requires 0 <= i < 16 => BitAt(x, i))
  }

  function ByteBits(b: bv8): (r: Bits)
    ensures |r| == 8
  {
    ToBits((b as bv16) << 8)[..8]
  }

  function MessageBits(str: seq<bv8>): (bits: Bits)
    ensures |bits| == 8 * |str|
  {
    if str == [] then [] else MessageBits(str[..|str| - 1]) + ByteBits(str[|str| - 1])
  }

  // ----- the bit-serial register

  function Turn(r: Bits): (r': Bits)
    requires |r| == 16
    ensures |r'| == 16
  {
    Xor(r[1..] + [false], if r[0] then GENERATOR else Zeros(16))
  }

  function Turns(r: Bits, n: nat): (r': Bits)
    requires |r| == 16
    ensures |r'| == 16
    decreases n
  {
    if n == 0 then r else Turns(Turn(r), n - 1)
  }

  /** One step of long division: the quotient bit is the top bit of the register plus the message bit. */
  function Feed(r: Bits, bit: bool): (r': Bits)
    requires |r| == 16
    ensures |r'| == 16
  {
    Turn(r[0 := r[0] != bit])
  }

  function FeedAll(r: Bits, bits: Bits): (r': Bits)
    requires |r| == 16
    ensures |r'| == 16
    decreases |bits|
  {
    if bits == [] then r else FeedAll(Feed(r, bits[0]), bits[1..])
  }

  lemma {:induction false} FeedAllConcat(r: Bits, a: Bits, b: Bits)
    requires |r| == 16
    ensures FeedAll(r, a + b) == FeedAll(FeedAll(r, a), b)
    decreases |a|
  {
    if a == [] {
      assert a + b == b;
    } else {
      assert (a + b)[1..] == a[1..] + b;
      FeedAllConcat(Feed(r, a[0]), a[1..], b);
    }
  }

  lemma {:induction false} TurnsLinear(r: Bits, s: Bits, n: nat)
    requires |r| == |s| == 16
    ensures Turns(Xor(r, s), n) == Xor(Turns(r, n), Turns(s, n))
    decreases n
  {
    if n > 0 {
      assert Turn(Xor(r, s)) == Xor(Turn(r), Turn(s));
      TurnsLinear(Turn(r), Turn(s), n - 1);
    }
  }

  /** Data waiting in front of the register is fed to it, one bit a turn. */
  lemma {:induction false} TurnsFeed(r: Bits, d: Bits, n: nat)
    requires |r| == |d| == 16 && n <= 16
    ensures Turns(Xor(r, d), n) == Xor(FeedAll(r, d[..n]), d[n..] + Zeros(n))
    decreases n
  {
    if n == 0 {
      assert d[..0] == [] && d[0..] + Zeros(0) == d;
    } else {
      var d' := d[1..] + [false];
      assert Turn(Xor(r, d)) == Xor(Feed(r, d[0]), d');
      TurnsFeed(Feed(r, d[0]), d', n - 1);
      assert d[..n][1..] == d'[..n - 1];
      assert d'[n - 1..] + Zeros(n - 1) == d[n..] + Zeros(n);
    }
  }

  lemma {:induction false} FeedZeros(n: nat)
    ensures FeedAll(Zeros(16), Zeros(n)) == Zeros(16)
  {
    if n > 0 {
      assert Feed(Zeros(16), false) == Zeros(16);
      assert Zeros(n)[1..] == Zeros(n - 1);
      FeedZeros(n - 1);
    }
  }

  // ----- the table step is eight turns

  lemma TopOfXor(z: bv16, x: bv16, y: bv16)
    requires z == x ^ y
    ensures BitAt(z, 0) == (BitAt(x, 0) != BitAt(y, 0))
  {
  }

  lemma TailOfXor(z: bv16, x: bv16, y: bv16)
    requires z == x ^ y
    ensures z << 1 == (x << 1) ^ (y << 1)
  {
  }

  lemma BitStep(x: bv16, i: nat)
    requires i > 0
    ensures BitAt(x, i) == BitAt(x << 1, i - 1)
  {
  }

  lemma {:induction false} BitOfXor(z: bv16, x: bv16, y: bv16, i: nat)
    requires z == x ^ y
    ensures BitAt(z, i) == (BitAt(x, i) != BitAt(y, i))
    decreases i
  {
    if i == 0 {
      TopOfXor(z, x, y);
    } else {
      TailOfXor(z, x, y);
      BitOfXor(z << 1, x << 1, y << 1, i - 1);
      BitStep(z, i);
      BitStep(x, i);
      BitStep(y, i);
    }
  }

  lemma BitsOfXor(z: bv16, x: bv16, y: bv16)
    requires z == x ^ y
    ensures ToBits(z) == Xor(ToBits(x), ToBits(y))
  {
    forall i | 0 <= i < 16
      ensures ToBits(z)[i] == (ToBits(x)[i] != ToBits(y)[i])
    {
      BitOfXor(z, x, y, i);
    }
  }

  lemma {:induction false} BitOfZero(i: nat)
    ensures !BitAt(0, i)
  {
    if i > 0 {
      BitOfZero(i - 1);
    }
  }

  lemma ZeroBits()
    ensures ToBits(0) == Zeros(16)
  {
    forall i | 0 <= i < 16
      ensures !ToBits(0)[i]
    {
      BitOfZero(i);
    }
  }

  lemma BitOfByteShift(x: bv16, i: nat)
    ensures BitAt(x << 8, i) == BitAt(x, i + 8)
  {
    assert BitAt(x, i + 8) == BitAt(x << 1, i + 7);
    assert BitAt(x << 1, i + 7) == BitAt(x << 2, i + 6);
    assert BitAt(x << 2, i + 6) == BitAt(x << 3, i + 5);
    assert BitAt(x << 3, i + 5) == BitAt(x << 4, i + 4);
    assert BitAt(x << 4, i + 4) == BitAt(x << 5, i + 3);
    assert BitAt(x << 5, i + 3) == BitAt(x << 6, i + 2);
    assert BitAt(x << 6, i + 2) == BitAt(x << 7, i + 1);
  }

  lemma BitBeyond(x: bv16, i: nat)
    requires i >= 16
    ensures !BitAt(x, i)
  {
    BitOfByteShift(x, i - 8);
    BitOfByteShift(x << 8, i - 16);
    assert (x << 8) << 8 == 0;
    BitOfZero(i - 16);
  }

  lemma BitsOfShift(x: bv16)
    ensures ToBits(x << 1) == ToBits(x)[1..] + [false]
  {
    forall i | 0 <= i < 16
      ensures ToBits(x << 1)[i] == (ToBits(x)[1..] + [false])[i]
    {
      assert BitAt(x << 1, i) == BitAt(x, i + 1);
      BitBeyond(x, 16);
    }
  }

  lemma GeneratorBits()
    ensures ToBits(0x1021) == GENERATOR
  {
    var b, c := ToBits(0x1021), ToBits(0x2100);
    assert !b[0] && !b[1] && !b[2] && b[3] && !b[4] && !b[5] && !b[6] && !b[7];
    assert !c[0] && !c[1] && c[2] && !c[3] && !c[4] && !c[5] && !c[6] && c[7];
    BitsOfByteShift(0x1021);
    assert b[8..] == c[..8];
    assert b == b[..8] + b[8..];
  }

  lemma ShiftIsTurn(x: bv16)
    ensures ToBits(Shift(x)) == Turn(ToBits(x))
  {
    BitsOfShift(x);
    BitsOfXor((x << 1) ^ 0x1021, x << 1, 0x1021);
    GeneratorBits();
    XorZeros(ToBits(x << 1));
  }

  lemma XorZeros(r: Bits)
    ensures Xor(r, Zeros(|r|)) == r && Xor(Zeros(|r|), r) == r
  {
  }

  lemma Shift8IsTurns(x: bv16)
    ensures ToBits(Shift8(x)) == Turns(ToBits(x), 8)
  {
    var x1 := Shift(x);
    var x2 := Shift(x1);
    var x3 := Shift(x2);
    var x4 := Shift(x3);
    var x5 := Shift(x4);
    var x6 := Shift(x5);
    var x7 := Shift(x6);
    ShiftIsTurn(x);
    ShiftIsTurn(x1);
    ShiftIsTurn(x2);
    ShiftIsTurn(x3);
    ShiftIsTurn(x4);
    ShiftIsTurn(x5);
    ShiftIsTurn(x6);
    ShiftIsTurn(x7);
    assert Turns(ToBits(x), 8) == Turns(ToBits(x2), 6) == Turns(ToBits(x4), 4) == Turns(ToBits(x6), 2);
  }

  /** Eight places to the left, the low byte comes up and zeros follow. */
  lemma BitsOfByteShift(x: bv16)
    ensures ToBits(x << 8) == ToBits(x)[8..] + Zeros(8)
  {
    forall i | 0 <= i < 16
      ensures ToBits(x << 8)[i] == (ToBits(x)[8..] + Zeros(8))[i]
    {
      BitOfByteShift(x, i);
      if i >= 8 {
        BitBeyond(x, i + 8);
      }
    }
  }

  lemma BitsOfAligned(x: bv16, crc: bv16, high: bv16, low: bv16, d: bv16)
    requires x << 8 == high ^ d && high == crc ^ low && low < 256
    ensures ToBits(x << 8) == Xor(ToBits(crc)[..8], ToBits(d)[..8]) + Zeros(8)
  {
    BitsOfByteShift(x);
    BitsOfXor(x << 8, high, d);
    BitsOfXor(high, crc, low);
    LowByteIsClear(low);
  }

  /** The index of the look-up is the register's high byte with the message byte in front of it. */
  lemma IndexSplits(crc: bv16, b: bv8) returns (x: bv16, high: bv16, low: bv16, d: bv16)
    ensures x == ((crc >> 8) ^ (b as bv16)) & 0x00FF && d == (b as bv16) << 8
    ensures x < 256 && low < 256 && high == crc ^ low && x << 8 == high ^ d
  {
    x, low, d := ((crc >> 8) ^ (b as bv16)) & 0x00FF, crc & 0x00FF, (b as bv16) << 8;
    high := crc ^ low;
  }

  /** A value below the bound has its top bit clear, and so after i more places if the bound leaves room. */
  predicate Room(bound: bv16, i: nat)
    decreases i
  {
    if i == 0 then bound <= 0x8000 else bound <= 0x4000 && Room(bound << 1, i - 1)
  }

  lemma {:induction false} BitOfSmall(x: bv16, bound: bv16, i: nat)
    requires x < bound && Room(bound, i)
    ensures !BitAt(x, i)
    decreases i
  {
    if i > 0 {
      assert x << 1 < bound << 1;
      BitOfSmall(x << 1, bound << 1, i - 1);
    }
  }

  lemma LowByteIsClear(x: bv16)
    requires x < 256
    ensures ToBits(x)[..8] == Zeros(8)
  {
    assert Room(256, 0) && Room(256, 1) && Room(256, 2) && Room(256, 3);
    assert Room(256, 4) && Room(256, 5) && Room(256, 6) && Room(256, 7);
    forall i | 0 <= i < 8
      ensures !ToBits(x)[i]
    {
      assert i == 0 || i == 1 || i == 2 || i == 3 || i == 4 || i == 5 || i == 6 || i == 7;
      BitOfSmall(x, 256, i);
    }
  }

  /** The loop body's new register: one table look-up and one xor. */
  function TableStep(crc: bv16, b: bv8): bv16 {
    (crc << 8) ^ TableEntry(((crc >> 8) ^ (b as bv16)) & 0x00FF)
  }

  lemma TableStepFeeds(crc: bv16, b: bv8)
    ensures ToBits(TableStep(crc, b)) == FeedAll(ToBits(crc), ByteBits(b))
  {
    var x, high, low, d := IndexSplits(crc, b);
    BitsOfAligned(x, crc, high, low, d);
    LookupFeeds(crc, x, ToBits(d)[..8]);
  }

  lemma LookupFeeds(crc: bv16, x: bv16, data: Bits)
    requires x < 256 && |data| == 8
    requires ToBits(x << 8) == Xor(ToBits(crc)[..8], data) + Zeros(8)
    ensures ToBits((crc << 8) ^ TableEntry(x)) == FeedAll(ToBits(crc), data)
  {
    var bits := ToBits(crc);
    LookupBits(crc, x);
    EightTurns(bits[..8], bits[8..], data);
    Halves(bits);
  }

  /** The new register in bits: the low byte moved up, and eight turns of the index. */
  lemma LookupBits(crc: bv16, x: bv16)
    requires x < 256
    ensures ToBits((crc << 8) ^ TableEntry(x)) == Xor(ToBits(crc)[8..] + Zeros(8), Turns(ToBits(x << 8), 8))
  {
    TableIsShift8(x);
    Shift8IsTurns(x << 8);
    BitsOfXor((crc << 8) ^ TableEntry(x), crc << 8, TableEntry(x));
    BitsOfByteShift(crc);
  }

  lemma Halves(bits: Bits)
    requires |bits| == 16
    ensures bits[..8] + bits[8..] == bits
  {
  }

  /** The same step on bits: turn the high byte with the data in front of it, and let the low byte move up. */
  lemma EightTurns(high: Bits, low: Bits, data: Bits)
    requires |high| == |low| == |data| == 8
    ensures Xor(low + Zeros(8), Turns(Xor(high, data) + Zeros(8), 8)) == FeedAll(high + low, data)
  {
    DataInFront(high + low, data);
    SplitXor(high, low, data);
    TurnsLinear(Zeros(8) + low, Xor(high, data) + Zeros(8), 8);
    LowByteMoves(low);
  }

  /** Turning a register with the data added in front feeds the data. */
  lemma DataInFront(register: Bits, data: Bits)
    requires |register| == 16 && |data| == 8
    ensures Turns(Xor(register, data + Zeros(8)), 8) == FeedAll(register, data)
  {
    var front := data + Zeros(8);
    TurnsFeed(register, front, 8);
    assert front[..8] == data && front[8..] + Zeros(8) == Zeros(16);
    XorZeros(FeedAll(register, data));
  }

  lemma SplitXor(high: Bits, low: Bits, data: Bits)
    requires |high| == |low| == |data| == 8
    ensures Xor(high + low, data + Zeros(8)) == Xor(Zeros(8) + low, Xor(high, data) + Zeros(8))
  {
  }

  lemma LowByteMoves(low: Bits)
    requires |low| == 8
    ensures Turns(Zeros(8) + low, 8) == low + Zeros(8)
  {
    var d := Zeros(8) + low;
    TurnsFeed(Zeros(16), d, 8);
    FeedZeros(8);
    XorZeros(d);
    XorZeros(low + Zeros(8));
    assert d[..8] == Zeros(8) && d[8..] == low;
  }

  // ----- the loop

  /** xfiredb_crc16. */
  method Compute(str: seq<bv8>) returns (crc: bv16)
    ensures ToBits(crc) == FeedAll(Zeros(16), MessageBits(str))
  {
    crc := 0;
    ZeroBits();
    for i := 0 to |str|
      invariant ToBits(crc) == FeedAll(Zeros(16), MessageBits(str[..i]))
    {
      TableStepFeeds(crc, str[i]);
      FeedAllConcat(Zeros(16), MessageBits(str[..i]), ByteBits(str[i]));
      assert str[..i + 1][..i] == str[..i];
      crc := TableStep(crc, str[i]);
    }
    assert str[..|str|] == str;
  }

  // ----- the register holds the remainder of polynomial division

  /** The product of q and the generator. */
  function TimesGenerator(q: Bits): (p: Bits)
    ensures |p| == |q| + 16
  {
    if q == [] then Zeros(16)
    else
      var n := |q| - 1;
      Xor(TimesGenerator(q[..n]) + [false], Zeros(n) + (if q[n] then [true] + GENERATOR else Zeros(17)))
  }

  /** The message times x^16 is quotient times generator plus remainder. */
  ghost predicate Divides(message: Bits, quotient: Bits, remainder: Bits)
    requires |remainder| == 16
  {
    && |quotient| == |message|
    && message + Zeros(16) == Xor(TimesGenerator(quotient), Zeros(|message|) + remainder)
  }

  lemma {:induction false} DivisionStep(message: Bits, quotient: Bits, r: Bits, bit: bool)
    requires |r| == 16 && Divides(message, quotient, r)
    ensures Divides(message + [bit], quotient + [r[0] != bit], Feed(r, bit))
  {
    var n := |message|;
    var top := r[0] != bit;
    var q' := quotient + [top];
    assert q'[..n] == quotient;
    var lhs := message + [bit] + Zeros(16);
    var rhs := Xor(TimesGenerator(q'), Zeros(n + 1) + Feed(r, bit));
    var was := message + Zeros(16);
    forall i | 0 <= i < n + 17
      ensures lhs[i] == rhs[i]
    {
      if i < n {
        assert lhs[i] == was[i];
      } else if i == n {
        assert was[n] == false;
      } else if i < n + 16 {
        assert was[i] == false;
        assert Feed(r, bit)[i - n - 1] == (r[i - n] != (top && GENERATOR[i - n - 1]));
      } else {
        assert Feed(r, bit)[15] == (top && GENERATOR[15]);
      }
    }
    assert lhs == rhs;
  }

  lemma {:induction false} FedRegisterIsRemainder(message: Bits)
    ensures exists q :: Divides(message, q, FeedAll(Zeros(16), message))
  {
    if message == [] {
      XorZeros(Zeros(16));
      assert Zeros(0) + Zeros(16) == Zeros(16) && [] + Zeros(16) == Zeros(16);
      assert FeedAll(Zeros(16), message) == Zeros(16);
      var none: Bits := [];
      assert Divides(message, none, Zeros(16));
    } else {
      var n := |message| - 1;
      var prefix, bit := message[..n], message[n];
      assert message == prefix + [bit];
      FedRegisterIsRemainder(prefix);
      var q :| Divides(prefix, q, FeedAll(Zeros(16), prefix));
      FeedAllConcat(Zeros(16), prefix, [bit]);
      DivisionStep(prefix, q, FeedAll(Zeros(16), prefix), bit);
    }
  }

  lemma {:induction false} TimesGeneratorLinear(p: Bits, q: Bits)
    requires |p| == |q|
    ensures TimesGenerator(Xor(p, q)) == Xor(TimesGenerator(p), TimesGenerator(q))
    decreases |p|
  {
    if p != [] {
      var n := |p| - 1;
      assert Xor(p, q)[..n] == Xor(p[..n], q[..n]);
      TimesGeneratorLinear(p[..n], q[..n]);
    } else {
      XorZeros(Zeros(16));
    }
  }

  /** A product whose leading bits are all clear is the product of zero. */
  lemma {:induction false} OnlyZeroVanishes(q: Bits)
    requires forall i :: 0 <= i < |q| ==> !TimesGenerator(q)[i]
    ensures q == Zeros(|q|) && TimesGenerator(q) == Zeros(|q| + 16)
    decreases |q|
  {
    if q != [] {
      var n := |q| - 1;
      assert forall i :: 0 <= i < n ==> TimesGenerator(q)[i] == TimesGenerator(q[..n])[i];
      OnlyZeroVanishes(q[..n]);
      assert TimesGenerator(q)[n] == q[n];
      assert q == q[..n] + [q[n]];
    }
  }

  /** The remainder is unique, so the digest is the remainder. */
  lemma FedRegisterIsTheRemainder(message: Bits, q: Bits, r: Bits)
    requires |r| == 16 && Divides(message, q, r)
    ensures r == FeedAll(Zeros(16), message)
  {
    var n, s := |message|, FeedAll(Zeros(16), message);
    FedRegisterIsRemainder(message);
    var p :| Divides(message, p, s);
    TimesGeneratorLinear(p, q);
    var a, b := Zeros(n) + s, Zeros(n) + r;
    var lhs := message + Zeros(16);
    forall i | 0 <= i < n + 16
      ensures TimesGenerator(Xor(p, q))[i] == (a[i] != b[i])
    {
      assert lhs[i] == (TimesGenerator(p)[i] != a[i]) == (TimesGenerator(q)[i] != b[i]);
    }
    OnlyZeroVanishes(Xor(p, q));
    forall i | 0 <= i < 16
      ensures s[i] == r[i]
    {
      assert a[n + i] == s[i] && b[n + i] == r[i];
    }
  }
}
