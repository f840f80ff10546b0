/** The frame check sequence lookup table of src/smanet.cpp, kept in rows of sixteen. */
module FcsTable {

  function Row0(i: bv8): bv16 {
    match i
    case 0 => 0x0000 case 1 => 0x1189 case 2 => 0x2312 case 3 => 0x329b
    case 4 => 0x4624 case 5 => 0x57ad case 6 => 0x6536 case 7 => 0x74bf
    case 8 => 0x8c48 case 9 => 0x9dc1 case 10 => 0xaf5a case 11 => 0xbed3
    case 12 => 0xca6c case 13 => 0xdbe5 case 14 => 0xe97e case _ => 0xf8f7
  }

  function Row1(i: bv8): bv16 {
    match i
    case 0 => 0x1081 case 1 => 0x0108 case 2 => 0x3393 case 3 => 0x221a
    case 4 => 0x56a5 case 5 => 0x472c case 6 => 0x75b7 case 7 => 0x643e
    case 8 => 0x9cc9 case 9 => 0x8d40 case 10 => 0xbfdb case 11 => 0xae52
    case 12 => 0xdaed case 13 => 0xcb64 case 14 => 0xf9ff case _ => 0xe876
  }

  function Row2(i: bv8): bv16 {
    match i
    case 0 => 0x2102 case 1 => 0x308b case 2 => 0x0210 case 3 => 0x1399
    case 4 => 0x6726 case 5 => 0x76af case 6 => 0x4434 case 7 => 0x55bd
    case 8 => 0xad4a case 9 => 0xbcc3 case 10 => 0x8e58 case 11 => 0x9fd1
    case 12 => 0xeb6e case 13 => 0xfae7 case 14 => 0xc87c case _ => 0xd9f5
  }

  function Row3(i: bv8): bv16 {
    match i
    case 0 => 0x3183 case 1 => 0x200a case 2 => 0x1291 case 3 => 0x0318
    case 4 => 0x77a7 case 5 => 0x662e case 6 => 0x54b5 case 7 => 0x453c
    case 8 => 0xbdcb case 9 => 0xac42 case 10 => 0x9ed9 case 11 => 0x8f50
    case 12 => 0xfbef case 13 => 0xea66 case 14 => 0xd8fd case _ => 0xc974
  }

  function Row4(i: bv8): bv16 {
    match i
    case 0 => 0x4204 case 1 => 0x538d case 2 => 0x6116 case 3 => 0x709f
    case 4 => 0x0420 case 5 => 0x15a9 case 6 => 0x2732 case 7 => 0x36bb
    case 8 => 0xce4c case 9 => 0xdfc5 case 10 => 0xed5e case 11 => 0xfcd7
    case 12 => 0x8868 case 13 => 0x99e1 case 14 => 0xab7a case _ => 0xbaf3
  }

  function Row5(i: bv8): bv16 {
    match i
    case 0 => 0x5285 case 1 => 0x430c case 2 => 0x7197 case 3 => 0x601e
    case 4 => 0x14a1 case 5 => 0x0528 case 6 => 0x37b3 case 7 => 0x263a
    case 8 => 0xdecd case 9 => 0xcf44 case 10 => 0xfddf case 11 => 0xec56
    case 12 => 0x98e9 case 13 => 0x8960 case 14 => 0xbbfb case _ => 0xaa72
  }

  function Row6(i: bv8): bv16 {
    match i
    case 0 => 0x6306 case 1 => 0x728f case 2 => 0x4014 case 3 => 0x519d
    case 4 => 0x2522 case 5 => 0x34ab case 6 => 0x0630 case 7 => 0x17b9
    case 8 => 0xef4e case 9 => 0xfec7 case 10 => 0xcc5c case 11 => 0xddd5
    case 12 => 0xa96a case 13 => 0xb8e3 case 14 => 0x8a78 case _ => 0x9bf1
  }

  function Row7(i: bv8): bv16 {
    match i
    case 0 => 0x7387 case 1 => 0x620e case 2 => 0x5095 case 3 => 0x411c
    case 4 => 0x35a3 case 5 => 0x242a case 6 => 0x16b1 case 7 => 0x0738
    case 8 => 0xffcf case 9 => 0xee46 case 10 => 0xdcdd case 11 => 0xcd54
    case 12 => 0xb9eb case 13 => 0xa862 case 14 => 0x9af9 case _ => 0x8b70
  }

  function Row8(i: bv8): bv16 {
    match i
    case 0 => 0x8408 case 1 => 0x9581 case 2 => 0xa71a case 3 => 0xb693
    case 4 => 0xc22c case 5 => 0xd3a5 case 6 => 0xe13e case 7 => 0xf0b7
    case 8 => 0x0840 case 9 => 0x19c9 case 10 => 0x2b52 case 11 => 0x3adb
    case 12 => 0x4e64 case 13 => 0x5fed case 14 => 0x6d76 case _ => 0x7cff
  }

  function Row9(i: bv8): bv16 {
    match i
    case 0 => 0x9489 case 1 => 0x8500 case 2 => 0xb79b case 3 => 0xa612
    case 4 => 0xd2ad case 5 => 0xc324 case 6 => 0xf1bf case 7 => 0xe036
    case 8 => 0x18c1 case 9 => 0x0948 case 10 => 0x3bd3 case 11 => 0x2a5a
    case 12 => 0x5ee5 case 13 => 0x4f6c case 14 => 0x7df7 case _ => 0x6c7e
  }

  function RowA(i: bv8): bv16 {
    match i
    case 0 => 0xa50a case 1 => 0xb483 case 2 => 0x8618 case 3 => 0x9791
    case 4 => 0xe32e case 5 => 0xf2a7 case 6 => 0xc03c case 7 => 0xd1b5
    case 8 => 0x2942 case 9 => 0x38cb case 10 => 0x0a50 case 11 => 0x1bd9
    case 12 => 0x6f66 case 13 => 0x7eef case 14 => 0x4c74 case _ => 0x5dfd
  }

  function RowB(i: bv8): bv16 {
    match i
    case 0 => 0xb58b case 1 => 0xa402 case 2 => 0x9699 case 3 => 0x8710
    case 4 => 0xf3af case 5 => 0xe226 case 6 => 0xd0bd case 7 => 0xc134
    case 8 => 0x39c3 case 9 => 0x284a case 10 => 0x1ad1 case 11 => 0x0b58
    case 12 => 0x7fe7 case 13 => 0x6e6e case 14 => 0x5cf5 case _ => 0x4d7c
  }

  function RowC(i: bv8): bv16 {
    match i
    case 0 => 0xc60c case 1 => 0xd785 case 2 => 0xe51e case 3 => 0xf497
    case 4 => 0x8028 case 5 => 0x91a1 case 6 => 0xa33a case 7 => 0xb2b3
    case 8 => 0x4a44 case 9 => 0x5bcd case 10 => 0x6956 case 11 => 0x78df
    case 12 => 0x0c60 case 13 => 0x1de9 case 14 => 0x2f72 case _ => 0x3efb
  }

  function RowD(i: bv8): bv16 {
    match i
    case 0 => 0xd68d case 1 => 0xc704 case 2 => 0xf59f case 3 => 0xe416
    case 4 => 0x90a9 case 5 => 0x8120 case 6 => 0xb3bb case 7 => 0xa232
    case 8 => 0x5ac5 case 9 => 0x4b4c case 10 => 0x79d7 case 11 => 0x685e
    case 12 => 0x1ce1 case 13 => 0x0d68 case 14 => 0x3ff3 case _ => 0x2e7a
  }

  function RowE(i: bv8): bv16 {
    match i
    case 0 => 0xe70e case 1 => 0xf687 case 2 => 0xc41c case 3 => 0xd595
    case 4 => 0xa12a case 5 => 0xb0a3 case 6 => 0x8238 case 7 => 0x93b1
    case 8 => 0x6b46 case 9 => 0x7acf case 10 => 0x4854 case 11 => 0x59dd
    case 12 => 0x2d62 case 13 => 0x3ceb case 14 => 0x0e70 case _ => 0x1ff9
  }

  function RowF(i: bv8): bv16 {
    match i
    case 0 => 0xf78f case 1 => 0xe606 case 2 => 0xd49d case 3 => 0xc514
    case 4 => 0xb1ab case 5 => 0xa022 case 6 => 0x92b9 case 7 => 0x8330
    case 8 => 0x7bc7 case 9 => 0x6a4e case 10 => 0x58d5 case 11 => 0x495c
    case 12 => 0x3de3 case 13 => 0x2c6a case 14 => 0x1ef1 case _ => 0x0f78
  }

  /** Entry `k` of the 256-entry table. */
  function Table(k: bv8): bv16 {
    var i := k & 0x0f;
    match k >> 4
    case 0 => Row0(i) case 1 => Row1(i) case 2 => Row2(i) case 3 => Row3(i)
    case 4 => Row4(i) case 5 => Row5(i) case 6 => Row6(i) case 7 => Row7(i)
    case 8 => Row8(i) case 9 => Row9(i) case 10 => RowA(i) case 11 => RowB(i)
    case 12 => RowC(i) case 13 => RowD(i) case 14 => RowE(i) case _ => RowF(i)
  }

  /** One step of the register as arithmetic on a word: the bit that falls out is fed back into
      bits 15, 10 and 3, the reflected polynomial 0x8408. */
  function Bit(c: bv16): bv16 {
    var out := c & 1;
    (c >> 1) ^ (out << 15) ^ (out << 10) ^ (out << 3)
  }

  function Bits2(c: bv16): bv16 { Bit(Bit(c)) }

  function Bits4(c: bv16): bv16 { Bits2(Bits2(c)) }

  function Bits8(c: bv16): bv16 { Bits4(Bits4(c)) }

  /** Four steps at once. */
  function Fast4(c: bv16): bv16 {
    var n := c & 15;
    (c >> 4) ^ (n << 12) ^ (n << 7) ^ n
  }

  function Spread(n: bv16): bv16 {
    var y := (n ^ (n << 4)) & 0xff;
    (y << 8) ^ (y << 3) ^ (y >> 4)
  }

  /** Eight steps at once. */
  function Fast8(c: bv16): bv16 { (c >> 8) ^ Spread(c & 0xff) }

  lemma Fast4IsFourBits(c: bv16)
    ensures Fast4(c) == Bits4(c)
  {
  }

  lemma Fast8DiffersNowhere(c: bv16)
    ensures Fast8(c) ^ Fast4(Fast4(c)) == 0
  {
  }

  lemma EqualIfXorZero(c: bv16, d: bv16)
    requires c ^ d == 0
    ensures c == d
  {
  }

  lemma Fast8IsEightBits(c: bv16)
    ensures Fast8(c) == Bits8(c)
  {
    Fast8DiffersNowhere(c);
    EqualIfXorZero(Fast8(c), Fast4(Fast4(c)));
    Fast4IsFourBits(c);
    Fast4IsFourBits(Bits4(c));
  }

  lemma TableLowHalf(k: bv8)
    requires k < 0x80
    ensures Table(k) == Fast8(k as bv16)
  {
  }

  lemma TableHighHalf(k: bv8)
    requires k >= 0x80
    ensures Table(k) == Fast8(k as bv16)
  {
  }

  /** Every table entry is what eight bit steps make of its index. */
  lemma TableIsBitSerial(k: bv8)
    ensures Table(k) == Bits8(k as bv16)
  {
    if k < 0x80 {
      TableLowHalf(k);
    } else {
      TableHighHalf(k);
    }
    Fast8IsEightBits(k as bv16);
  }

  /** The high byte is only shifted, it feeds nothing back. */
  lemma HighByteShifts(c: bv16)
    ensures (c >> 8) ^ Fast8(c & 0xff) == Fast8(c)
  {
    LowByteAlone(c & 0xff, Spread(c & 0xff));
  }

  lemma LowByteAlone(n: bv16, s: bv16)
    requires n == n & 0xff
    ensures (n >> 8) ^ s == s
  {
  }

  /** The step the program takes: one table lookup for each byte. */
  function TableStep(fcs: bv16, b: bv8): bv16 {
    (fcs >> 8) ^ Table(((fcs ^ (b as bv16)) & 0xff) as bv8)
  }

  lemma InputIsLowByte(fcs: bv16, b: bv8)
    ensures (fcs ^ (b as bv16)) >> 8 == fcs >> 8
    ensures (((fcs ^ (b as bv16)) & 0xff) as bv8) as bv16 == (fcs ^ (b as bv16)) & 0xff
  {
  }

  /** One lookup does the work of eight bit steps. */
  lemma TableStepIsBitSerial(fcs: bv16, b: bv8)
    ensures TableStep(fcs, b) == Bits8(fcs ^ (b as bv16))
  {
    var x := fcs ^ (b as bv16);
    InputIsLowByte(fcs, b);
    TableIsBitSerial((x & 0xff) as bv8);
    Fast8IsEightBits(x & 0xff);
    HighByteShifts(x);
    Fast8IsEightBits(x);
  }
}
