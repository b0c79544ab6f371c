/**
 The table-driven CRC-32 of libs/crc.c against the bit-serial definition: reflected, polynomial
 0xEDB88320, all ones at the start and complemented at the end.
 */
module Crc32 {
  // ---------------------------------------------------------------- bit by bit

  function Xor(a: bv32, b: bv32): bv32 { a ^ b }

  function Half(x: bv32): bv32 { x >> 1 }

  function LowBit(x: bv32): bv32 { x & 1 }

  /** Divide by x, reducing by the polynomial. */
  function Divide(x: bv32): bv32 { if LowBit(x) == 1 then Xor(Half(x), 0xEDB8_8320) else Half(x) }

  /** Take in message bits one by one. */
  function Feed(crc: bv32, bits: seq<bv32>): bv32
    decreases |bits|
  {
    if bits == [] then crc else Feed(Divide(Xor(crc, bits[0])), bits[1..])
  }

  /** The low `n` bits, least significant first. */
  function Bits(x: bv32, n: nat): seq<bv32>
    decreases n
  {
    if n == 0 then [] else [LowBit(x)] + Bits(Half(x), n - 1)
  }

  function Widen(b: bv8): bv32 { b as bv32 }

  function MessageBits(data: seq<bv8>): seq<bv32> {
    if data == [] then [] else Bits(Widen(data[0]), 8) + MessageBits(data[1..])
  }

  /** The checksum as the standards define it. */
  function Checksum(data: seq<bv8>): bv32 { !Feed(0xffff_ffff, MessageBits(data)) }

  // ---------------------------------------------------------------- the table

  const ROW0: seq<bv32> := [
    0x00000000, 0x77073096, 0xee0e612c, 0x990951ba, 0x076dc419, 0x706af48f, 0xe963a535, 0x9e6495a3,
    0x0edb8832, 0x79dcb8a4, 0xe0d5e91e, 0x97d2d988, 0x09b64c2b, 0x7eb17cbd, 0xe7b82d07, 0x90bf1d91
  ]

  const ROW1: seq<bv32> := [
    0x1db71064, 0x6ab020f2, 0xf3b97148, 0x84be41de, 0x1adad47d, 0x6ddde4eb, 0xf4d4b551, 0x83d385c7,
    0x136c9856, 0x646ba8c0, 0xfd62f97a, 0x8a65c9ec, 0x14015c4f, 0x63066cd9, 0xfa0f3d63, 0x8d080df5
  ]

  const ROW2: seq<bv32> := [
    0x3b6e20c8, 0x4c69105e, 0xd56041e4, 0xa2677172, 0x3c03e4d1, 0x4b04d447, 0xd20d85fd, 0xa50ab56b,
    0x35b5a8fa, 0x42b2986c, 0xdbbbc9d6, 0xacbcf940, 0x32d86ce3, 0x45df5c75, 0xdcd60dcf, 0xabd13d59
  ]

  const ROW3: seq<bv32> := [
    0x26d930ac, 0x51de003a, 0xc8d75180, 0xbfd06116, 0x21b4f4b5, 0x56b3c423, 0xcfba9599, 0xb8bda50f,
    0x2802b89e, 0x5f058808, 0xc60cd9b2, 0xb10be924, 0x2f6f7c87, 0x58684c11, 0xc1611dab, 0xb6662d3d
  ]

  const ROW4: seq<bv32> := [
    0x76dc4190, 0x01db7106, 0x98d220bc, 0xefd5102a, 0x71b18589, 0x06b6b51f, 0x9fbfe4a5, 0xe8b8d433,
    0x7807c9a2, 0x0f00f934, 0x9609a88e, 0xe10e9818, 0x7f6a0dbb, 0x086d3d2d, 0x91646c97, 0xe6635c01
  ]

  const ROW5: seq<bv32> := [
    0x6b6b51f4, 0x1c6c6162, 0x856530d8, 0xf262004e, 0x6c0695ed, 0x1b01a57b, 0x8208f4c1, 0xf50fc457,
    0x65b0d9c6, 0x12b7e950, 0x8bbeb8ea, 0xfcb9887c, 0x62dd1ddf, 0x15da2d49, 0x8cd37cf3, 0xfbd44c65
  ]

  const ROW6: seq<bv32> := [
    0x4db26158, 0x3ab551ce, 0xa3bc0074, 0xd4bb30e2, 0x4adfa541, 0x3dd895d7, 0xa4d1c46d, 0xd3d6f4fb,
    0x4369e96a, 0x346ed9fc, 0xad678846, 0xda60b8d0, 0x44042d73, 0x33031de5, 0xaa0a4c5f, 0xdd0d7cc9
  ]

  const ROW7: seq<bv32> := [
    0x5005713c, 0x270241aa, 0xbe0b1010, 0xc90c2086, 0x5768b525, 0x206f85b3, 0xb966d409, 0xce61e49f,
    0x5edef90e, 0x29d9c998, 0xb0d09822, 0xc7d7a8b4, 0x59b33d17, 0x2eb40d81, 0xb7bd5c3b, 0xc0ba6cad
  ]

  const ROW8: seq<bv32> := [
    0xedb88320, 0x9abfb3b6, 0x03b6e20c, 0x74b1d29a, 0xead54739, 0x9dd277af, 0x04db2615, 0x73dc1683,
    0xe3630b12, 0x94643b84, 0x0d6d6a3e, 0x7a6a5aa8, 0xe40ecf0b, 0x9309ff9d, 0x0a00ae27, 0x7d079eb1
  ]

  const ROW9: seq<bv32> := [
    0xf00f9344, 0x8708a3d2, 0x1e01f268, 0x6906c2fe, 0xf762575d, 0x806567cb, 0x196c3671, 0x6e6b06e7,
    0xfed41b76, 0x89d32be0, 0x10da7a5a, 0x67dd4acc, 0xf9b9df6f, 0x8ebeeff9, 0x17b7be43, 0x60b08ed5
  ]

  const ROW10: seq<bv32> := [
    0xd6d6a3e8, 0xa1d1937e, 0x38d8c2c4, 0x4fdff252, 0xd1bb67f1, 0xa6bc5767, 0x3fb506dd, 0x48b2364b,
    0xd80d2bda, 0xaf0a1b4c, 0x36034af6, 0x41047a60, 0xdf60efc3, 0xa867df55, 0x316e8eef, 0x4669be79
  ]

  const ROW11: seq<bv32> := [
    0xcb61b38c, 0xbc66831a, 0x256fd2a0, 0x5268e236, 0xcc0c7795, 0xbb0b4703, 0x220216b9, 0x5505262f,
    0xc5ba3bbe, 0xb2bd0b28, 0x2bb45a92, 0x5cb36a04, 0xc2d7ffa7, 0xb5d0cf31, 0x2cd99e8b, 0x5bdeae1d
  ]

  const ROW12: seq<bv32> := [
    0x9b64c2b0, 0xec63f226, 0x756aa39c, 0x026d930a, 0x9c0906a9, 0xeb0e363f, 0x72076785, 0x05005713,
    0x95bf4a82, 0xe2b87a14, 0x7bb12bae, 0x0cb61b38, 0x92d28e9b, 0xe5d5be0d, 0x7cdcefb7, 0x0bdbdf21
  ]

  const ROW13: seq<bv32> := [
    0x86d3d2d4, 0xf1d4e242, 0x68ddb3f8, 0x1fda836e, 0x81be16cd, 0xf6b9265b, 0x6fb077e1, 0x18b74777,
    0x88085ae6, 0xff0f6a70, 0x66063bca, 0x11010b5c, 0x8f659eff, 0xf862ae69, 0x616bffd3, 0x166ccf45
  ]

  const ROW14: seq<bv32> := [
    0xa00ae278, 0xd70dd2ee, 0x4e048354, 0x3903b3c2, 0xa7672661, 0xd06016f7, 0x4969474d, 0x3e6e77db,
    0xaed16a4a, 0xd9d65adc, 0x40df0b66, 0x37d83bf0, 0xa9bcae53, 0xdebb9ec5, 0x47b2cf7f, 0x30b5ffe9
  ]

  const ROW15: seq<bv32> := [
    0xbdbdf21c, 0xcabac28a, 0x53b39330, 0x24b4a3a6, 0xbad03605, 0xcdd70693, 0x54de5729, 0x23d967bf,
    0xb3667a2e, 0xc4614ab8, 0x5d681b02, 0x2a6f2b94, 0xb40bbe37, 0xc30c8ea1, 0x5a05df1b, 0x2d02ef8d
  ]

  function Row(r: nat): (s: seq<bv32>)
    requires r < 16
    ensures |s| == 16
  {
    match r
    case 0 => ROW0
    case 1 => ROW1
    case 2 => ROW2
    case 3 => ROW3
    case 4 => ROW4
    case 5 => ROW5
    case 6 => ROW6
    case 7 => ROW7
    case 8 => ROW8
    case 9 => ROW9
    case 10 => ROW10
    case 11 => ROW11
    case 12 => ROW12
    case 13 => ROW13
    case 14 => ROW14
    case _ => ROW15
  }

  function Entry(x: bv32): bv32
    requires x < 256
  {
    Nibbles(x);
    Row(High(x) as nat)[Low(x) as nat]
  }

  // ---------------------------------------------------------------- division is linear

  lemma {:induction false} XorAssoc(a: bv32, b: bv32, c: bv32)
    ensures Xor(Xor(a, b), c) == Xor(a, Xor(b, c))
  {
  }

  lemma {:induction false} XorUnit(a: bv32, b: bv32)
    ensures Xor(a, b) == Xor(b, a) && Xor(a, a) == 0 && Xor(0, a) == a
  {
  }

  lemma {:induction false} XorMoves(a: bv32, b: bv32, p: bv32)
    ensures Xor(Xor(a, b), p) == Xor(Xor(a, p), b) && Xor(Xor(a, b), p) == Xor(a, Xor(b, p))
    ensures Xor(Xor(a, p), Xor(b, p)) == Xor(a, b)
  {
    hide Xor;
    XorAssoc(a, b, p);
    XorAssoc(a, p, b);
    XorUnit(b, p);
    XorAssoc(a, p, Xor(p, b));
    XorAssoc(p, p, b);
    XorUnit(p, b);
    XorUnit(b, p);
  }

  lemma {:induction false} XorBits(x: bv32, y: bv32)
    ensures Half(Xor(x, y)) == Xor(Half(x), Half(y))
    ensures LowBit(Xor(x, y)) == if LowBit(x) == LowBit(y) then 0 else 1
    ensures LowBit(x) == 0 || LowBit(x) == 1
    ensures LowBit(y) == 0 || LowBit(y) == 1
  {
  }

  /** Division by x is linear over exclusive or. */
  lemma {:induction false} DivideLinear(x: bv32, y: bv32)
    ensures Divide(Xor(x, y)) == Xor(Divide(x), Divide(y))
  {
    hide Xor, Half, LowBit;
    XorBits(x, y);
    XorMoves(Half(x), Half(y), 0xEDB8_8320);
  }

  /** Divide `n` times. */
  function Times(x: bv32, n: nat): bv32
    decreases n
  {
    if n == 0 then x else Times(Divide(x), n - 1)
  }

  lemma {:induction false} TimesLinear(x: bv32, y: bv32, n: nat)
    ensures Times(Xor(x, y), n) == Xor(Times(x, n), Times(y, n))
    decreases n
  {
    hide Divide, Xor;
    if n > 0 {
      DivideLinear(x, y);
      TimesLinear(Divide(x), Divide(y), n - 1);
    }
  }

  // ---------------------------------------------------------------- the table is right

  /** Every row of the table is its first entry combined with the first row. */
  function Combined(c: bv32, r: seq<bv32>): seq<bv32>
    requires |r| == 16
  {
    [Xor(c, r[0]), Xor(c, r[1]), Xor(c, r[2]), Xor(c, r[3]), Xor(c, r[4]), Xor(c, r[5]), Xor(c, r[6]), Xor(c, r[7]),
     Xor(c, r[8]), Xor(c, r[9]), Xor(c, r[10]), Xor(c, r[11]), Xor(c, r[12]), Xor(c, r[13]), Xor(c, r[14]), Xor(c, r[15])]
  }

  lemma {:induction false} RowsCombine1()
    ensures ROW0 == Combined(ROW0[0], ROW0) && ROW1 == Combined(ROW1[0], ROW0) && ROW2 == Combined(ROW2[0], ROW0)
    ensures ROW3 == Combined(ROW3[0], ROW0) && ROW4 == Combined(ROW4[0], ROW0) && ROW5 == Combined(ROW5[0], ROW0)
  {
  }

  lemma {:induction false} RowsCombine2()
    ensures ROW6 == Combined(ROW6[0], ROW0) && ROW7 == Combined(ROW7[0], ROW0) && ROW8 == Combined(ROW8[0], ROW0)
    ensures ROW9 == Combined(ROW9[0], ROW0) && ROW10 == Combined(ROW10[0], ROW0)
  {
  }

  lemma {:induction false} RowsCombine3()
    ensures ROW11 == Combined(ROW11[0], ROW0) && ROW12 == Combined(ROW12[0], ROW0) && ROW13 == Combined(ROW13[0], ROW0)
    ensures ROW14 == Combined(ROW14[0], ROW0) && ROW15 == Combined(ROW15[0], ROW0)
  {
  }

  lemma {:induction false} RowCombines(r: nat)
    requires r < 16
    ensures Row(r) == Combined(Row(r)[0], Row(0))
  {
    hide Combined;
    RowsCombine1();
    RowsCombine2();
    RowsCombine3();
  }

  lemma {:induction false} CombinedAt(c: bv32, r: seq<bv32>, j: nat)
    requires |r| == 16 && j < 16
    ensures |Combined(c, r)| == 16 && Combined(c, r)[j] == Xor(c, r[j])
  {
    hide Xor;
    if
    case j < 8 => assert j == 0 || j == 1 || j == 2 || j == 3 || j == 4 || j == 5 || j == 6 || j == 7;
    case j >= 8 => assert j == 8 || j == 9 || j == 10 || j == 11 || j == 12 || j == 13 || j == 14 || j == 15;
  }

  lemma {:induction false} Times8(x: bv32)
    ensures Times(x, 8) == Divide(Divide(Divide(Divide(Divide(Divide(Divide(Divide(x))))))))
  {
    hide Divide;
    var y := Divide(Divide(Divide(Divide(x))));
    assert Times(x, 8) == Times(Divide(Divide(x)), 6) == Times(y, 4);
    assert Times(y, 4) == Times(Divide(Divide(y)), 2);
  }

  lemma {:induction false} LowValues0()
    ensures ROW0[0] == Times(0, 8) && ROW0[1] == Times(1, 8) && ROW0[2] == Times(2, 8) && ROW0[3] == Times(3, 8)
  {
    hide Times;
    Times8(0); Times8(1); Times8(2); Times8(3);
  }

  lemma {:induction false} LowValues1()
    ensures ROW0[4] == Times(4, 8) && ROW0[5] == Times(5, 8) && ROW0[6] == Times(6, 8) && ROW0[7] == Times(7, 8)
  {
    hide Times;
    Times8(4); Times8(5); Times8(6); Times8(7);
  }

  lemma {:induction false} LowValues2()
    ensures ROW0[8] == Times(8, 8) && ROW0[9] == Times(9, 8) && ROW0[10] == Times(10, 8) && ROW0[11] == Times(11, 8)
  {
    hide Times;
    Times8(8); Times8(9); Times8(10); Times8(11);
  }

  lemma {:induction false} LowValues3()
    ensures ROW0[12] == Times(12, 8) && ROW0[13] == Times(13, 8) && ROW0[14] == Times(14, 8) && ROW0[15] == Times(15, 8)
  {
    hide Times;
    Times8(12); Times8(13); Times8(14); Times8(15);
  }

  lemma {:induction false} LowEntries(x: bv32)
    requires x < 16
    ensures Row(0)[x as nat] == Times(x, 8)
  {
    hide Times;
    LowValues0();
    LowValues1();
    LowValues2();
    LowValues3();
    assert x == 0 || x == 1 || x == 2 || x == 3 || x == 4 || x == 5 || x == 6 || x == 7
        || x == 8 || x == 9 || x == 10 || x == 11 || x == 12 || x == 13 || x == 14 || x == 15;
  }

  function High(x: bv32): bv32 { x >> 4 }

  function Low(x: bv32): bv32 { x & 15 }

  function Up4(x: bv32): bv32 { x << 4 }

  lemma {:induction false} HighEntries(x: bv32)
    requires x < 16
    ensures Row(x as nat)[0] == Times(Up4(x), 8)
  {
    Times8(Up4(x));
    assert x == 0 || x == 1 || x == 2 || x == 3 || x == 4 || x == 5 || x == 6 || x == 7
        || x == 8 || x == 9 || x == 10 || x == 11 || x == 12 || x == 13 || x == 14 || x == 15;
  }

  lemma {:induction false} Nibbles(x: bv32)
    requires x < 256
    ensures High(x) < 16 && Low(x) < 16 && x == Xor(Up4(High(x)), Low(x))
  {
  }

  /** The table holds the remainders of all single bytes. */
  lemma {:induction false} TableCorrect(x: bv32)
    requires x < 256
    ensures Entry(x) == Times(x, 8)
  {
    hide Row, Times, High, Low, Up4, Xor, Combined;
    Nibbles(x);
    var hi, lo := High(x), Low(x);
    RowCombines(hi as nat);
    CombinedAt(Row(hi as nat)[0], Row(0), lo as nat);
    HighEntries(hi);
    LowEntries(lo);
    TimesLinear(Up4(hi), lo, 8);
  }

  // ---------------------------------------------------------------- the two agree

  function LowByte(x: bv32): (r: bv32)
    ensures r < 256
  {
    x & 0xff
  }

  function Above(x: bv32): bv32 { x & 0xffff_ff00 }

  function Down8(x: bv32): bv32 { x >> 8 }

  lemma {:induction false} SplitByte(x: bv32)
    ensures x == Xor(Above(x), LowByte(x)) && Down8(Above(x)) == Down8(x) && LowByte(Above(x)) == 0
  {
  }

  lemma {:induction false} XorHigh(crc: bv32, x: bv32)
    requires x < 256
    ensures Down8(Xor(crc, x)) == Down8(crc)
  {
  }

  /** With eight zero bits at the end, dividing eight times is shifting. */
  lemma {:induction false} HighBytes(x: bv32)
    requires LowByte(x) == 0
    ensures Times(x, 8) == Down8(x)
  {
    Times8(x);
  }

  /** One table look-up does the work of eight bit steps. */
  lemma {:induction false} LookupIsDivision(x: bv32)
    ensures Times(x, 8) == Xor(Down8(x), Entry(LowByte(x)))
  {
    hide Times, Entry, Xor, Down8, LowByte, Above;
    SplitByte(x);
    TimesLinear(Above(x), LowByte(x), 8);
    HighBytes(Above(x));
    TableCorrect(LowByte(x));
  }

  /** Nothing but the low `n` bits is set. */
  predicate Narrow(x: bv32, n: nat)
    decreases n
  {
    if n == 0 then x == 0 else Narrow(Half(x), n - 1)
  }

  function Even(x: bv32): bv32 { x & 0xffff_fffe }

  lemma {:induction false} SplitBit(x: bv32)
    ensures x == Xor(LowBit(x), Even(x)) && LowBit(Even(x)) == 0 && Half(Even(x)) == Half(x)
  {
  }

  lemma {:induction false} BitOut(c: bv32, x: bv32)
    ensures Divide(Xor(c, x)) == Xor(Divide(Xor(c, LowBit(x))), Half(x))
  {
    hide Xor, Half, LowBit, Even;
    SplitBit(x);
    XorAssoc(c, LowBit(x), Even(x));
    DivideLinear(Xor(c, LowBit(x)), Even(x));
  }

  /** Feeding bits one at a time is adding them all and then dividing. */
  lemma {:induction false} FeedBits(c: bv32, x: bv32, n: nat)
    requires Narrow(x, n)
    ensures Feed(c, Bits(x, n)) == Times(Xor(c, x), n)
    decreases n
  {
    hide Divide, Xor, Half, LowBit;
    if n == 0 {
      XorUnit(c, 0);
      XorUnit(0, c);
    } else {
      var rest := Bits(Half(x), n - 1);
      assert ([LowBit(x)] + rest)[1..] == rest;
      FeedBits(Divide(Xor(c, LowBit(x))), Half(x), n - 1);
      BitOut(c, x);
    }
  }

  lemma {:induction false} ByteIsNarrow(x: bv32)
    requires x < 256
    ensures Narrow(x, 8)
  {
  }

  lemma {:induction false} FeedJoin(c: bv32, a: seq<bv32>, b: seq<bv32>)
    ensures Feed(c, a + b) == Feed(Feed(c, a), b)
    decreases |a|
  {
    hide Divide, Xor;
    if a == [] {
      assert a + b == b;
    } else {
      assert (a + b)[1..] == a[1..] + b;
      FeedJoin(Divide(Xor(c, a[0])), a[1..], b);
    }
  }

  lemma {:induction false} WidenSmall(b: bv8)
    ensures Widen(b) < 256
  {
  }

  lemma {:induction false} ByteStep(crc: bv32, byte: bv8)
    ensures Feed(crc, Bits(Widen(byte), 8)) == Xor(Down8(crc), Entry(LowByte(Xor(crc, Widen(byte)))))
  {
    hide Feed, Bits, Times, Entry, Narrow, Xor, Down8, LowByte, Widen;
    var x := Widen(byte);
    WidenSmall(byte);
    ByteIsNarrow(x);
    FeedBits(crc, x, 8);
    LookupIsDivision(Xor(crc, x));
    XorHigh(crc, x);
  }

  lemma {:induction false} MessageSplit(data: seq<bv8>, i: nat)
    requires i < |data|
    ensures MessageBits(data[..i + 1]) == MessageBits(data[..i]) + Bits(Widen(data[i]), 8)
    decreases i
  {
    hide Bits, Widen;
    if i == 0 {
      assert data[..1] == [data[0]] && [data[0]][1..] == [] && data[..0] == [];
    } else {
      MessageSplit(data[1..], i - 1);
      assert data[..i + 1][1..] == data[1..][..i] && data[..i][1..] == data[1..][..i - 1];
    }
  }

  /** Eight divisions, with a byte added first. */
  function Eight(c: bv32, byte: bv8): bv32 {
    var x := Divide(Divide(Divide(Divide(Xor(c, Widen(byte))))));
    Divide(Divide(Divide(Divide(x))))
  }

  lemma {:induction false} EightTimes(c: bv32, byte: bv8)
    ensures Times(Xor(c, Widen(byte)), 8) == Eight(c, byte)
  {
    hide Divide, Xor, Widen;
    var x := Xor(c, Widen(byte));
    var y := Divide(Divide(Divide(Divide(x))));
    assert Times(y, 4) == Divide(Divide(Divide(Divide(y))));
    assert Times(x, 8) == Times(y, 4);
  }

  /** One more byte of a message. */
  lemma {:induction false} OneByte(data: seq<bv8>, i: nat, c: bv32)
    requires i < |data| && Feed(0xffff_ffff, MessageBits(data[..i])) == c
    ensures Feed(0xffff_ffff, MessageBits(data[..i + 1])) == Eight(c, data[i])
  {
    hide Feed, MessageBits, Bits, Widen, Eight, Times, Narrow, Xor;
    MessageSplit(data, i);
    FeedJoin(0xffff_ffff, MessageBits(data[..i]), Bits(Widen(data[i]), 8));
    WidenSmall(data[i]);
    ByteIsNarrow(Widen(data[i]));
    FeedBits(c, Widen(data[i]), 8);
    EightTimes(c, data[i]);
  }

  lemma {:induction false} FirstDigits()
    ensures Eight(0xffff_ffff, 0x31) == 0x7c23_1048
    ensures Eight(0x7c23_1048, 0x32) == 0xb0ac_bb32
    ensures Eight(0xb0ac_bb32, 0x33) == 0x77b7_9c2d
  {
  }

  lemma {:induction false} MiddleDigits()
    ensures Eight(0x77b7_9c2d, 0x34) == 0x641c_1f5c
    ensures Eight(0x641c_1f5c, 0x35) == 0x340a_c5e3
    ensures Eight(0x340a_c5e3, 0x36) == 0xf68d_2c9e
  {
  }

  lemma {:induction false} LastDigits()
    ensures Eight(0xf68d_2c9e, 0x37) == 0xaffc_9660
    ensures Eight(0xaffc_9660, 0x38) == 0x651f_2550
    ensures Eight(0x651f_2550, 0x39) == 0x340b_c6d9
  {
  }

  /** The check value of CRC-32: the checksum of the digits one to nine. */
  lemma {:induction false} CheckValue(data: seq<bv8>)
    requires data == [0x31, 0x32, 0x33, 0x34, 0x35, 0x36, 0x37, 0x38, 0x39]
    ensures Checksum(data) == 0xcbf4_3926
  {
    hide Feed, MessageBits, Eight;
    StartsEmpty(data);
    FirstDigits();
    MiddleDigits();
    LastDigits();
    OneByte(data, 0, 0xffff_ffff);
    OneByte(data, 1, 0x7c23_1048);
    OneByte(data, 2, 0xb0ac_bb32);
    OneByte(data, 3, 0x77b7_9c2d);
    OneByte(data, 4, 0x641c_1f5c);
    OneByte(data, 5, 0x340a_c5e3);
    OneByte(data, 6, 0xf68d_2c9e);
    OneByte(data, 7, 0xaffc_9660);
    OneByte(data, 8, 0x651f_2550);
    assert data[..9] == data;
  }

  /** The table-driven loop computes the bit-serial checksum of every byte sequence. */
  method Crc32b(data: seq<bv8>) returns (r: bv32)
    ensures r == Checksum(data)
  {
    hide Feed, MessageBits, Bits, Entry, Xor, Down8, LowByte, Widen;
    var crc: bv32, i := 0xffff_ffff, 0;
    StartsEmpty(data);
    while i < |data|
      invariant 0 <= i <= |data|
      invariant crc == Feed(0xffff_ffff, MessageBits(data[..i]))
    {
      ByteStep(crc, data[i]);
      MessageSplit(data, i);
      FeedJoin(0xffff_ffff, MessageBits(data[..i]), Bits(Widen(data[i]), 8));
      crc := Xor(Down8(crc), Entry(LowByte(Xor(crc, Widen(data[i])))));
      i := i + 1;
    }
    assert data[..i] == data;
    return !crc;
  }

  lemma {:induction false} StartsEmpty(data: seq<bv8>)
    ensures Feed(0xffff_ffff, MessageBits(data[..0])) == 0xffff_ffff
  {
  }
}
