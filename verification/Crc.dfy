// The checksum of libutil (Mp4v2/mp4v2-2.0.0/libutil/crc.cpp): a byte-wise
// CRC over a table, against the bit-at-a-time CRC of the cksum utility (IEEE
// Std 1003.1).
module Crc {

  const POLY: bv32 := 0x04C11DB7

  // ---- The table --------------------------------------------------------------

  function Row0(j: bv8): bv32 {
    match j
    case 0 => 0x00000000 case 1 => 0x04c11db7 case 2 => 0x09823b6e case 3 => 0x0d4326d9
    case 4 => 0x130476dc case 5 => 0x17c56b6b case 6 => 0x1a864db2 case 7 => 0x1e475005
    case 8 => 0x2608edb8 case 9 => 0x22c9f00f case 10 => 0x2f8ad6d6 case 11 => 0x2b4bcb61
    case 12 => 0x350c9b64 case 13 => 0x31cd86d3 case 14 => 0x3c8ea00a case _ => 0x384fbdbd
  }

  function Row1(j: bv8): bv32 {
    match j
    case 0 => 0x4c11db70 case 1 => 0x48d0c6c7 case 2 => 0x4593e01e case 3 => 0x4152fda9
    case 4 => 0x5f15adac case 5 => 0x5bd4b01b case 6 => 0x569796c2 case 7 => 0x52568b75
    case 8 => 0x6a1936c8 case 9 => 0x6ed82b7f case 10 => 0x639b0da6 case 11 => 0x675a1011
    case 12 => 0x791d4014 case 13 => 0x7ddc5da3 case 14 => 0x709f7b7a case _ => 0x745e66cd
  }

  function Row2(j: bv8): bv32 {
    match j
    case 0 => 0x9823b6e0 case 1 => 0x9ce2ab57 case 2 => 0x91a18d8e case 3 => 0x95609039
    case 4 => 0x8b27c03c case 5 => 0x8fe6dd8b case 6 => 0x82a5fb52 case 7 => 0x8664e6e5
    case 8 => 0xbe2b5b58 case 9 => 0xbaea46ef case 10 => 0xb7a96036 case 11 => 0xb3687d81
    case 12 => 0xad2f2d84 case 13 => 0xa9ee3033 case 14 => 0xa4ad16ea case _ => 0xa06c0b5d
  }

  function Row3(j: bv8): bv32 {
    match j
    case 0 => 0xd4326d90 case 1 => 0xd0f37027 case 2 => 0xddb056fe case 3 => 0xd9714b49
    case 4 => 0xc7361b4c case 5 => 0xc3f706fb case 6 => 0xceb42022 case 7 => 0xca753d95
    case 8 => 0xf23a8028 case 9 => 0xf6fb9d9f case 10 => 0xfbb8bb46 case 11 => 0xff79a6f1
    case 12 => 0xe13ef6f4 case 13 => 0xe5ffeb43 case 14 => 0xe8bccd9a case _ => 0xec7dd02d
  }

  function Row4(j: bv8): bv32 {
    match j
    case 0 => 0x34867077 case 1 => 0x30476dc0 case 2 => 0x3d044b19 case 3 => 0x39c556ae
    case 4 => 0x278206ab case 5 => 0x23431b1c case 6 => 0x2e003dc5 case 7 => 0x2ac12072
    case 8 => 0x128e9dcf case 9 => 0x164f8078 case 10 => 0x1b0ca6a1 case 11 => 0x1fcdbb16
    case 12 => 0x018aeb13 case 13 => 0x054bf6a4 case 14 => 0x0808d07d case _ => 0x0cc9cdca
  }

  function Row5(j: bv8): bv32 {
    match j
    case 0 => 0x7897ab07 case 1 => 0x7c56b6b0 case 2 => 0x71159069 case 3 => 0x75d48dde
    case 4 => 0x6b93dddb case 5 => 0x6f52c06c case 6 => 0x6211e6b5 case 7 => 0x66d0fb02
    case 8 => 0x5e9f46bf case 9 => 0x5a5e5b08 case 10 => 0x571d7dd1 case 11 => 0x53dc6066
    case 12 => 0x4d9b3063 case 13 => 0x495a2dd4 case 14 => 0x44190b0d case _ => 0x40d816ba
  }

  function Row6(j: bv8): bv32 {
    match j
    case 0 => 0xaca5c697 case 1 => 0xa864db20 case 2 => 0xa527fdf9 case 3 => 0xa1e6e04e
    case 4 => 0xbfa1b04b case 5 => 0xbb60adfc case 6 => 0xb6238b25 case 7 => 0xb2e29692
    case 8 => 0x8aad2b2f case 9 => 0x8e6c3698 case 10 => 0x832f1041 case 11 => 0x87ee0df6
    case 12 => 0x99a95df3 case 13 => 0x9d684044 case 14 => 0x902b669d case _ => 0x94ea7b2a
  }

  function Row7(j: bv8): bv32 {
    match j
    case 0 => 0xe0b41de7 case 1 => 0xe4750050 case 2 => 0xe9362689 case 3 => 0xedf73b3e
    case 4 => 0xf3b06b3b case 5 => 0xf771768c case 6 => 0xfa325055 case 7 => 0xfef34de2
    case 8 => 0xc6bcf05f case 9 => 0xc27dede8 case 10 => 0xcf3ecb31 case 11 => 0xcbffd686
    case 12 => 0xd5b88683 case 13 => 0xd1799b34 case 14 => 0xdc3abded case _ => 0xd8fba05a
  }

  function Row8(j: bv8): bv32 {
    match j
    case 0 => 0x690ce0ee case 1 => 0x6dcdfd59 case 2 => 0x608edb80 case 3 => 0x644fc637
    case 4 => 0x7a089632 case 5 => 0x7ec98b85 case 6 => 0x738aad5c case 7 => 0x774bb0eb
    case 8 => 0x4f040d56 case 9 => 0x4bc510e1 case 10 => 0x46863638 case 11 => 0x42472b8f
    case 12 => 0x5c007b8a case 13 => 0x58c1663d case 14 => 0x558240e4 case _ => 0x51435d53
  }

  function Row9(j: bv8): bv32 {
    match j
    case 0 => 0x251d3b9e case 1 => 0x21dc2629 case 2 => 0x2c9f00f0 case 3 => 0x285e1d47
    case 4 => 0x36194d42 case 5 => 0x32d850f5 case 6 => 0x3f9b762c case 7 => 0x3b5a6b9b
    case 8 => 0x0315d626 case 9 => 0x07d4cb91 case 10 => 0x0a97ed48 case 11 => 0x0e56f0ff
    case 12 => 0x1011a0fa case 13 => 0x14d0bd4d case 14 => 0x19939b94 case _ => 0x1d528623
  }

  function RowA(j: bv8): bv32 {
    match j
    case 0 => 0xf12f560e case 1 => 0xf5ee4bb9 case 2 => 0xf8ad6d60 case 3 => 0xfc6c70d7
    case 4 => 0xe22b20d2 case 5 => 0xe6ea3d65 case 6 => 0xeba91bbc case 7 => 0xef68060b
    case 8 => 0xd727bbb6 case 9 => 0xd3e6a601 case 10 => 0xdea580d8 case 11 => 0xda649d6f
    case 12 => 0xc423cd6a case 13 => 0xc0e2d0dd case 14 => 0xcda1f604 case _ => 0xc960ebb3
  }

  function RowB(j: bv8): bv32 {
    match j
    case 0 => 0xbd3e8d7e case 1 => 0xb9ff90c9 case 2 => 0xb4bcb610 case 3 => 0xb07daba7
    case 4 => 0xae3afba2 case 5 => 0xaafbe615 case 6 => 0xa7b8c0cc case 7 => 0xa379dd7b
    case 8 => 0x9b3660c6 case 9 => 0x9ff77d71 case 10 => 0x92b45ba8 case 11 => 0x9675461f
    case 12 => 0x8832161a case 13 => 0x8cf30bad case 14 => 0x81b02d74 case _ => 0x857130c3
  }

  function RowC(j: bv8): bv32 {
    match j
    case 0 => 0x5d8a9099 case 1 => 0x594b8d2e case 2 => 0x5408abf7 case 3 => 0x50c9b640
    case 4 => 0x4e8ee645 case 5 => 0x4a4ffbf2 case 6 => 0x470cdd2b case 7 => 0x43cdc09c
    case 8 => 0x7b827d21 case 9 => 0x7f436096 case 10 => 0x7200464f case 11 => 0x76c15bf8
    case 12 => 0x68860bfd case 13 => 0x6c47164a case 14 => 0x61043093 case _ => 0x65c52d24
  }

  function RowD(j: bv8): bv32 {
    match j
    case 0 => 0x119b4be9 case 1 => 0x155a565e case 2 => 0x18197087 case 3 => 0x1cd86d30
    case 4 => 0x029f3d35 case 5 => 0x065e2082 case 6 => 0x0b1d065b case 7 => 0x0fdc1bec
    case 8 => 0x3793a651 case 9 => 0x3352bbe6 case 10 => 0x3e119d3f case 11 => 0x3ad08088
    case 12 => 0x2497d08d case 13 => 0x2056cd3a case 14 => 0x2d15ebe3 case _ => 0x29d4f654
  }

  function RowE(j: bv8): bv32 {
    match j
    case 0 => 0xc5a92679 case 1 => 0xc1683bce case 2 => 0xcc2b1d17 case 3 => 0xc8ea00a0
    case 4 => 0xd6ad50a5 case 5 => 0xd26c4d12 case 6 => 0xdf2f6bcb case 7 => 0xdbee767c
    case 8 => 0xe3a1cbc1 case 9 => 0xe760d676 case 10 => 0xea23f0af case 11 => 0xeee2ed18
    case 12 => 0xf0a5bd1d case 13 => 0xf464a0aa case 14 => 0xf9278673 case _ => 0xfde69bc4
  }

  function RowF(j: bv8): bv32 {
    match j
    case 0 => 0x89b8fd09 case 1 => 0x8d79e0be case 2 => 0x803ac667 case 3 => 0x84fbdbd0
    case 4 => 0x9abc8bd5 case 5 => 0x9e7d9662 case 6 => 0x933eb0bb case 7 => 0x97ffad0c
    case 8 => 0xafb010b1 case 9 => 0xab710d06 case 10 => 0xa6322bdf case 11 => 0xa2f33668
    case 12 => 0xbcb4666d case 13 => 0xb8757bda case 14 => 0xb5365d03 case _ => 0xb1f740b4
  }

  /** __crctab */
  function Table(i: bv8): bv32 {
    match i >> 4
    case 0x0 => Row0(i & 0xF)
    case 0x1 => Row1(i & 0xF)
    case 0x2 => Row2(i & 0xF)
    case 0x3 => Row3(i & 0xF)
    case 0x4 => Row4(i & 0xF)
    case 0x5 => Row5(i & 0xF)
    case 0x6 => Row6(i & 0xF)
    case 0x7 => Row7(i & 0xF)
    case 0x8 => Row8(i & 0xF)
    case 0x9 => Row9(i & 0xF)
    case 0xa => RowA(i & 0xF)
    case 0xb => RowB(i & 0xF)
    case 0xc => RowC(i & 0xF)
    case 0xd => RowD(i & 0xF)
    case 0xe => RowE(i & 0xF)
    case _ => RowF(i & 0xF)
  }

  /** Addition modulo 2, bit by bit. */
  function Plus(a: bv32, b: bv32): bv32 { a ^ b }

  function Shift(c: bv32): bv32 { c << 1 }

  function Top(c: bv32): bool { c & 0x80000000 != 0 }

  /** A byte at the top of the register. */
  function Word(b: bv8): bv32 { (b as bv32) << 24 }

  lemma PlusLaws(a: bv32, b: bv32)
    ensures Plus(a, b) == Plus(b, a) && Plus(a, 0) == a && Plus(a, a) == 0 && (Plus(a, b) == 0 ==> a == b)
  {
  }

  lemma PlusAssociative(a: bv32, b: bv32, c: bv32)
    ensures Plus(Plus(a, b), c) == Plus(a, Plus(b, c))
  {
  }

  lemma Rearranged(a: bv32, b: bv32, p: bv32, q: bv32)
    ensures Plus(Plus(a, p), Plus(b, q)) == Plus(Plus(a, b), Plus(p, q))
  {
    hide Plus;
    PlusAssociative(a, p, Plus(b, q));
    PlusAssociative(p, b, q);
    PlusLaws(p, b);
    PlusAssociative(b, p, q);
    PlusAssociative(a, b, Plus(p, q));
  }

  lemma ShiftLinear(a: bv32, b: bv32)
    ensures Shift(Plus(a, b)) == Plus(Shift(a), Shift(b))
  {
  }

  lemma TopLinear(a: bv32, b: bv32)
    ensures Top(Plus(a, b)) <==> Top(a) != Top(b)
  {
  }

  /** One shift of the register with nothing coming in. */
  function Step(c: bv32): bv32 {
    Plus(Shift(c), if Top(c) then POLY else 0)
  }

  function Steps(c: bv32, n: nat): bv32
    decreases n
  {
    if n == 0 then c else Steps(Step(c), n - 1)
  }

  function Eight(c: bv32): bv32 {
    Step(Step(Step(Step(Step(Step(Step(Step(c))))))))
  }

  lemma EntriesFrom00(j: bv8)
    requires j < 16
    ensures Row0(j) == Eight(Word(0x00 | j))
    ensures Row1(j) == Eight(Word(0x10 | j))
    ensures Row2(j) == Eight(Word(0x20 | j))
    ensures Row3(j) == Eight(Word(0x30 | j))
  {
  }

  lemma EntriesFrom40(j: bv8)
    requires j < 16
    ensures Row4(j) == Eight(Word(0x40 | j))
    ensures Row5(j) == Eight(Word(0x50 | j))
    ensures Row6(j) == Eight(Word(0x60 | j))
    ensures Row7(j) == Eight(Word(0x70 | j))
  {
  }

  lemma EntriesFrom80(j: bv8)
    requires j < 16
    ensures Row8(j) == Eight(Word(0x80 | j))
    ensures Row9(j) == Eight(Word(0x90 | j))
    ensures RowA(j) == Eight(Word(0xa0 | j))
    ensures RowB(j) == Eight(Word(0xb0 | j))
  {
  }

  lemma EntriesFromC0(j: bv8)
    requires j < 16
    ensures RowC(j) == Eight(Word(0xc0 | j))
    ensures RowD(j) == Eight(Word(0xd0 | j))
    ensures RowE(j) == Eight(Word(0xe0 | j))
    ensures RowF(j) == Eight(Word(0xf0 | j))
  {
  }

  /** Every entry of the table is eight shifts of its index. */
  lemma TableEntry(i: bv8)
    ensures Table(i) == Eight(Word(i))
  {
    hide Eight, Word, Row0, Row1, Row2, Row3, Row4, Row5, Row6, Row7, Row8, Row9, RowA, RowB, RowC, RowD, RowE, RowF;
    var j := i & 0xF;
    match i >> 4
    case 0x0 => EntriesFrom00(j); assert i == 0x00 | j;
    case 0x1 => EntriesFrom00(j); assert i == 0x10 | j;
    case 0x2 => EntriesFrom00(j); assert i == 0x20 | j;
    case 0x3 => EntriesFrom00(j); assert i == 0x30 | j;
    case 0x4 => EntriesFrom40(j); assert i == 0x40 | j;
    case 0x5 => EntriesFrom40(j); assert i == 0x50 | j;
    case 0x6 => EntriesFrom40(j); assert i == 0x60 | j;
    case 0x7 => EntriesFrom40(j); assert i == 0x70 | j;
    case 0x8 => EntriesFrom80(j); assert i == 0x80 | j;
    case 0x9 => EntriesFrom80(j); assert i == 0x90 | j;
    case 0xa => EntriesFrom80(j); assert i == 0xa0 | j;
    case 0xb => EntriesFrom80(j); assert i == 0xb0 | j;
    case 0xc => EntriesFromC0(j); assert i == 0xc0 | j;
    case 0xd => EntriesFromC0(j); assert i == 0xd0 | j;
    case 0xe => EntriesFromC0(j); assert i == 0xe0 | j;
    case _ => EntriesFromC0(j); assert i == 0xf0 | j;
  }

  // ---- The reference: one bit at a time ---------------------------------------------

  function BitStep(c: bv32, bit: bool): bv32 {
    Plus(Shift(c), if Top(c) != bit then POLY else 0)
  }

  function Remainder(c: bv32, bits: seq<bool>): bv32
    decreases bits
  {
    if bits == [] then c else Remainder(BitStep(c, bits[0]), bits[1..])
  }

  /** The n highest bits of a byte, most significant first. */
  function TopBits(b: bv8, n: nat): (r: seq<bool>)
    ensures |r| == n
    decreases n
  {
    if n == 0 then [] else [b & 0x80 != 0] + TopBits(b << 1, n - 1)
  }

  function BitsOf(b: bv8): (r: seq<bool>)
    ensures |r| == 8
  {
    TopBits(b, 8)
  }

  function AllBits(data: seq<bv8>): (r: seq<bool>)
    ensures |r| == 8 * |data|
  {
    if data == [] then [] else BitsOf(data[0]) + AllBits(data[1..])
  }

  /** A length in as few bytes as it takes, least significant first. */
  function LengthBytes(n: nat): seq<bv8> {
    if n == 0 then [] else [(n % 256) as bv8] + LengthBytes(n / 256)
  }

  function Cksum(data: seq<bv8>): bv32 {
    !Remainder(0, AllBits(data + LengthBytes(|data|)))
  }

  lemma {:induction false} RemainderAppend(c: bv32, a: seq<bool>, b: seq<bool>)
    ensures Remainder(c, a + b) == Remainder(Remainder(c, a), b)
    decreases a
  {
    hide BitStep;
    if a == [] {
      assert a + b == b;
    } else {
      assert (a + b)[1..] == a[1..] + b;
      RemainderAppend(BitStep(c, a[0]), a[1..], b);
    }
  }

  lemma {:induction false} AllBitsAppend(a: seq<bv8>, b: seq<bv8>)
    ensures AllBits(a + b) == AllBits(a) + AllBits(b)
  {
    hide BitsOf;
    if a == [] {
      assert a + b == b;
    } else {
      assert (a + b)[1..] == a[1..] + b;
      AllBitsAppend(a[1..], b);
    }
  }

  // ---- A byte at a time ------------------------------------------------------------

  /** COMPUTE */
  function Compute(c: bv32, b: bv8): bv32 {
    Plus(c << 8, Table(((c >> 24) as bv8) ^ b))
  }

  lemma StepLinear(c: bv32, d: bv32)
    ensures Step(Plus(c, d)) == Plus(Step(c), Step(d))
  {
    hide Plus, Shift, Top;
    ShiftLinear(c, d);
    TopLinear(c, d);
    Rearranged(Shift(c), Shift(d), if Top(c) then POLY else 0, if Top(d) then POLY else 0);
    PlusLaws(POLY, 0);
    PlusLaws(0, POLY);
    PlusLaws(0, 0);
  }

  lemma {:induction false} StepsLinear(c: bv32, d: bv32, n: nat)
    ensures Steps(Plus(c, d), n) == Plus(Steps(c, n), Steps(d, n))
    decreases n
  {
    hide Step, Plus;
    if n > 0 {
      StepLinear(c, d);
      StepsLinear(Step(c), Step(d), n - 1);
    }
  }

  lemma EightIs(c: bv32)
    ensures Eight(c) == Steps(c, 8)
  {
    hide Step;
    var c4 := Step(Step(Step(Step(c))));
    assert Steps(c, 8) == Steps(Step(c), 7) == Steps(Step(Step(c)), 6) == Steps(Step(Step(Step(c))), 5) == Steps(c4, 4);
    assert Steps(c4, 4) == Steps(Step(c4), 3) == Steps(Step(Step(c4)), 2) == Steps(Step(Step(Step(c4))), 1);
  }

  lemma EightLinear(c: bv32, d: bv32)
    ensures Eight(Plus(c, d)) == Plus(Eight(c), Eight(d))
  {
    hide Steps, Eight, Plus;
    EightIs(Plus(c, d));
    EightIs(c);
    EightIs(d);
    StepsLinear(c, d, 8);
  }

  lemma EightLow(c: bv32)
    requires c & 0xFF000000 == 0
    ensures Eight(c) == c << 8
  {
  }

  lemma HighAndLow(c: bv32, b: bv8)
    ensures Plus(c, Word(b)) == Plus(Word(((c >> 24) as bv8) ^ b), c & 0x00FFFFFF)
    ensures (c & 0x00FFFFFF) << 8 == c << 8
    ensures (c & 0x00FFFFFF) & 0xFF000000 == 0
  {
  }

  /** The table does for a byte what eight shifts do. */
  lemma ComputeIs(c: bv32, b: bv8)
    ensures Compute(c, b) == Eight(Plus(c, Word(b)))
  {
    hide Table, Eight, Plus, Word;
    HighAndLow(c, b);
    var i, low := ((c >> 24) as bv8) ^ b, c & 0x00FFFFFF;
    EightLinear(Word(i), low);
    EightLow(low);
    TableEntry(i);
    PlusLaws(Eight(Word(i)), Eight(low));
  }

  /** Taking a bit in as it comes, and having the byte in the register before. */
  lemma BitStepIs(c: bv32, b: bv8)
    ensures Plus(BitStep(c, b & 0x80 != 0), Word(b << 1)) == Step(Plus(c, Word(b)))
  {
    hide Plus, Shift, Top, Word;
    ShiftLinear(c, Word(b));
    TopLinear(c, Word(b));
    WordShifted(b);
    Rearranged(Shift(c), Word(b << 1), if Top(c) != Top(Word(b)) then POLY else 0, 0);
    PlusLaws(POLY, 0);
    PlusLaws(0, 0);
    PlusLaws(Word(b << 1), 0);
  }

  lemma WordShifted(b: bv8)
    ensures Shift(Word(b)) == Word(b << 1) && (Top(Word(b)) <==> b & 0x80 != 0)
  {
  }

  function ShiftedBy(b: bv8, n: nat): bv8
    decreases n
  {
    if n == 0 then b else ShiftedBy(b << 1, n - 1)
  }

  lemma {:induction false} TopBitsIs(c: bv32, b: bv8, n: nat)
    ensures Plus(Remainder(c, TopBits(b, n)), Word(ShiftedBy(b, n))) == Steps(Plus(c, Word(b)), n)
    decreases n
  {
    hide Step, BitStep, Plus, Word;
    if n > 0 {
      BitStepIs(c, b);
      TopBitsIs(BitStep(c, b & 0x80 != 0), b << 1, n - 1);
    }
  }

  lemma AllShiftedOut(b: bv8)
    ensures ShiftedBy(b, 8) == 0
  {
    assert ShiftedBy(b, 8) == ShiftedBy(b << 1, 7) == ShiftedBy(b << 1 << 1, 6) == ShiftedBy(b << 1 << 1 << 1, 5);
    var e := b << 1 << 1 << 1;
    assert ShiftedBy(e, 5) == ShiftedBy(e << 1, 4) == ShiftedBy(e << 1 << 1, 3) == ShiftedBy(e << 1 << 1 << 1, 2);
    assert ShiftedBy(e << 1 << 1 << 1, 2) == ShiftedBy(e << 1 << 1 << 1 << 1, 1) == e << 1 << 1 << 1 << 1 << 1;
  }

  lemma RemainderByte(c: bv32, b: bv8)
    ensures Remainder(c, BitsOf(b)) == Compute(c, b)
  {
    hide Compute, Remainder, Steps, Eight, ShiftedBy, TopBits, Plus, Word;
    ComputeIs(c, b);
    EightIs(Plus(c, Word(b)));
    TopBitsIs(c, b, 8);
    AllShiftedOut(b);
    NoShift(Remainder(c, BitsOf(b)));
  }

  lemma NoShift(c: bv32)
    ensures Plus(c, Word(0)) == c
  {
  }

  // ---- The loops ----------------------------------------------------------------------

  /** crc32 is the cksum of the data. */
  method Crc32(data: seq<bv8>) returns (r: bv32)
    requires |data| < 0x1_0000_0000
    ensures r == Cksum(data)
  {
    hide Compute, AllBits, LengthBytes, Remainder;
    var crc: bv32 := 0;
    Nothing(0);
    for p := 0 to |data|
      invariant crc == Remainder(0, AllBits(data[..p]))
    {
      NextByte(0, data[..p], data[p]);
      assert data[..p] + [data[p]] == data[..p + 1];
      crc := Compute(crc, data[p]);
    }
    assert data[..|data|] == data;
    var size: nat := |data|;
    ghost var done: seq<bv8> := [];
    assert data + [] == data;
    while size != 0
      invariant crc == Remainder(0, AllBits(data + done))
      invariant done + LengthBytes(size) == LengthBytes(|data|)
    {
      ghost var b := (size % 256) as bv8;
      NextLength(size);
      NextByte(0, data + done, b);
      assert (data + done) + [b] == data + (done + [b]);
      assert done + ([b] + LengthBytes(size / 256)) == (done + [b]) + LengthBytes(size / 256);
      crc := Compute(crc, (size % 256) as bv8);
      done := done + [b];
      size := size / 256;
    }
    NoLength();
    assert done + [] == done;
    return !crc;
  }

  lemma Nothing(c: bv32)
    ensures Remainder(c, AllBits([])) == c
  {
  }

  lemma NoLength()
    ensures LengthBytes(0) == []
  {
  }

  lemma NextLength(n: nat)
    requires n != 0
    ensures LengthBytes(n) == [(n % 256) as bv8] + LengthBytes(n / 256)
  {
  }

  lemma NextByte(c: bv32, a: seq<bv8>, b: bv8)
    ensures Remainder(c, AllBits(a + [b])) == Compute(Remainder(c, AllBits(a)), b)
  {
    hide Compute, BitsOf, Remainder;
    AllBitsAppend(a, [b]);
    assert [b][1..] == [] && AllBits([]) == [];
    assert AllBits([b]) == BitsOf(b);
    RemainderAppend(c, AllBits(a), BitsOf(b));
    RemainderByte(Remainder(c, AllBits(a)), b);
  }

  // ---- A test value ------------------------------------------------------------------------

  // "123456789"
  const DIGITS: seq<bv8> := [49, 50, 51, 52, 53, 54, 55, 56, 57]

  lemma Computed0()
    ensures Compute(0x00000000, 49) == 0xd0f37027 && Compute(0xd0f37027, 50) == 0x3f5b3a17
  {
  }

  lemma Computed2()
    ensures Compute(0x3f5b3a17, 51) == 0x6e368c64 && Compute(0x6e368c64, 52) == 0x619119d1
  {
  }

  lemma Computed4()
    ensures Compute(0x619119d1, 53) == 0xfa8a0cdb && Compute(0xfa8a0cdb, 54) == 0xe28ad0fd
  {
  }

  lemma Computed6()
    ensures Compute(0xe28ad0fd, 55) == 0x8c8edd82 && Compute(0x8c8edd82, 56) == 0x20e779a2
  {
  }

  lemma Computed8()
    ensures Compute(0x20e779a2, 57) == 0x89a1897f && Compute(0x89a1897f, 9) == 0xc8859fee
  {
  }

  /** The cksum of "123456789" is 930766865, and two bytes of length are added low
      byte first. */
  lemma TestValue()
    ensures Cksum(DIGITS) as nat == 930766865
    ensures LengthBytes(0x0102) == [2, 1]
  {
    hide Compute, AllBits, Remainder, LengthBytes;
    Lengths();
    Computed0();
    Computed2();
    Computed4();
    Computed6();
    Computed8();
    var all := DIGITS + [9];
    Nothing(0);
    assert all[..0] == [];
    for k := 0 to 10
      invariant Remainder(0, AllBits(all[..k])) == Register(k)
    {
      assert all[..k] + [all[k]] == all[..k + 1];
      NextByte(0, all[..k], all[k]);
    }
    assert all[..10] == all;
  }

  lemma Lengths()
    ensures LengthBytes(9) == [9] && LengthBytes(0x0102) == [2, 1]
  {
    NoLength();
    NextLength(9);
    NextLength(0x0102);
    NextLength(1);
  }

  /** The register after so many of the bytes. */
  function Register(k: nat): bv32 {
    match k
    case 0 => 0x00000000
    case 1 => 0xd0f37027
    case 2 => 0x3f5b3a17
    case 3 => 0x6e368c64
    case 4 => 0x619119d1
    case 5 => 0xfa8a0cdb
    case 6 => 0xe28ad0fd
    case 7 => 0x8c8edd82
    case 8 => 0x20e779a2
    case 9 => 0x89a1897f
    case _ => 0xc8859fee
  }

  // ---- What it is good for ----------------------------------------------------------------

  function Differences(a: seq<bool>, b: seq<bool>): (r: seq<bool>)
    requires |a| == |b|
    ensures |r| == |a|
  {
    seq(|a|, i requires 0 <= i < |a| => a[i] != b[i])
  }

  lemma BitStepLinear(c: bv32, d: bv32, a: bool, b: bool)
    ensures Plus(BitStep(c, a), BitStep(d, b)) == BitStep(Plus(c, d), a != b)
  {
    hide Plus, Shift, Top;
    ShiftLinear(c, d);
    TopLinear(c, d);
    Rearranged(Shift(c), Shift(d), if Top(c) != a then POLY else 0, if Top(d) != b then POLY else 0);
    PlusLaws(POLY, 0);
    PlusLaws(0, POLY);
    PlusLaws(0, 0);
  }

  lemma {:induction false} RemainderLinear(c: bv32, d: bv32, a: seq<bool>, b: seq<bool>)
    requires |a| == |b|
    ensures Plus(Remainder(c, a), Remainder(d, b)) == Remainder(Plus(c, d), Differences(a, b))
    decreases a
  {
    hide BitStep, Plus;
    if a != [] {
      BitStepLinear(c, d, a[0], b[0]);
      assert Differences(a, b)[1..] == Differences(a[1..], b[1..]);
      RemainderLinear(BitStep(c, a[0]), BitStep(d, b[0]), a[1..], b[1..]);
    }
  }

  /** n shifts push out all the bits of d. */
  predicate Gone(d: bv32, n: nat)
    decreases n
  {
    if n == 0 then d == 0 else Gone(d << 1, n - 1)
  }

  lemma GoneFour(d: bv32, n: nat)
    ensures Gone(d, n + 4) == Gone(d << 4, n)
  {
    assert Gone(d, n + 4) == Gone(d << 1, n + 3);
    assert Gone(d << 1, n + 3) == Gone(d << 1 << 1, n + 2);
    assert Gone(d << 1 << 1, n + 2) == Gone(d << 1 << 1 << 1, n + 1);
    assert d << 1 << 1 << 1 << 1 == d << 4;
  }

  lemma {:induction false} GoneLater(d: bv32, n: nat, m: nat)
    requires Gone(d, n) && n <= m
    ensures Gone(d, m)
    decreases m
  {
    if m > 0 {
      if n == 0 { assert d << 1 == 0; GoneLater(d << 1, 0, m - 1); } else { GoneLater(d << 1, n - 1, m - 1); }
    }
  }

  /** Less than a registerful of shifts does not push out the lowest bit. */
  lemma OddStays(d: bv32, n: nat)
    requires d & 1 == 1 && n <= 31
    ensures !Gone(d, n)
  {
    if Gone(d, n) {
      GoneLater(d, n, 31);
      GoneFour(d, 27);
      GoneFour(d << 4, 23);
      GoneFour(d << 4 << 4, 19);
      OddGone(d << 4 << 4 << 4, d);
    }
  }

  lemma OddGone(e: bv32, d: bv32)
    requires d & 1 == 1 && e == d << 4 << 4 << 4
    ensures !Gone(e, 19)
  {
    GoneFour(e, 15);
    GoneFour(e << 4, 11);
    GoneFour(e << 4 << 4, 7);
    GoneFour(e << 4 << 4 << 4, 3);
    var f := e << 4 << 4 << 4 << 4;
    LastShifts(f);
    ShiftedFar(d);
  }

  lemma LastShifts(f: bv32)
    ensures Gone(f, 3) <==> f << 1 << 1 << 1 == 0
  {
    assert Gone(f, 3) == Gone(f << 1, 2);
    assert Gone(f << 1, 2) == Gone(f << 1 << 1, 1);
    assert Gone(f << 1 << 1, 1) == Gone(f << 1 << 1 << 1, 0);
  }

  lemma ShiftedFar(d: bv32)
    requires d & 1 == 1
    ensures d << 4 << 4 << 4 << 4 << 4 << 4 << 4 << 1 << 1 << 1 != 0
  {
  }

  lemma Odd(d: bv32, bit: bool)
    ensures if Top(d) != bit then BitStep(d, bit) & 1 == 1 else BitStep(d, bit) == d << 1
  {
  }

  /** Fewer bits than the register is wide can only lead to zero by shifting. */
  lemma {:induction false} EndsInZero(d: bv32, w: seq<bool>)
    requires |w| <= 32 && Remainder(d, w) == 0
    ensures Gone(d, |w|)
    decreases w
  {
    if w != [] {
      EndsInZero(BitStep(d, w[0]), w[1..]);
      Odd(d, w[0]);
      if Top(d) != w[0] { OddStays(BitStep(d, w[0]), |w| - 1); }
    }
  }

  /** No change within 32 bits leads to the register it would have led to. */
  lemma {:induction false} BurstShows(w: seq<bool>)
    requires |w| <= 32 && true in w
    ensures Remainder(0, w) != 0
  {
    if w[0] {
      if Remainder(0, w) == 0 {
        assert BitStep(0, true) == POLY;
        EndsInZero(POLY, w[1..]);
        assert POLY & 1 == 1;
        OddStays(POLY, |w| - 1);
      }
    } else {
      assert BitStep(0, false) == 0;
      assert true in w[1..];
      BurstShows(w[1..]);
    }
  }

  lemma BitStepInjective(c: bv32, d: bv32, bit: bool)
    requires c != d
    ensures BitStep(c, bit) != BitStep(d, bit)
  {
    hide BitStep, Plus;
    BitStepLinear(c, d, bit, bit);
    PlusLaws(c, d);
    PlusLaws(BitStep(c, bit), 0);
    OnlyZero(Plus(c, d));
  }

  lemma OnlyZero(x: bv32)
    ensures BitStep(x, false) == 0 ==> x == 0
  {
  }

  lemma {:induction false} RemainderInjective(c: bv32, d: bv32, bits: seq<bool>)
    requires c != d
    ensures Remainder(c, bits) != Remainder(d, bits)
    decreases bits
  {
    hide BitStep;
    if bits != [] {
      BitStepInjective(c, d, bits[0]);
      RemainderInjective(BitStep(c, bits[0]), BitStep(d, bits[0]), bits[1..]);
    }
  }

  /** Two strings of one length that differ only within 32 consecutive bits
      have different checksums. */
  lemma BurstDetected(data: seq<bv8>, other: seq<bv8>, before: seq<bool>, was: seq<bool>, now: seq<bool>,
                      after: seq<bool>)
    requires |data| == |other| && |was| == |now| <= 32 && was != now
    requires AllBits(data) == before + was + after && AllBits(other) == before + now + after
    ensures Cksum(data) != Cksum(other)
  {
    hide BitStep, AllBits, LengthBytes, Remainder, Plus;
    hide Cksum;
    var length := AllBits(LengthBytes(|data|));
    CksumIs(data);
    CksumIs(other);
    Longer(AllBits(data), before, was, after, length);
    Longer(AllBits(other), before, now, after, length);
    BurstRemains(before, was, now, after + length);
    Complements(Remainder(0, AllBits(data) + length), Remainder(0, AllBits(other) + length));
  }

  lemma CksumIs(data: seq<bv8>)
    ensures Cksum(data) == !Remainder(0, AllBits(data) + AllBits(LengthBytes(|data|)))
  {
    AllBitsAppend(data, LengthBytes(|data|));
  }

  lemma Longer(bits: seq<bool>, before: seq<bool>, w: seq<bool>, after: seq<bool>, more: seq<bool>)
    requires bits == before + w + after
    ensures bits + more == before + w + (after + more)
  {
  }

  lemma BurstRemains(before: seq<bool>, was: seq<bool>, now: seq<bool>, after: seq<bool>)
    requires |was| == |now| <= 32 && was != now
    ensures Remainder(0, before + was + after) != Remainder(0, before + now + after)
  {
    hide BitStep, Remainder, Plus;
    var c := Remainder(0, before);
    RemainderAppend(0, before + was, after);
    RemainderAppend(0, before, was);
    RemainderAppend(0, before + now, after);
    RemainderAppend(0, before, now);
    RemainderLinear(c, c, was, now);
    PlusLaws(c, c);
    var k :| 0 <= k < |was| && was[k] != now[k];
    assert Differences(was, now)[k];
    BurstShows(Differences(was, now));
    PlusLaws(Remainder(c, was), Remainder(c, now));
    RemainderInjective(Remainder(c, was), Remainder(c, now), after);
  }

  lemma Complements(a: bv32, b: bv32)
    ensures a != b ==> !a != !b
  {
  }
}
