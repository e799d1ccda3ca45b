/**
 * The table-driven checksum of the dsPIC firmware image: components/apollo_ota/crc32.c.
 *
 * The loop with its table of 256 entries is proved equal to the bit-serial CRC-32 of section 8 of
 * RFC 1952 (polynomial 0xEDB88320, reflected, complemented before and after) of the buffer in
 * which every byte at an index of 3 modulo 4 counts as zero.
 */
module Crc32 {

  // ----- the table

  /** The entry numbered `i` modulo 8 among eight. */
  function Select(i: bv32, e0: bv32, e1: bv32, e2: bv32, e3: bv32, e4: bv32, e5: bv32, e6: bv32, e7: bv32): bv32 {
    if i & 4 == 0 then
      (if i & 2 == 0 then (if i & 1 == 0 then e0 else e1) else (if i & 1 == 0 then e2 else e3))
    else
      (if i & 2 == 0 then (if i & 1 == 0 then e4 else e5) else (if i & 1 == 0 then e6 else e7))
  }

  function Table0(i: bv32): bv32 {
    Select(i >> 3,
      Select(i, 0x00000000, 0x77073096, 0xee0e612c, 0x990951ba, 0x076dc419, 0x706af48f, 0xe963a535, 0x9e6495a3),
      Select(i, 0x0edb8832, 0x79dcb8a4, 0xe0d5e91e, 0x97d2d988, 0x09b64c2b, 0x7eb17cbd, 0xe7b82d07, 0x90bf1d91),
      Select(i, 0x1db71064, 0x6ab020f2, 0xf3b97148, 0x84be41de, 0x1adad47d, 0x6ddde4eb, 0xf4d4b551, 0x83d385c7),
      Select(i, 0x136c9856, 0x646ba8c0, 0xfd62f97a, 0x8a65c9ec, 0x14015c4f, 0x63066cd9, 0xfa0f3d63, 0x8d080df5),
      Select(i, 0x3b6e20c8, 0x4c69105e, 0xd56041e4, 0xa2677172, 0x3c03e4d1, 0x4b04d447, 0xd20d85fd, 0xa50ab56b),
      Select(i, 0x35b5a8fa, 0x42b2986c, 0xdbbbc9d6, 0xacbcf940, 0x32d86ce3, 0x45df5c75, 0xdcd60dcf, 0xabd13d59),
      Select(i, 0x26d930ac, 0x51de003a, 0xc8d75180, 0xbfd06116, 0x21b4f4b5, 0x56b3c423, 0xcfba9599, 0xb8bda50f),
      Select(i, 0x2802b89e, 0x5f058808, 0xc60cd9b2, 0xb10be924, 0x2f6f7c87, 0x58684c11, 0xc1611dab, 0xb6662d3d))
  }

  function Table1(i: bv32): bv32 {
    Select(i >> 3,
      Select(i, 0x76dc4190, 0x01db7106, 0x98d220bc, 0xefd5102a, 0x71b18589, 0x06b6b51f, 0x9fbfe4a5, 0xe8b8d433),
      Select(i, 0x7807c9a2, 0x0f00f934, 0x9609a88e, 0xe10e9818, 0x7f6a0dbb, 0x086d3d2d, 0x91646c97, 0xe6635c01),
      Select(i, 0x6b6b51f4, 0x1c6c6162, 0x856530d8, 0xf262004e, 0x6c0695ed, 0x1b01a57b, 0x8208f4c1, 0xf50fc457),
      Select(i, 0x65b0d9c6, 0x12b7e950, 0x8bbeb8ea, 0xfcb9887c, 0x62dd1ddf, 0x15da2d49, 0x8cd37cf3, 0xfbd44c65),
      Select(i, 0x4db26158, 0x3ab551ce, 0xa3bc0074, 0xd4bb30e2, 0x4adfa541, 0x3dd895d7, 0xa4d1c46d, 0xd3d6f4fb),
      Select(i, 0x4369e96a, 0x346ed9fc, 0xad678846, 0xda60b8d0, 0x44042d73, 0x33031de5, 0xaa0a4c5f, 0xdd0d7cc9),
      Select(i, 0x5005713c, 0x270241aa, 0xbe0b1010, 0xc90c2086, 0x5768b525, 0x206f85b3, 0xb966d409, 0xce61e49f),
      Select(i, 0x5edef90e, 0x29d9c998, 0xb0d09822, 0xc7d7a8b4, 0x59b33d17, 0x2eb40d81, 0xb7bd5c3b, 0xc0ba6cad))
  }

  function Table2(i: bv32): bv32 {
    Select(i >> 3,
      Select(i, 0xedb88320, 0x9abfb3b6, 0x03b6e20c, 0x74b1d29a, 0xead54739, 0x9dd277af, 0x04db2615, 0x73dc1683),
      Select(i, 0xe3630b12, 0x94643b84, 0x0d6d6a3e, 0x7a6a5aa8, 0xe40ecf0b, 0x9309ff9d, 0x0a00ae27, 0x7d079eb1),
      Select(i, 0xf00f9344, 0x8708a3d2, 0x1e01f268, 0x6906c2fe, 0xf762575d, 0x806567cb, 0x196c3671, 0x6e6b06e7),
      Select(i, 0xfed41b76, 0x89d32be0, 0x10da7a5a, 0x67dd4acc, 0xf9b9df6f, 0x8ebeeff9, 0x17b7be43, 0x60b08ed5),
      Select(i, 0xd6d6a3e8, 0xa1d1937e, 0x38d8c2c4, 0x4fdff252, 0xd1bb67f1, 0xa6bc5767, 0x3fb506dd, 0x48b2364b),
      Select(i, 0xd80d2bda, 0xaf0a1b4c, 0x36034af6, 0x41047a60, 0xdf60efc3, 0xa867df55, 0x316e8eef, 0x4669be79),
      Select(i, 0xcb61b38c, 0xbc66831a, 0x256fd2a0, 0x5268e236, 0xcc0c7795, 0xbb0b4703, 0x220216b9, 0x5505262f),
      Select(i, 0xc5ba3bbe, 0xb2bd0b28, 0x2bb45a92, 0x5cb36a04, 0xc2d7ffa7, 0xb5d0cf31, 0x2cd99e8b, 0x5bdeae1d))
  }

  function Table3(i: bv32): bv32 {
    Select(i >> 3,
      Select(i, 0x9b64c2b0, 0xec63f226, 0x756aa39c, 0x026d930a, 0x9c0906a9, 0xeb0e363f, 0x72076785, 0x05005713),
      Select(i, 0x95bf4a82, 0xe2b87a14, 0x7bb12bae, 0x0cb61b38, 0x92d28e9b, 0xe5d5be0d, 0x7cdcefb7, 0x0bdbdf21),
      Select(i, 0x86d3d2d4, 0xf1d4e242, 0x68ddb3f8, 0x1fda836e, 0x81be16cd, 0xf6b9265b, 0x6fb077e1, 0x18b74777),
      Select(i, 0x88085ae6, 0xff0f6a70, 0x66063bca, 0x11010b5c, 0x8f659eff, 0xf862ae69, 0x616bffd3, 0x166ccf45),
      Select(i, 0xa00ae278, 0xd70dd2ee, 0x4e048354, 0x3903b3c2, 0xa7672661, 0xd06016f7, 0x4969474d, 0x3e6e77db),
      Select(i, 0xaed16a4a, 0xd9d65adc, 0x40df0b66, 0x37d83bf0, 0xa9bcae53, 0xdebb9ec5, 0x47b2cf7f, 0x30b5ffe9),
      Select(i, 0xbdbdf21c, 0xcabac28a, 0x53b39330, 0x24b4a3a6, 0xbad03605, 0xcdd70693, 0x54de5729, 0x23d967bf),
      Select(i, 0xb3667a2e, 0xc4614ab8, 0x5d681b02, 0x2a6f2b94, 0xb40bbe37, 0xc30c8ea1, 0x5a05df1b, 0x2d02ef8d))
  }

  /** `crc32_tab[i]`. */
  function Table(i: bv32): bv32 {
    if i < 64 then Table0(i) else if i < 128 then Table1(i) else if i < 192 then Table2(i) else Table3(i)
  }

  /** The operators of the source, named so that a proof can leave their bits aside. */
  function Xor(x: bv32, y: bv32): bv32 {
    x ^ y
  }

  function Complement(x: bv32): bv32 {
    x ^ 0xffffffff
  }

  function LowByte(x: bv32): bv32 {
    x & 0xff
  }

  function DropByte(x: bv32): bv32 {
    x >> 8
  }

  // ----- the bit-serial reference

  const POLYNOMIAL: bv32 := 0xedb88320

  /** The register moves on by one bit. */
  function Shift(crc: bv32): bv32 {
    (crc >> 1) ^ (if crc & 1 == 1 then POLYNOMIAL else 0)
  }

  /** The register after it has met a message bit. */
  function Meet(crc: bv32, bit: bool): bv32 {
    if bit then crc ^ 1 else crc
  }

  /** The message bits, each meeting the lowest bit of the register. */
  function ShiftIn(crc: bv32, bits: seq<bool>): bv32
    decreases |bits|
  {
    if bits == [] then crc
    else ShiftIn(Shift(Meet(crc, bits[0])), bits[1..])
  }

  /** The `n` lowest bits of `y`, lowest first. */
  function LowBits(y: bv32, n: nat): seq<bool>
    decreases n
  {
    if n == 0 then [] else [y & 1 == 1] + LowBits(y >> 1, n - 1)
  }

  function BitsOf(message: seq<bv8>): seq<bool> {
    if message == [] then []
    else BitsOf(message[..|message| - 1]) + LowBits(message[|message| - 1] as bv32, 8)
  }

  /** CRC-32 of a message, continued from an earlier checksum. */
  function Checksum(crc: bv32, message: seq<bv8>): bv32 {
    Complement(ShiftIn(Complement(crc), BitsOf(message)))
  }

  /** The firmware words have 24 bits: the fourth byte of each is never programmed. */
  predicate Unprogrammed(i: nat) {
    i % 4 == 3
  }

  function Masked(buf: seq<bv8>): (m: seq<bv8>)
    ensures |m| == |buf|
  {
    seq(|buf|, i requires 0 <= i < |buf| => if Unprogrammed(i) then 0 else buf[i])
  }

  // ----- the register is linear over exclusive or


  lemma XorFacts(a: bv32, b: bv32, p: bv32)
    ensures (a ^ p) ^ b == (a ^ b) ^ p
    ensures a ^ (b ^ p) == (a ^ b) ^ p
    ensures (a ^ p) ^ (b ^ p) == a ^ b
    ensures a ^ 0 == a
  {}

  lemma LowBit(x: bv32, y: bv32)
    ensures (x ^ y) >> 1 == (x >> 1) ^ (y >> 1)
    ensures x & 1 == 0 || x & 1 == 1
    ensures (x ^ y) & 1 == 1 <==> x & 1 != y & 1
  {}

  lemma ShiftOfXor(x: bv32, y: bv32)
    ensures Shift(x ^ y) == Shift(x) ^ Shift(y)
  {
    LowBit(x, y);
    LowBit(y, x);
    XorFacts(x >> 1, y >> 1, POLYNOMIAL);
    XorFacts(x >> 1, y >> 1, 0);
  }

  lemma ShiftXor(x: bv32, y: bv32)
    ensures Shift(Xor(x, y)) == Xor(Shift(x), Shift(y))
  {
    hide Shift;
    ShiftOfXor(x, y);
  }

  function Shifts(x: bv32, n: nat): bv32
    decreases n
  {
    if n == 0 then x else Shifts(Shift(x), n - 1)
  }

  lemma {:induction false} ShiftsXor(x: bv32, y: bv32, n: nat)
    ensures Shifts(Xor(x, y), n) == Xor(Shifts(x, n), Shifts(y, n))
    decreases n
  {
    hide Xor, Shift;
    if n > 0 {
      ShiftXor(x, y);
      ShiftsXor(Shift(x), Shift(y), n - 1);
    }
  }

  function Halved(y: bv32, n: nat): bv32
    decreases n
  {
    if n == 0 then y else Halved(y >> 1, n - 1)
  }

  predicate LowBitsClear(y: bv32, n: nat)
    decreases n
  {
    n == 0 || (y & 1 == 0 && LowBitsClear(y >> 1, n - 1))
  }

  lemma ShiftOfEven(y: bv32)
    requires y & 1 == 0
    ensures Shift(y) == y >> 1
  {
    XorFacts(y >> 1, 0, 0);
  }

  /** Bits that never reach the low end only move down. */
  lemma {:induction false} ShiftsOfHighBits(y: bv32, n: nat)
    requires LowBitsClear(y, n)
    ensures Shifts(y, n) == Halved(y, n)
    decreases n
  {
    if n > 0 {
      ShiftOfEven(y);
      hide Shift;
      ShiftsOfHighBits(y >> 1, n - 1);
    }
  }

  // ----- the table holds eight steps of each byte

  function Gate(i: bv32, p: bv32, entry: bv32): bv32 {
    if i & p != 0 then entry else 0
  }

  function Part(i: bv32, mask: bv32): bv32 {
    i & mask
  }

  /** The entries at the powers of two, one for each bit of the index: lower and upper half. */
  function LowEntries(i: bv32): bv32 {
    (if i & 1 != 0 then 0x77073096 else 0) ^ (if i & 2 != 0 then 0xee0e612c else 0) ^
    (if i & 4 != 0 then 0x076dc419 else 0) ^ (if i & 8 != 0 then 0x0edb8832 else 0)
  }

  function HighEntries(i: bv32): bv32 {
    (if i & 16 != 0 then 0x1db71064 else 0) ^ (if i & 32 != 0 then 0x3b6e20c8 else 0) ^
    (if i & 64 != 0 then 0x76dc4190 else 0) ^ (if i & 128 != 0 then 0xedb88320 else 0)
  }

  function Combination(i: bv32): bv32 {
    Xor(LowEntries(i), HighEntries(i))
  }

  lemma Table0Combines(i: bv32)
    requires i >> 6 == 0
    ensures Table0(i) == Combination(i)
  {}

  lemma Table1Combines(i: bv32)
    requires i >> 6 == 1
    ensures Table1(i) == Combination(i)
  {}

  lemma Table2Combines(i: bv32)
    requires i >> 6 == 2
    ensures Table2(i) == Combination(i)
  {}

  lemma Table3Combines(i: bv32)
    requires i >> 6 == 3
    ensures Table3(i) == Combination(i)
  {}

  lemma TableCombines(i: bv32)
    requires i < 256
    ensures Table(i) == Combination(i)
  {
    hide Table0, Table1, Table2, Table3, Combination;
    if i < 64 {
      Table0Combines(i);
    } else if i < 128 {
      Table1Combines(i);
    } else if i < 192 {
      Table2Combines(i);
    } else {
      Table3Combines(i);
    }
  }

  function Shift8(x: bv32): bv32 {
    Shift(Shift(Shift(Shift(Shift(Shift(Shift(Shift(x))))))))
  }

  lemma ShiftsOfPowers()
    ensures Shift8(1) == 0x77073096
    ensures Shift8(2) == 0xee0e612c
    ensures Shift8(4) == 0x076dc419
    ensures Shift8(8) == 0x0edb8832
    ensures Shift8(16) == 0x1db71064
    ensures Shift8(32) == 0x3b6e20c8
    ensures Shift8(64) == 0x76dc4190
    ensures Shift8(128) == 0xedb88320
  {}

  lemma ShiftsIsShift8(x: bv32)
    ensures Shifts(x, 8) == Shift8(x)
  {}

  lemma {:induction false} ShiftsOfZero(n: nat)
    ensures Shifts(0, n) == 0
  {
    if n > 0 { ShiftsOfZero(n - 1); }
  }

  lemma Halved8(y: bv32)
    ensures Halved(y, 8) == DropByte(y)
    ensures y < 256 ==> Halved(y, 8) == 0
    ensures y & 0xff == 0 ==> LowBitsClear(y, 8)
  {}

  lemma ShiftsOfOneBit(i: bv32, p: bv32, entry: bv32)
    requires Shift8(p) == entry
    requires Part(i, p) == (if Gate(i, p, 1) == 0 then 0 else p)
    ensures Shifts(Part(i, p), 8) == Gate(i, p, entry)
  {
    hide Shift, Shift8, Shifts, Part;
    ShiftsIsShift8(p);
    ShiftsOfZero(8);
  }

  /** The steps of the bits of `i` up to and including `p`, from those below `p`. */
  lemma AddOneBit(i: bv32, below: bv32, p: bv32, upTo: bv32, entry: bv32)
    requires Shift8(p) == entry
    requires Part(i, p) == (if Gate(i, p, 1) == 0 then 0 else p)
    requires Part(i, upTo) == Xor(Part(i, below), Part(i, p))
    ensures Shifts(Part(i, upTo), 8) == Xor(Shifts(Part(i, below), 8), Gate(i, p, entry))
  {
    hide Xor, Part, Gate, Shift, Shift8, Shifts;
    ShiftsOfOneBit(i, p, entry);
    ShiftsXor(Part(i, below), Part(i, p), 8);
  }

  lemma OneBit(i: bv32)
    ensures i & 1 == 0 || i & 1 == 1
    ensures i & 2 == 0 || i & 2 == 2
    ensures i & 4 == 0 || i & 4 == 4
    ensures i & 8 == 0 || i & 8 == 8
    ensures i & 16 == 0 || i & 16 == 16
    ensures i & 32 == 0 || i & 32 == 32
    ensures i & 64 == 0 || i & 64 == 64
    ensures i & 128 == 0 || i & 128 == 128
    ensures i < 256 ==> i & 255 == i
  {}

  lemma JoinBits(i: bv32, below: bv32, p: bv32, upTo: bv32)
    requires below & p == 0 && below | p == upTo
    ensures i & upTo == (i & below) ^ (i & p)
  {}

  lemma PartJoins(i: bv32, below: bv32, p: bv32, upTo: bv32)
    requires below & p == 0 && below | p == upTo
    ensures Part(i, upTo) == Xor(Part(i, below), Part(i, p))
  {
    JoinBits(i, below, p, upTo);
  }

  lemma PartFacts(i: bv32, below: bv32, p: bv32, upTo: bv32)
    requires i & p == 0 || i & p == p
    requires below & p == 0 && below | p == upTo && p != 0
    ensures Part(i, p) == (if Gate(i, p, 1) == 0 then 0 else p)
    ensures Part(i, upTo) == Xor(Part(i, below), Part(i, p))
  {
    PartJoins(i, below, p, upTo);
    hide Xor;
  }

  lemma WholePart(i: bv32)
    requires i < 256
    ensures Part(i, 255) == i
  {}

  lemma GateIs(i: bv32, p: bv32, entry: bv32)
    ensures Gate(i, p, entry) == if i & p != 0 then entry else 0
  {}

  lemma XorGate(x: bv32, plain: bv32, i: bv32, p: bv32, entry: bv32)
    requires x == plain
    ensures Xor(x, Gate(i, p, entry)) == plain ^ (if i & p != 0 then entry else 0)
  {}

  lemma LowEntriesAreGates(i: bv32)
    ensures LowEntries(i)
            == Xor(Xor(Xor(Gate(i, 1, 0x77073096), Gate(i, 2, 0xee0e612c)), Gate(i, 4, 0x076dc419)),
                   Gate(i, 8, 0x0edb8832))
  {
    GateIs(i, 1, 0x77073096);
    hide Xor, Gate;
    XorGate(Gate(i, 1, 0x77073096), (if i & 1 != 0 then 0x77073096 else 0), i, 2, 0xee0e612c);
    XorGate(Xor(Gate(i, 1, 0x77073096), Gate(i, 2, 0xee0e612c)),
            (if i & 1 != 0 then 0x77073096 else 0) ^ (if i & 2 != 0 then 0xee0e612c else 0),
            i, 4, 0x076dc419);
    XorGate(Xor(Xor(Gate(i, 1, 0x77073096), Gate(i, 2, 0xee0e612c)), Gate(i, 4, 0x076dc419)),
            (if i & 1 != 0 then 0x77073096 else 0) ^ (if i & 2 != 0 then 0xee0e612c else 0)
            ^ (if i & 4 != 0 then 0x076dc419 else 0),
            i, 8, 0x0edb8832);
  }

  lemma HighEntriesAreGates(i: bv32)
    ensures HighEntries(i)
            == Xor(Xor(Xor(Gate(i, 16, 0x1db71064), Gate(i, 32, 0x3b6e20c8)), Gate(i, 64, 0x76dc4190)),
                   Gate(i, 128, 0xedb88320))
  {
    GateIs(i, 16, 0x1db71064);
    hide Xor, Gate;
    XorGate(Gate(i, 16, 0x1db71064), (if i & 16 != 0 then 0x1db71064 else 0), i, 32, 0x3b6e20c8);
    XorGate(Xor(Gate(i, 16, 0x1db71064), Gate(i, 32, 0x3b6e20c8)),
            (if i & 16 != 0 then 0x1db71064 else 0) ^ (if i & 32 != 0 then 0x3b6e20c8 else 0),
            i, 64, 0x76dc4190);
    XorGate(Xor(Xor(Gate(i, 16, 0x1db71064), Gate(i, 32, 0x3b6e20c8)), Gate(i, 64, 0x76dc4190)),
            (if i & 16 != 0 then 0x1db71064 else 0) ^ (if i & 32 != 0 then 0x3b6e20c8 else 0)
            ^ (if i & 64 != 0 then 0x76dc4190 else 0),
            i, 128, 0xedb88320);
  }

  /** A table entry is what eight steps make of its index. */
  lemma TableIsEightShifts(i: bv32)
    requires i < 256
    ensures Table(i) == Shifts(i, 8)
  {
    LowHalf(i);
    HighHalf(i);
    TableCombines(i);
    WholePart(i);
    PartJoins(i, 15, 240, 255);
    hide Xor, Part, Shifts, Table, LowEntries, HighEntries;
    ShiftsXor(Part(i, 15), Part(i, 240), 8);
  }

  lemma LowHalf(i: bv32)
    ensures Shifts(Part(i, 15), 8) == LowEntries(i)
  {
    ShiftsOfPowers();
    hide Xor, Gate, Part, Shift, Shift8, Shifts, LowEntries;
    OneBit(i);
    LowEntriesAreGates(i);
    PartFacts(i, 0, 1, 1);
    ShiftsOfOneBit(i, 1, 0x77073096);
    PartFacts(i, 1, 2, 3);
    AddOneBit(i, 1, 2, 3, 0xee0e612c);
    PartFacts(i, 3, 4, 7);
    AddOneBit(i, 3, 4, 7, 0x076dc419);
    PartFacts(i, 7, 8, 15);
    AddOneBit(i, 7, 8, 15, 0x0edb8832);
  }

  lemma HighHalf(i: bv32)
    ensures Shifts(Part(i, 240), 8) == HighEntries(i)
  {
    ShiftsOfPowers();
    hide Xor, Gate, Part, Shift, Shift8, Shifts, HighEntries;
    OneBit(i);
    HighEntriesAreGates(i);
    PartFacts(i, 0, 16, 16);
    ShiftsOfOneBit(i, 16, 0x1db71064);
    PartFacts(i, 16, 32, 48);
    AddOneBit(i, 16, 32, 48, 0x3b6e20c8);
    PartFacts(i, 48, 64, 112);
    AddOneBit(i, 48, 64, 112, 0x76dc4190);
    PartFacts(i, 112, 128, 240);
    AddOneBit(i, 112, 128, 240, 0xedb88320);
  }

  function UpperBytes(x: bv32): bv32 {
    x & 0xffffff00
  }

  lemma SplitWord(x: bv32)
    ensures x == Xor(LowByte(x), UpperBytes(x))
    ensures LowByte(x) < 256
    ensures UpperBytes(x) & 0xff == 0
    ensures DropByte(UpperBytes(x)) == DropByte(x)
  {}

  lemma MeetByte(crc: bv32, b: bv32)
    requires b < 256
    ensures DropByte(Xor(crc, b)) == DropByte(crc)
  {}

  /** What the loop makes of its register and a byte. */
  function Round(crc: bv32, b: bv8): bv32 {
    Xor(Table(LowByte(Xor(crc, b as bv32))), DropByte(crc))
  }

  /** One round of the loop is eight steps of the register. */
  lemma RoundIsEightShifts(crc: bv32, b: bv8)
    ensures Round(crc, b) == Shifts(Xor(crc, b as bv32), 8)
  {
    var x := Xor(crc, b as bv32);
    hide Xor, DropByte, LowByte, UpperBytes, Shift, Shifts, Table, Halved, LowBitsClear;
    SplitWord(x);
    MeetByte(crc, b as bv32);
    ShiftsXor(LowByte(x), UpperBytes(x), 8);
    Halved8(UpperBytes(x));
    ShiftsOfHighBits(UpperBytes(x), 8);
    TableIsEightShifts(LowByte(x));
  }

  // ----- the bits of a byte, taken together

  lemma MeetFacts(crc: bv32, y: bv32)
    ensures Meet(crc, y & 1 == 1) ^ (y & 0xfffffffe) == crc ^ y
    ensures (y & 0xfffffffe) & 1 == 0
    ensures (y & 0xfffffffe) >> 1 == y >> 1
  {}

  lemma SplitLowBit(crc: bv32, y: bv32)
    ensures Xor(Shift(Meet(crc, y & 1 == 1)), y >> 1) == Shift(Xor(crc, y))
  {
    hide Shift, Meet;
    var rest := y & 0xfffffffe;
    MeetFacts(crc, y);
    ShiftOfEven(rest);
    ShiftXor(Meet(crc, y & 1 == 1), rest);
  }

  lemma {:induction false} ShiftInLowBits(crc: bv32, y: bv32, n: nat)
    ensures Xor(ShiftIn(crc, LowBits(y, n)), Halved(y, n)) == Shifts(Xor(crc, y), n)
    decreases n
  {
    hide Xor, Shift, Meet;
    if n > 0 {
      var s := Meet(crc, y & 1 == 1);
      var bits := LowBits(y, n);
      assert bits[1..] == LowBits(y >> 1, n - 1);
      ShiftInLowBits(Shift(s), y >> 1, n - 1);
      SplitLowBit(crc, y);
    }
  }

  lemma {:induction false} ShiftInJoins(crc: bv32, a: seq<bool>, b: seq<bool>)
    ensures ShiftIn(crc, a + b) == ShiftIn(ShiftIn(crc, a), b)
    decreases |a|
  {
    if a == [] {
      assert a + b == b;
    } else {
      assert (a + b)[1..] == a[1..] + b;
      ShiftInJoins(Shift(Meet(crc, a[0])), a[1..], b);
    }
  }

  /** Taking one more byte is one round of the loop. */
  lemma ShiftInByte(crc: bv32, b: bv8)
    ensures ShiftIn(crc, LowBits(b as bv32, 8)) == Round(crc, b)
  {
    var y := b as bv32;
    hide Xor, DropByte, LowByte, Round, ShiftIn, LowBits, Shifts, Halved;
    ShiftInLowBits(crc, y, 8);
    Halved8(y);
    XorZero(ShiftIn(crc, LowBits(y, 8)));
    RoundIsEightShifts(crc, b);
  }

  lemma XorZero(x: bv32)
    ensures Xor(x, 0) == x
  {}

  lemma ShiftInOneMore(crc: bv32, message: seq<bv8>, b: bv8)
    ensures ShiftIn(crc, BitsOf(message + [b])) == Round(ShiftIn(crc, BitsOf(message)), b)
  {
    hide ShiftIn, Round, LowBits;
    assert (message + [b])[..|message|] == message;
    ShiftInJoins(crc, BitsOf(message), LowBits(b as bv32, 8));
    ShiftInByte(ShiftIn(crc, BitsOf(message)), b);
  }

  // ----- the loop

  lemma EmptyMessage(crc: bv32)
    ensures ShiftIn(crc, BitsOf([])) == crc
  {}

  lemma MaskedPrefix(buf: seq<bv8>, i: nat)
    requires i < |buf|
    ensures Masked(buf)[..i + 1] == Masked(buf)[..i] + [if i % 4 == 3 then 0 else buf[i]]
  {}

  /**
   * The source counts the bytes of one call; the fourth of each group of four is taken as zero
   * whatever the buffer holds there.
   */
  method Crc32(crc: bv32, buf: seq<bv8>) returns (r: bv32)
    ensures r == Checksum(crc, Masked(buf))
  {
    hide Masked, BitsOf, ShiftIn, Table, LowBits, Xor, DropByte, LowByte, Complement;
    var c := Complement(crc);
    EmptyMessage(c);
    var i := 0;
    while i < |buf|
      invariant 0 <= i <= |buf|
      invariant c == ShiftIn(Complement(crc), BitsOf(Masked(buf)[..i]))
    {
      var element := buf[i];
      if i % 4 == 3 {
        element := 0;
      }
      MaskedPrefix(buf, i);
      ShiftInOneMore(Complement(crc), Masked(buf)[..i], element);
      c := Xor(Table(LowByte(Xor(c, element as bv32))), DropByte(c));
      i := i + 1;
    }
    assert Masked(buf)[..i] == Masked(buf);
    r := Complement(c);
  }

  // ----- what the checksum tells apart

  /** A step loses nothing: distinct registers stay distinct. */
  lemma ShiftIsInjective(x: bv32, y: bv32)
    requires Shift(x) == Shift(y)
    ensures x == y
  {}

  lemma MeetIsInjective(x: bv32, y: bv32, bit: bool)
    requires Meet(x, bit) == Meet(y, bit)
    ensures x == y
  {}

  lemma {:induction false} ShiftsIsInjective(x: bv32, y: bv32, n: nat)
    requires Shifts(x, n) == Shifts(y, n)
    ensures x == y
    decreases n
  {
    hide Shift;
    if n > 0 {
      ShiftsIsInjective(Shift(x), Shift(y), n - 1);
      ShiftIsInjective(x, y);
    }
  }

  lemma {:induction false} ShiftInIsInjective(x: bv32, y: bv32, bits: seq<bool>)
    requires ShiftIn(x, bits) == ShiftIn(y, bits)
    ensures x == y
    decreases |bits|
  {
    hide Shift, Meet;
    if bits != [] {
      ShiftInIsInjective(Shift(Meet(x, bits[0])), Shift(Meet(y, bits[0])), bits[1..]);
      ShiftIsInjective(Meet(x, bits[0]), Meet(y, bits[0]));
      MeetIsInjective(x, y, bits[0]);
    }
  }

  lemma XorByteIsInjective(crc: bv32, b: bv8, d: bv8)
    requires Xor(crc, b as bv32) == Xor(crc, d as bv32)
    ensures b == d
  {}

  lemma RoundIsInjective(crc: bv32, b: bv8, d: bv8)
    requires Round(crc, b) == Round(crc, d)
    ensures b == d
  {
    hide Round, Shifts, Xor;
    RoundIsEightShifts(crc, b);
    RoundIsEightShifts(crc, d);
    ShiftsIsInjective(Xor(crc, b as bv32), Xor(crc, d as bv32), 8);
    XorByteIsInjective(crc, b, d);
  }

  lemma ComplementFacts(x: bv32, y: bv32)
    ensures Complement(Complement(x)) == x
    ensures Complement(x) == Complement(y) <==> x == y
  {}

  lemma {:induction false} BitsOfJoins(a: seq<bv8>, b: seq<bv8>)
    ensures BitsOf(a + b) == BitsOf(a) + BitsOf(b)
    decreases |b|
  {
    hide LowBits;
    if b == [] {
      assert a + b == a;
    } else {
      var front := b[..|b| - 1];
      assert (a + b)[..|a + b| - 1] == a + front;
      BitsOfJoins(a, front);
    }
  }

  /** A checksum can be continued where it stopped. */
  lemma ChecksumJoins(crc: bv32, a: seq<bv8>, b: seq<bv8>)
    ensures Checksum(crc, a + b) == Checksum(Checksum(crc, a), b)
  {
    hide ShiftIn, Complement, BitsOf;
    BitsOfJoins(a, b);
    ShiftInJoins(Complement(crc), BitsOf(a), BitsOf(b));
    ComplementFacts(ShiftIn(Complement(crc), BitsOf(a)), 0);
  }

  lemma ChecksumOfOneByte(crc: bv32, b: bv8, d: bv8)
    requires Checksum(crc, [b]) == Checksum(crc, [d])
    ensures b == d
  {
    var c := Complement(crc);
    hide ShiftIn, Complement, LowBits, Round;
    ShiftInOneMore(c, [], b);
    ShiftInOneMore(c, [], d);
    assert [] + [b] == [b] && [] + [d] == [d];
    ComplementFacts(ShiftIn(c, BitsOf([b])), ShiftIn(c, BitsOf([d])));
    RoundIsInjective(ShiftIn(c, []), b, d);
  }

  lemma ChecksumIsInjective(x: bv32, y: bv32, b: seq<bv8>)
    requires Checksum(x, b) == Checksum(y, b)
    ensures x == y
  {
    hide ShiftIn, Complement, BitsOf;
    ComplementFacts(ShiftIn(Complement(x), BitsOf(b)), ShiftIn(Complement(y), BitsOf(b)));
    ShiftInIsInjective(Complement(x), Complement(y), BitsOf(b));
    ComplementFacts(x, y);
  }

  lemma MaskedWithOneChange(buf: seq<bv8>, at: nat, value: bv8)
    requires at < |buf|
    ensures var a, b := Masked(buf), Masked(buf[at := value]);
            a == a[..at] + [a[at]] + a[at + 1..] && b == a[..at] + [b[at]] + a[at + 1..]
  {}

  /**
   * A buffer changed in one byte has the same checksum exactly when that byte is the unprogrammed
   * one of its group, or was not changed after all.
   */
  lemma DetectsOneByte(crc: bv32, buf: seq<bv8>, at: nat, value: bv8)
    requires at < |buf|
    ensures Checksum(crc, Masked(buf[at := value])) == Checksum(crc, Masked(buf))
            <==> Unprogrammed(at) || value == buf[at]
  {
    var a, b := Masked(buf), Masked(buf[at := value]);
    var x, y := a[at], b[at];
    var front, tail := a[..at], a[at + 1..];
    assert x == y <==> Unprogrammed(at) || value == buf[at];
    MaskedWithOneChange(buf, at, value);
    hide Checksum, Masked;
    OneByteDecides(crc, front, x, y, tail);
  }

  lemma OneByteDecides(crc: bv32, front: seq<bv8>, x: bv8, y: bv8, tail: seq<bv8>)
    ensures Checksum(crc, front + [x] + tail) == Checksum(crc, front + [y] + tail) <==> x == y
  {
    hide Checksum;
    ChecksumJoins(crc, front + [x], tail);
    ChecksumJoins(crc, front + [y], tail);
    ChecksumJoins(crc, front, [x]);
    ChecksumJoins(crc, front, [y]);
    if Checksum(crc, front + [x] + tail) == Checksum(crc, front + [y] + tail) {
      ChecksumIsInjective(Checksum(crc, front + [x]), Checksum(crc, front + [y]), tail);
      ChecksumOfOneByte(Checksum(crc, front), x, y);
    }
  }

  // ----- a firmware image taken in parts

  predicate Continues(crc: bv32, a: seq<bv8>, b: seq<bv8>) {
    Checksum(Checksum(crc, Masked(a)), Masked(b)) == Checksum(crc, Masked(a + b))
  }

  lemma MaskedJoins(a: seq<bv8>, b: seq<bv8>)
    requires |a| % 4 == 0
    ensures Masked(a + b) == Masked(a) + Masked(b)
  {}

  /** The part that shows the difference: its last byte is the fourth of its group in the whole. */
  function Witness(a: seq<bv8>): (b: seq<bv8>)
    requires |a| % 4 != 0
    ensures |b| == 4 - |a| % 4
  {
    [0, 0, 0, 1][|a| % 4..]
  }

  lemma WitnessMasked(a: seq<bv8>, b: seq<bv8>, zeros: seq<bv8>)
    requires |a| % 4 != 0 && b == Witness(a) && zeros == b[..|b| - 1]
    ensures Masked(b) == zeros + [1]
    ensures Masked(a + b) == Masked(a) + zeros + [0]
  {
    var whole := Masked(a) + zeros + [0];
    assert b[|b| - 1] == 1 && Unprogrammed(|a| + |b| - 1);
    assert forall i | 0 <= i < |b| - 1 :: b[i] == 0;
    assert forall i | 0 <= i < |whole| :: Masked(a + b)[i] == whole[i];
  }

  lemma WitnessDiffers(crc: bv32, a: seq<bv8>)
    requires |a| % 4 != 0
    ensures !Continues(crc, a, Witness(a))
  {
    var b := Witness(a);
    var zeros := b[..|b| - 1];
    var c := Checksum(crc, Masked(a));
    hide Checksum, Masked, Witness;
    WitnessMasked(a, b, zeros);
    ChecksumJoins(c, zeros, [1]);
    ChecksumJoins(crc, Masked(a), zeros);
    ChecksumJoins(crc, Masked(a) + zeros, [0]);
    if Continues(crc, a, b) {
      ChecksumOfOneByte(Checksum(c, zeros), 0, 1);
    }
  }

  /**
   * Handing an image over in two parts gives the checksum of the whole for every second part
   * exactly when the first part ends on a group boundary.
   */
  lemma ContinuesExactly(crc: bv32, a: seq<bv8>)
    ensures (forall b :: Continues(crc, a, b)) <==> |a| % 4 == 0
  {
    if |a| % 4 == 0 {
      forall b ensures Continues(crc, a, b) {
        MaskedJoins(a, b);
        ChecksumJoins(crc, Masked(a), Masked(b));
        hide Checksum, Masked;
      }
    } else {
      WitnessDiffers(crc, a);
    }
  }
}
