/** The CRC-32 behind the STUN FINGERPRINT attribute (section 14.7 of RFC 8489). */
module Crc32 {
  import opened ShiftRegister

  const POLYNOMIAL: bv32 := 0xEDB88320
  const MASK: bv32 := 0xFFFFFFFF
  const BYTE_BITS: nat := 8

  function ShiftOnce(c: bv32): bv32 {
    if c & 1 == 0 then c >> 1 else (c >> 1) ^ POLYNOMIAL
  }

  function Xor(x: bv32, y: bv32): bv32 {
    x ^ y
  }

  function Load(b: bv8): bv32 {
    b as bv32
  }

  function Up(x: bv32): bv32 {
    x << 8
  }

  function Low(x: bv32): bv32 {
    x & 0xFF
  }

  function High(x: bv32): bv32 {
    x & 0xFFFFFF00
  }

  function Top(x: bv32): bv32 {
    x >> 8
  }

  const REGISTER: Register<bv8, bv32> := Register(ShiftOnce, Xor, 0, Load, Up, BYTE_BITS)

  /** The bit-by-bit CRC: complemented on both ends, one shift for every bit. */
  function BitwiseCrc(initial: bv32, bytes: seq<bv8>): bv32 {
    REGISTER.Checksum(MASK, initial, bytes)
  }

  const ROW_0: seq<bv32> := [
    0x00000000, 0x77073096, 0xee0e612c, 0x990951ba, 0x076dc419, 0x706af48f, 0xe963a535, 0x9e6495a3,
    0x0edb8832, 0x79dcb8a4, 0xe0d5e91e, 0x97d2d988, 0x09b64c2b, 0x7eb17cbd, 0xe7b82d07, 0x90bf1d91
  ]

  const ROW_1: seq<bv32> := [
    0x1db71064, 0x6ab020f2, 0xf3b97148, 0x84be41de, 0x1adad47d, 0x6ddde4eb, 0xf4d4b551, 0x83d385c7,
    0x136c9856, 0x646ba8c0, 0xfd62f97a, 0x8a65c9ec, 0x14015c4f, 0x63066cd9, 0xfa0f3d63, 0x8d080df5
  ]

  const ROW_2: seq<bv32> := [
    0x3b6e20c8, 0x4c69105e, 0xd56041e4, 0xa2677172, 0x3c03e4d1, 0x4b04d447, 0xd20d85fd, 0xa50ab56b,
    0x35b5a8fa, 0x42b2986c, 0xdbbbc9d6, 0xacbcf940, 0x32d86ce3, 0x45df5c75, 0xdcd60dcf, 0xabd13d59
  ]

  const ROW_3: seq<bv32> := [
    0x26d930ac, 0x51de003a, 0xc8d75180, 0xbfd06116, 0x21b4f4b5, 0x56b3c423, 0xcfba9599, 0xb8bda50f,
    0x2802b89e, 0x5f058808, 0xc60cd9b2, 0xb10be924, 0x2f6f7c87, 0x58684c11, 0xc1611dab, 0xb6662d3d
  ]

  const ROW_4: seq<bv32> := [
    0x76dc4190, 0x01db7106, 0x98d220bc, 0xefd5102a, 0x71b18589, 0x06b6b51f, 0x9fbfe4a5, 0xe8b8d433,
    0x7807c9a2, 0x0f00f934, 0x9609a88e, 0xe10e9818, 0x7f6a0dbb, 0x086d3d2d, 0x91646c97, 0xe6635c01
  ]

  const ROW_5: seq<bv32> := [
    0x6b6b51f4, 0x1c6c6162, 0x856530d8, 0xf262004e, 0x6c0695ed, 0x1b01a57b, 0x8208f4c1, 0xf50fc457,
    0x65b0d9c6, 0x12b7e950, 0x8bbeb8ea, 0xfcb9887c, 0x62dd1ddf, 0x15da2d49, 0x8cd37cf3, 0xfbd44c65
  ]

  const ROW_6: seq<bv32> := [
    0x4db26158, 0x3ab551ce, 0xa3bc0074, 0xd4bb30e2, 0x4adfa541, 0x3dd895d7, 0xa4d1c46d, 0xd3d6f4fb,
    0x4369e96a, 0x346ed9fc, 0xad678846, 0xda60b8d0, 0x44042d73, 0x33031de5, 0xaa0a4c5f, 0xdd0d7cc9
  ]

  const ROW_7: seq<bv32> := [
    0x5005713c, 0x270241aa, 0xbe0b1010, 0xc90c2086, 0x5768b525, 0x206f85b3, 0xb966d409, 0xce61e49f,
    0x5edef90e, 0x29d9c998, 0xb0d09822, 0xc7d7a8b4, 0x59b33d17, 0x2eb40d81, 0xb7bd5c3b, 0xc0ba6cad
  ]

  const ROW_8: seq<bv32> := [
    0xedb88320, 0x9abfb3b6, 0x03b6e20c, 0x74b1d29a, 0xead54739, 0x9dd277af, 0x04db2615, 0x73dc1683,
    0xe3630b12, 0x94643b84, 0x0d6d6a3e, 0x7a6a5aa8, 0xe40ecf0b, 0x9309ff9d, 0x0a00ae27, 0x7d079eb1
  ]

  const ROW_9: seq<bv32> := [
    0xf00f9344, 0x8708a3d2, 0x1e01f268, 0x6906c2fe, 0xf762575d, 0x806567cb, 0x196c3671, 0x6e6b06e7,
    0xfed41b76, 0x89d32be0, 0x10da7a5a, 0x67dd4acc, 0xf9b9df6f, 0x8ebeeff9, 0x17b7be43, 0x60b08ed5
  ]

  const ROW_A: seq<bv32> := [
    0xd6d6a3e8, 0xa1d1937e, 0x38d8c2c4, 0x4fdff252, 0xd1bb67f1, 0xa6bc5767, 0x3fb506dd, 0x48b2364b,
    0xd80d2bda, 0xaf0a1b4c, 0x36034af6, 0x41047a60, 0xdf60efc3, 0xa867df55, 0x316e8eef, 0x4669be79
  ]

  const ROW_B: seq<bv32> := [
    0xcb61b38c, 0xbc66831a, 0x256fd2a0, 0x5268e236, 0xcc0c7795, 0xbb0b4703, 0x220216b9, 0x5505262f,
    0xc5ba3bbe, 0xb2bd0b28, 0x2bb45a92, 0x5cb36a04, 0xc2d7ffa7, 0xb5d0cf31, 0x2cd99e8b, 0x5bdeae1d
  ]

  const ROW_C: seq<bv32> := [
    0x9b64c2b0, 0xec63f226, 0x756aa39c, 0x026d930a, 0x9c0906a9, 0xeb0e363f, 0x72076785, 0x05005713,
    0x95bf4a82, 0xe2b87a14, 0x7bb12bae, 0x0cb61b38, 0x92d28e9b, 0xe5d5be0d, 0x7cdcefb7, 0x0bdbdf21
  ]

  const ROW_D: seq<bv32> := [
    0x86d3d2d4, 0xf1d4e242, 0x68ddb3f8, 0x1fda836e, 0x81be16cd, 0xf6b9265b, 0x6fb077e1, 0x18b74777,
    0x88085ae6, 0xff0f6a70, 0x66063bca, 0x11010b5c, 0x8f659eff, 0xf862ae69, 0x616bffd3, 0x166ccf45
  ]

  const ROW_E: seq<bv32> := [
    0xa00ae278, 0xd70dd2ee, 0x4e048354, 0x3903b3c2, 0xa7672661, 0xd06016f7, 0x4969474d, 0x3e6e77db,
    0xaed16a4a, 0xd9d65adc, 0x40df0b66, 0x37d83bf0, 0xa9bcae53, 0xdebb9ec5, 0x47b2cf7f, 0x30b5ffe9
  ]

  const ROW_F: seq<bv32> := [
    0xbdbdf21c, 0xcabac28a, 0x53b39330, 0x24b4a3a6, 0xbad03605, 0xcdd70693, 0x54de5729, 0x23d967bf,
    0xb3667a2e, 0xc4614ab8, 0x5d681b02, 0x2a6f2b94, 0xb40bbe37, 0xc30c8ea1, 0x5a05df1b, 0x2d02ef8d
  ]

  const TABLE: seq<seq<bv32>> := [
    ROW_0, ROW_1, ROW_2, ROW_3, ROW_4, ROW_5, ROW_6, ROW_7,
    ROW_8, ROW_9, ROW_A, ROW_B, ROW_C, ROW_D, ROW_E, ROW_F
  ]

  // ------------------------------------------------------------------ the register's laws

  lemma ShiftOnceInjective()
    ensures REGISTER.Injective()
  {
    forall x, y | ShiftOnce(x) == ShiftOnce(y) ensures x == y { }
  }

  lemma XorShifts(x: bv32, y: bv32)
    ensures (x ^ y) >> 1 == (x >> 1) ^ (y >> 1)
    ensures (x ^ y) & 1 == (x & 1) ^ (y & 1)
  {
  }

  lemma PolyFlips(x: bv32, y: bv32)
    ensures (x ^ y) ^ POLYNOMIAL == x ^ (y ^ POLYNOMIAL)
    ensures (x ^ y) ^ POLYNOMIAL == (x ^ POLYNOMIAL) ^ y
    ensures x ^ y == (x ^ POLYNOMIAL) ^ (y ^ POLYNOMIAL)
  {
  }

  lemma Parity(x: bv32, y: bv32)
    ensures (x ^ y) & 1 == 0 <==> (x & 1 == 0 <==> y & 1 == 0)
  {
  }

  lemma ShiftOnceXor(x: bv32, y: bv32)
    ensures ShiftOnce(x ^ y) == ShiftOnce(x) ^ ShiftOnce(y)
  {
    Parity(x, y);
    XorShifts(x, y);
    PolyFlips(x >> 1, y >> 1);
  }

  lemma ShiftOnceLinear()
    ensures REGISTER.Linear()
  {
    forall x, y ensures ShiftOnce(Xor(x, y)) == Xor(ShiftOnce(x), ShiftOnce(y)) { ShiftOnceXor(x, y); }
  }

  lemma XorAssociates(x: bv32, y: bv32, z: bv32)
    ensures (x ^ y) ^ z == x ^ (y ^ z)
  {
  }

  lemma XorAssociative()
    ensures REGISTER.Associative()
  {
    forall x, y, z ensures Xor(Xor(x, y), z) == Xor(x, Xor(y, z)) { XorAssociates(x, y, z); }
  }

  lemma XorNeutral()
    ensures REGISTER.Neutral()
  {
  }

  lemma XorCancel(x: bv32, y: bv32, z: bv32)
    ensures x ^ y == x ^ z ==> y == z
    ensures x ^ z == y ^ z ==> x == y
  {
  }

  lemma XorCancels()
    ensures REGISTER.Cancels()
  {
    forall x, y, z | Xor(x, y) == Xor(x, z) ensures y == z { XorCancel(x, y, z); }
    forall x, y, z | Xor(x, z) == Xor(y, z) ensures x == y { XorCancel(x, y, z); }
  }

  lemma RegisterLawful()
    ensures REGISTER.Lawful()
  {
    ShiftOnceInjective();
    ShiftOnceLinear();
    XorAssociative();
    XorNeutral();
    XorCancels();
  }

  // ------------------------------------------------------------------ one look-up is eight shifts

  /** Eight shifts of the register, which are what one byte costs. */
  function Byte(x: bv32): bv32 {
    REGISTER.Shift(x, BYTE_BITS)
  }

  function Nibble(x: bv32): bv32 {
    x & 15
  }

  function Index(x: bv32): (i: nat)
    ensures i < 16
  {
    NibbleIndex(x);
    Nibble(x) as nat
  }

  lemma NibbleIndex(x: bv32)
    ensures (Nibble(x) as nat) < 16
  {
  }

  /** Entry `x & 0xFF` of the 256-entry table, kept in rows of sixteen. */
  function TableAt(x: bv32): bv32 {
    assert forall r :: 0 <= r < 16 ==> |TABLE[r]| == 16;
    TABLE[Index(x >> 4)][Index(x)]
  }

  /** The entry of the first row and the first entry of the row that a nibble stands for. */
  function Entry(x: bv32): bv32 {
    ROW_0[Index(x)]
  }

  function Head(x: bv32): bv32 {
    assert forall r :: 0 <= r < 16 ==> |TABLE[r]| == 16;
    TABLE[Index(x)][0]
  }

  function Raise(x: bv32): bv32 {
    Nibble(x) << 4
  }

  /** A row is its first entry added to the first row. */
  function RowOf(head: bv32): seq<bv32> {
    seq(16, k requires 0 <= k < 16 => head ^ ROW_0[k])
  }

  lemma LowRows(r: nat)
    requires r < 8
    ensures TABLE[r] == RowOf(TABLE[r][0])
  {
  }

  lemma HighRows(r: nat)
    requires 8 <= r < 16
    ensures TABLE[r] == RowOf(TABLE[r][0])
  {
  }

  lemma FirstRow()
    ensures ROW_0 == [Byte(0x0), Byte(0x1), Byte(0x2), Byte(0x3), Byte(0x4), Byte(0x5), Byte(0x6), Byte(0x7),
                      Byte(0x8), Byte(0x9), Byte(0xA), Byte(0xB), Byte(0xC), Byte(0xD), Byte(0xE), Byte(0xF)]
  {
  }

  lemma LowNibble(x: bv32)
    ensures Entry(x) == Byte(Nibble(x))
  {
    FirstRow();
  }

  lemma HighNibble(x: bv32)
    ensures Head(x) == Byte(Raise(x))
  {
  }

  lemma Nibbles(x: bv32)
    requires x < 256
    ensures x == Xor(Raise(x >> 4), Nibble(x))
  {
  }

  lemma RowEntry(r: nat, k: nat)
    requires r < 16 && k < 16
    ensures |TABLE[r]| == 16 && TABLE[r][k] == TABLE[r][0] ^ ROW_0[k]
  {
    if r < 8 { LowRows(r); } else { HighRows(r); }
  }

  lemma TableEntry(x: bv32)
    ensures TableAt(x) == Xor(Head(x >> 4), Entry(x))
  {
    RowEntry(Index(x >> 4), Index(x));
  }

  // An arbitrary additive map that agrees with the table on single nibbles; it will be `Byte`.

  ghost predicate Additive(f: bv32 -> bv32) {
    forall x, y :: f(Xor(x, y)) == Xor(f(x), f(y))
  }

  ghost predicate AgreesOnNibbles(f: bv32 -> bv32) {
    forall x :: Entry(x) == f(Nibble(x)) && Head(x) == f(Raise(x))
  }

  lemma TableIsAdditive(f: bv32 -> bv32, x: bv32)
    requires Additive(f) && AgreesOnNibbles(f) && x < 256
    ensures TableAt(x) == f(x)
  {
    Nibbles(x);
    TableEntry(x);
    assert Head(x >> 4) == f(Raise(x >> 4));
    assert Entry(x) == f(Nibble(x));
    assert f(Xor(Raise(x >> 4), Nibble(x))) == Xor(f(Raise(x >> 4)), f(Nibble(x)));
  }

  lemma SplitWord(x: bv32)
    ensures x == Xor(Low(x), High(x))
    ensures Low(x) < 256
    ensures High(x) & 0xFF == 0
    ensures High(x) >> 8 == Top(x)
  {
  }

  lemma LoadKeepsTop(c: bv32, b: bv8)
    ensures Top(Xor(c, Load(b))) == Top(c)
  {
  }

  lemma ByteAdditive()
    ensures Additive(Byte)
  {
    forall x, y ensures Byte(Xor(x, y)) == Xor(Byte(x), Byte(y)) {
      ShiftOnceLinear();
      REGISTER.ShiftLinear(x, y, BYTE_BITS);
    }
  }

  lemma ByteOnNibbles()
    ensures AgreesOnNibbles(Byte)
  {
    forall x ensures Entry(x) == Byte(Nibble(x)) && Head(x) == Byte(Raise(x)) {
      LowNibble(x);
      HighNibble(x);
    }
  }

  lemma LowPartByte(x: bv32)
    ensures TableAt(Low(x)) == Byte(Low(x))
  {
    ByteAdditive();
    ByteOnNibbles();
    SplitWord(x);
    TableIsAdditive(Byte, Low(x));
  }

  lemma HighPartByte(x: bv32)
    ensures x == Xor(Low(x), High(x)) && Byte(High(x)) == Top(x)
  {
  }

  /** The body of the table loop is one byte of the bit-by-bit definition. */
  lemma TableStep(c: bv32, b: bv8)
    ensures Xor(TableAt(Low(Xor(c, Load(b)))), Top(c)) == Byte(Xor(c, Load(b)))
  {
    ShiftOnceLinear();
    forall x ensures TableAt(Low(x)) == Byte(Low(x)) { LowPartByte(x); }
    forall x ensures x == Xor(Low(x), High(x)) && Byte(High(x)) == Top(x) { HighPartByte(x); }
    forall x, s ensures Top(Xor(x, Load(s))) == Top(x) { LoadKeepsTop(x, s); }
    REGISTER.TableStep(TableAt, Low, High, Top, c, b);
  }

  // ------------------------------------------------------------------ the function and what it detects

  datatype Buffer = Null | Bytes(data: seq<bv8>)
  {
    function Content(): seq<bv8> {
      if Null? then [] else data
    }
  }

  /** The table-driven loop computes the bit-by-bit CRC; a null buffer counts as an empty one. */
  method CalculateCrc32(initialResult: bv32, buffer: Buffer) returns (crc: bv32)
    ensures crc == BitwiseCrc(initialResult, buffer.Content())
  {
    var message := buffer.Content();
    var c := Xor(initialResult, MASK);
    for i := 0 to |message|
      invariant REGISTER.Feed(Xor(initialResult, MASK), message) == REGISTER.Feed(c, message[i..])
    {
      FeedFirst(c, message[i..]);
      assert message[i..][1..] == message[i + 1..];
      c := Xor(TableAt(Low(Xor(c, Load(message[i])))), Top(c));
    }
    crc := Xor(c, MASK);
  }

  lemma FeedFirst(c: bv32, message: seq<bv8>)
    requires message != []
    ensures REGISTER.Feed(c, message)
         == REGISTER.Feed(Xor(TableAt(Low(Xor(c, Load(message[0])))), Top(c)), message[1..])
  {
    TableStep(c, message[0]);
  }

  lemma DoubleMask(x: bv32)
    ensures Xor(Xor(x, MASK), MASK) == x
  {
  }

  /** The CRC can be computed piece by piece. */
  lemma Incremental(seed: bv32, a: seq<bv8>, b: seq<bv8>)
    ensures BitwiseCrc(BitwiseCrc(seed, a), b) == BitwiseCrc(seed, a + b)
  {
    forall x ensures Xor(Xor(x, MASK), MASK) == x { DoubleMask(x); }
    REGISTER.ChecksumConcat(MASK, seed, a, b);
  }

  lemma Grows(a: bv8, rest: bv32)
    ensures rest < 0x10000 ==> Xor(Load(a), Up(rest)) < 0x1000000
    ensures rest < 0x100 ==> Xor(Load(a), Up(rest)) < 0x10000
    ensures rest == 0 ==> Xor(Load(a), Up(rest)) < 0x100
  {
  }

  lemma {:induction false} PackBound(message: seq<bv8>)
    requires |message| <= 3
    ensures REGISTER.Pack(message) < 0x1000000
    ensures |message| <= 2 ==> REGISTER.Pack(message) < 0x10000
    ensures |message| <= 1 ==> REGISTER.Pack(message) < 0x100
    ensures |message| == 0 ==> REGISTER.Pack(message) == 0
  {
    if message != [] {
      PackBound(message[1..]);
      Grows(message[0], REGISTER.Pack(message[1..]));
    }
  }

  lemma PairInjective(a: bv8, b: bv8, x: bv32, y: bv32)
    requires x < 0x1000000 && y < 0x1000000 && Xor(Load(a), Up(x)) == Xor(Load(b), Up(y))
    ensures a == b && x == y
  {
  }

  /** Up to four bytes are recovered from the word they are packed in. */
  lemma {:induction false} PackInjective(a: seq<bv8>, b: seq<bv8>)
    requires |a| == |b| <= 4 && REGISTER.Pack(a) == REGISTER.Pack(b)
    ensures a == b
  {
    if a != [] {
      PackBound(a[1..]);
      PackBound(b[1..]);
      PairInjective(a[0], b[0], REGISTER.Pack(a[1..]), REGISTER.Pack(b[1..]));
      PackInjective(a[1..], b[1..]);
    }
  }

  lemma ByteUp(x: bv32)
    requires x < 0x1000000
    ensures Byte(Up(x)) == x
  {
  }

  lemma {:induction false} FourBytesFit(message: seq<bv8>)
    requires |message| <= 4
    ensures REGISTER.Fits(message)
  {
    if message != [] {
      FourBytesFit(message[1..]);
      PackBound(message[1..]);
      ByteUp(REGISTER.Pack(message[1..]));
    }
  }

  /** Two messages that differ only inside four consecutive bytes have different CRCs. */
  lemma BurstDetected(seed: bv32, prefix: seq<bv8>, a: seq<bv8>, b: seq<bv8>, suffix: seq<bv8>)
    requires |a| == |b| <= 4 && a != b
    ensures BitwiseCrc(seed, prefix + a + suffix) != BitwiseCrc(seed, prefix + b + suffix)
  {
    RegisterLawful();
    FourBytesFit(a);
    FourBytesFit(b);
    if REGISTER.Pack(a) == REGISTER.Pack(b) {
      PackInjective(a, b);
    }
    REGISTER.ChecksumBurst(MASK, seed, prefix, a, b, suffix);
  }
}
