/**
 The MD4 digest. First RFC 1320 on 32-bit words, with its 48 operations written out; then the
 program, which computes on unbounded integers that it masks now and then, and which rotates the
 four registers after every operation instead of renaming them.
 */
module Md4 {
  import opened Bits

  type Byte = b: nat | b < 256
  type Word = w: nat | w < 0x1_0000_0000

  datatype Registers = Registers(a: Word, b: Word, c: Word, d: Word)

  // --- RFC 1320 --------------------------------------------------------------------------------------

  function Not(x: Word): Word { 0xFFFF_FFFF - x }

  function WordAnd(x: Word, y: Word): Word { And(x, y) }

  function WordOr(x: Word, y: Word): Word {
    Pow2Word();
    OrBound(x, y, 32);
    Or(x, y)
  }

  function WordXor(x: Word, y: Word): Word {
    Pow2Word();
    XorBound(x, y, 32);
    Xor(x, y)
  }

  function Plus(x: Word, y: Word): Word { (x + y) % 0x1_0000_0000 }

  function F(x: Word, y: Word, z: Word): Word { WordOr(WordAnd(x, y), WordAnd(Not(x), z)) }

  function G(x: Word, y: Word, z: Word): Word { WordOr(WordOr(WordAnd(x, y), WordAnd(x, z)), WordAnd(y, z)) }

  function H(x: Word, y: Word, z: Word): Word { WordXor(WordXor(x, y), z) }

  // The bits pushed out on the left come back on the right.
  function RotateLeft(w: Word, s: nat): Word
    requires s <= 32
  {
    RotateSplit(w, s);
    Kept(w, s) + Wrapped(w, s)
  }

  function Kept(w: nat, s: nat): nat {
    ShiftLeft(w, s) % 0x1_0000_0000
  }

  function Wrapped(w: nat, s: nat): nat
    requires s <= 32
  {
    ShiftRight(w, 32 - s)
  }

  // The word split at the rotation: `w == q * 2^(32-s) + r`.
  lemma {:induction false} RotateSplit(w: Word, s: nat)
    requires s <= 32
    ensures Wrapped(w, s) < Pow2(s) && Kept(w, s) + Pow2(s) <= 0x1_0000_0000
    ensures ShiftLeft(w, s) == Wrapped(w, s) * 0x1_0000_0000 + Kept(w, s)
  {
    Pow2Add(32 - s, s);
    Pow2Word();
    ShiftLeftIsProduct(w, s);
    ShiftRightIsQuotient(w, 32 - s);
    SplitAt(w, Pow2(32 - s), Pow2(s));
  }

  lemma {:induction false} SplitAt(w: Word, m: nat, p: nat)
    requires m >= 1 && p >= 1 && m * p == 0x1_0000_0000
    ensures w / m < p && (w * p) % 0x1_0000_0000 + p <= 0x1_0000_0000
    ensures w * p == (w / m) * 0x1_0000_0000 + (w * p) % 0x1_0000_0000
  {
    var q, r := w / m, w % m;
    assert w == q * m + r;
    SplitProduct(w, q, m, r, p);
    ModUnique(w * p, 0x1_0000_0000, q, r * p);
  }

  datatype Round = One | Two | Three

  function Mix(round: Round, x: Word, y: Word, z: Word): Word {
    match round case One => F(x, y, z) case Two => G(x, y, z) case Three => H(x, y, z)
  }

  function Constant(round: Round): Word {
    match round case One => 0 case Two => 0x5A827999 case Three => 0x6ED9EBA1
  }

  datatype Naming = ABCD | DABC | CDAB | BCDA

  // An operation `[abcd k s]` of section 3.4.
  datatype Operation = Op(naming: Naming, k: nat, s: nat)

  // The sixteen operations of round 1.
  function RoundOne(i: nat): Operation {
    match i
    case 0 => Op(ABCD, 0, 3) case 1 => Op(DABC, 1, 7) case 2 => Op(CDAB, 2, 11) case 3 => Op(BCDA, 3, 19)
    case 4 => Op(ABCD, 4, 3) case 5 => Op(DABC, 5, 7) case 6 => Op(CDAB, 6, 11) case 7 => Op(BCDA, 7, 19)
    case 8 => Op(ABCD, 8, 3) case 9 => Op(DABC, 9, 7) case 10 => Op(CDAB, 10, 11) case 11 => Op(BCDA, 11, 19)
    case 12 => Op(ABCD, 12, 3) case 13 => Op(DABC, 13, 7) case 14 => Op(CDAB, 14, 11) case _ => Op(BCDA, 15, 19)
  }

  // The sixteen operations of round 2.
  function RoundTwo(i: nat): Operation {
    match i
    case 0 => Op(ABCD, 0, 3) case 1 => Op(DABC, 4, 5) case 2 => Op(CDAB, 8, 9) case 3 => Op(BCDA, 12, 13)
    case 4 => Op(ABCD, 1, 3) case 5 => Op(DABC, 5, 5) case 6 => Op(CDAB, 9, 9) case 7 => Op(BCDA, 13, 13)
    case 8 => Op(ABCD, 2, 3) case 9 => Op(DABC, 6, 5) case 10 => Op(CDAB, 10, 9) case 11 => Op(BCDA, 14, 13)
    case 12 => Op(ABCD, 3, 3) case 13 => Op(DABC, 7, 5) case 14 => Op(CDAB, 11, 9) case _ => Op(BCDA, 15, 13)
  }

  // The sixteen operations of round 3.
  function RoundThree(i: nat): Operation {
    match i
    case 0 => Op(ABCD, 0, 3) case 1 => Op(DABC, 8, 9) case 2 => Op(CDAB, 4, 11) case 3 => Op(BCDA, 12, 15)
    case 4 => Op(ABCD, 2, 3) case 5 => Op(DABC, 10, 9) case 6 => Op(CDAB, 6, 11) case 7 => Op(BCDA, 14, 15)
    case 8 => Op(ABCD, 1, 3) case 9 => Op(DABC, 9, 9) case 10 => Op(CDAB, 5, 11) case 11 => Op(BCDA, 13, 15)
    case 12 => Op(ABCD, 3, 3) case 13 => Op(DABC, 11, 9) case 14 => Op(CDAB, 7, 11) case _ => Op(BCDA, 15, 15)
  }

  function OperationAt(round: Round, i: nat): Operation {
    match round case One => RoundOne(i) case Two => RoundTwo(i) case Three => RoundThree(i)
  }

  predicate Sound(op: Operation) {
    op.k < 16 && 0 < op.s < 32
  }

  function Update(round: Round, w: Word, x: Word, y: Word, z: Word, m: Word, s: nat): Word
    requires 0 < s < 32
  {
    RotateLeft(Plus(Plus(Plus(w, Mix(round, x, y, z)), m), Constant(round)), s)
  }

  // The registers under the names an operation gives them.
  function Renamed(naming: Naming, r: Registers): Registers {
    match naming
    case ABCD => r
    case DABC => Registers(r.d, r.a, r.b, r.c)
    case CDAB => Registers(r.c, r.d, r.a, r.b)
    case BCDA => Registers(r.b, r.c, r.d, r.a)
  }

  function Assign(naming: Naming, r: Registers, w: Word): Registers {
    match naming case ABCD => r.(a := w) case DABC => r.(d := w) case CDAB => r.(c := w) case BCDA => r.(b := w)
  }

  function Apply(round: Round, op: Operation, block: seq<Word>, r: Registers): Registers
    requires Sound(op) && |block| == 16
  {
    var n := Renamed(op.naming, r);
    Assign(op.naming, r, Update(round, n.a, n.b, n.c, n.d, block[op.k], op.s))
  }

  lemma {:induction false} OperationsSound(round: Round, i: nat)
    requires i < 16
    ensures Sound(OperationAt(round, i))
  {
  }

  // The first `n` operations of a round.
  function RunRound(round: Round, block: seq<Word>, r: Registers, n: nat): Registers
    requires |block| == 16 && n <= 16
  {
    if n == 0 then r
    else
      OperationsSound(round, n - 1);
      Apply(round, OperationAt(round, n - 1), block, RunRound(round, block, r, n - 1))
  }

  function WholeRound(round: Round, block: seq<Word>, r: Registers): Registers
    requires |block| == 16
  {
    RunRound(round, block, r, |block|)
  }

  function AddRegisters(r: Registers, t: Registers): Registers {
    Registers(Plus(r.a, t.a), Plus(r.b, t.b), Plus(r.c, t.c), Plus(r.d, t.d))
  }

  function Compress(block: seq<Word>, r: Registers): Registers
    requires |block| == 16
  {
    AddRegisters(r, WholeRound(Three, block, WholeRound(Two, block, WholeRound(One, block, r))))
  }

  const INITIAL := Registers(0x67452301, 0xefcdab89, 0x98badcfe, 0x10325476)

  // The `n` low-order bytes of a number, low-order byte first, and the number they stand for.
  function LittleEndian(v: nat, n: nat): (b: seq<Byte>)
    ensures |b| == n
  {
    if n == 0 then [] else [v % 256] + LittleEndian(v / 256, n - 1)
  }

  function ValueOf(b: seq<Byte>): nat {
    if b == [] then 0 else b[0] + 256 * ValueOf(b[1..])
  }

  lemma {:induction false} LittleEndianValue(v: nat, n: nat)
    requires v < Pow2(8 * n)
    ensures ValueOf(LittleEndian(v, n)) == v
    decreases n
  {
    if n > 0 {
      assert Pow2(8 * n) == 256 * Pow2(8 * (n - 1)) by {
        Pow2Add(8, 8 * (n - 1));
        assert Pow2(8) == 256;
      }
      LittleEndianValue(v / 256, n - 1);
      assert LittleEndian(v, n)[1..] == LittleEndian(v / 256, n - 1);
    }
  }

  // A word is four bytes, the low-order byte first.
  function WordAt(msg: seq<Byte>, i: nat): Word
    requires i + 4 <= |msg|
  {
    msg[i] + 256 * (msg[i + 1] as nat) + 65536 * (msg[i + 2] as nat) + 16777216 * (msg[i + 3] as nat)
  }

  lemma {:induction false} WordAtIsValue(msg: seq<Byte>, i: nat)
    requires i + 4 <= |msg|
    ensures WordAt(msg, i) == ValueOf(msg[i..i + 4])
  {
    var b := msg[i..i + 4];
    assert b[1..] == msg[i + 1..i + 4] && b[1..][1..] == msg[i + 2..i + 4];
    assert b[1..][1..][1..] == [msg[i + 3]] && [msg[i + 3]][1..] == [];
    assert ValueOf([msg[i + 3]]) == msg[i + 3];
    assert ValueOf(b[1..][1..]) == msg[i + 2] + 256 * (msg[i + 3] as nat);
    assert ValueOf(b[1..]) == msg[i + 1] + 256 * ValueOf(b[1..][1..]);
  }

  function BlockAt(msg: seq<Byte>, offset: nat): (block: seq<Word>)
    requires offset + 64 <= |msg|
    ensures |block| == 16
  {
    seq(16, i requires 0 <= i < 16 => WordAt(msg, offset + 4 * i))
  }

  // The registers after the first `n` blocks.
  function Process(msg: seq<Byte>, n: nat): Registers
    requires 64 * n <= |msg|
  {
    if n == 0 then INITIAL else Compress(BlockAt(msg, 64 * (n - 1)), Process(msg, n - 1))
  }

  const TWO64: nat := 0x1_0000_0000_0000_0000

  function Zeros(n: nat): (z: seq<Byte>)
    ensures |z| == n
  {
    if n == 0 then [] else Zeros(n - 1) + [0]
  }

  // Lengths that are 448 bits modulo 512.
  predicate Aligned(length: nat) {
    length % 64 == 56
  }

  // Zero bytes that follow the byte 0x80.
  function Filler(length: nat): nat {
    (119 - length % 64) % 64
  }

  /** Sections 3.1 and 3.2: a one bit, zero bits, and the length in bits modulo 2^64. */
  function Padded(data: seq<Byte>): seq<Byte> {
    data + [0x80] + Zeros(Filler(|data|)) + LittleEndian((8 * |data|) % TWO64, 8)
  }

  /** The padding is the shortest that reaches 448 bits modulo 512 ... */
  lemma {:induction false} FillerIsLeast(length: nat, k: nat)
    ensures Filler(length) < 64 && Aligned(length + 1 + Filler(length))
    ensures k < Filler(length) ==> !Aligned(length + 1 + k)
  {
  }

  lemma {:induction false} AlignedPlusLength(n: nat)
    requires Aligned(n)
    ensures (n + 8) % 64 == 0 && n >= 56
  {
  }

  lemma {:induction false} PaddedLength(data: seq<Byte>)
    ensures |Padded(data)| % 64 == 0 && |Padded(data)| >= 64
  {
    var n := |data| + 1 + Filler(|data|);
    FillerIsLeast(|data|, 0);
    AlignedPlusLength(n);
    assert |Padded(data)| == n + 8;
  }

  /** ... and the last eight bytes are the length of the message in bits modulo 2^64. */
  lemma {:induction false} PaddedEnd(data: seq<Byte>)
    ensures |Padded(data)| >= 8 && ValueOf(Padded(data)[|Padded(data)| - 8..]) == (8 * |data|) % TWO64
  {
    var bits := (8 * |data|) % TWO64;
    assert Pow2(64) == TWO64 by {
      Pow2Word();
      Pow2Add(32, 32);
    }
    LittleEndianValue(bits, 8);
    assert Padded(data)[|Padded(data)| - 8..] == LittleEndian(bits, 8);
  }

  lemma {:induction false} ZerosAt(n: nat, i: nat)
    requires i < n
    ensures Zeros(n)[i] == 0
  {
    if i < n - 1 {
      ZerosAt(n - 1, i);
    }
  }

  /** The message comes first, then a byte of which only the highest bit is set, then zero bytes. */
  lemma {:induction false} PaddedFront(data: seq<Byte>, i: nat, n: nat)
    requires i < |Padded(data)| - 8
    ensures i < |data| ==> Padded(data)[i] == data[i]
    ensures i == |data| ==> (Bit(Padded(data)[i], n) <==> n == 7)
    ensures i > |data| ==> Padded(data)[i] == 0
  {
    if i == |data| {
      OneBit(n);
    } else if i > |data| {
      ZerosAt(Filler(|data|), i - |data| - 1);
    }
  }

  lemma {:induction false} OneBit(n: nat)
    ensures Bit(0x80, n) <==> n == 7
  {
    BitIsQuotient(0x80, n);
    assert Pow2(7) == 128;
    if n > 7 {
      Pow2Add(8, n - 8);
      assert Pow2(8) == 256;
      assert 256 * Pow2(n - 8) >= 256;
      ModUnique(0x80, Pow2(n), 0, 0x80);
    } else if n < 7 {
      assert Pow2(0) == 1 && Pow2(1) == 2 && Pow2(2) == 4 && Pow2(3) == 8;
      assert Pow2(4) == 16 && Pow2(5) == 32 && Pow2(6) == 64;
    }
  }

  /** The registers start, byte by byte, as in section 3.3. */
  lemma {:induction false} InitialBytes()
    ensures WordAt([0x01, 0x23, 0x45, 0x67], 0) == INITIAL.a && WordAt([0x89, 0xab, 0xcd, 0xef], 0) == INITIAL.b
    ensures WordAt([0xfe, 0xdc, 0xba, 0x98], 0) == INITIAL.c && WordAt([0x76, 0x54, 0x32, 0x10], 0) == INITIAL.d
  {
  }

  /** The constants of rounds 2 and 3 are the square roots of 2 and 3, in 30 binary places. */
  lemma {:induction false} ConstantRoots()
    ensures var c := Constant(Two); c * c <= 2 * 0x1000_0000_0000_0000 < (c + 1) * (c + 1)
    ensures var c := Constant(Three); c * c <= 3 * 0x1000_0000_0000_0000 < (c + 1) * (c + 1)
  {
  }

  function Packed(r: Registers): seq<Byte> {
    LittleEndian(r.a, 4) + LittleEndian(r.b, 4) + LittleEndian(r.c, 4) + LittleEndian(r.d, 4)
  }

  // A word that was written as four bytes is read back from them.
  lemma {:induction false} WordBack(v: Word, b: seq<Byte>, i: nat)
    requires i + 4 <= |b| && b[i..i + 4] == LittleEndian(v, 4)
    ensures WordAt(b, i) == v
  {
    Pow2Word();
    LittleEndianValue(v, 4);
    WordAtIsValue(b, i);
  }

  /** The digest holds the registers A, B, C and D in this order, low-order byte first. */
  lemma {:induction false} PackedWords(r: Registers)
    ensures |Packed(r)| == 16
    ensures WordAt(Packed(r), 0) == r.a && WordAt(Packed(r), 4) == r.b
    ensures WordAt(Packed(r), 8) == r.c && WordAt(Packed(r), 12) == r.d
  {
    var p := Packed(r);
    assert p[0..4] == LittleEndian(r.a, 4) && p[4..8] == LittleEndian(r.b, 4);
    assert p[8..12] == LittleEndian(r.c, 4) && p[12..16] == LittleEndian(r.d, 4);
    WordBack(r.a, p, 0);
    WordBack(r.b, p, 4);
    WordBack(r.c, p, 8);
    WordBack(r.d, p, 12);
  }

  /** A block of the message is sixteen words, each four bytes from low to high. */
  lemma {:induction false} BlockWords(msg: seq<Byte>, offset: nat, i: nat)
    requires offset + 64 <= |msg| && i < 16
    ensures BlockAt(msg, offset)[i] == ValueOf(msg[offset + 4 * i..offset + 4 * i + 4])
  {
    WordAtIsValue(msg, offset + 4 * i);
  }

  // The registers after the last block.
  function FinalRegisters(data: seq<Byte>): Registers {
    Process(Padded(data), |Padded(data)| / 64)
  }

  /** Section 3.5. */
  function Rfc1320(data: seq<Byte>): (digest: seq<Byte>)
    ensures |digest| == 16
  {
    Packed(FinalRegisters(data))
  }

  // --- The program ------------------------------------------------------------------------------------

  const MASK: nat := 0xFFFF_FFFF

  function f(x: nat, y: nat, z: nat): nat { Or(And(x, y), And(And(-1 - x, z), MASK)) }

  function g(x: nat, y: nat, z: nat): nat { Or(Or(And(x, y), And(x, z)), And(y, z)) }

  function hh(x: nat, y: nat, z: nat): nat { Xor(Xor(x, y), z) }

  function Lrot(v: nat, n: nat): nat
    requires n <= 32
  {
    var low: nat := And(v, MASK);
    And(Or(ShiftLeft(low, n), ShiftRight(low, 32 - n)), MASK)
  }

  // The sum that is rotated in each of the three loops.
  function Total(round: Round, A: nat, B: nat, C: nat, D: nat, x: nat): nat {
    match round
    case One => A + f(B, C, D) + x
    case Two => A + g(B, C, D) + x + 0x5A827999
    case Three => A + hh(B, C, D) + x + 0x6ED9EBA1
  }

  // The index lists of the program, by position.
  function IndexTwo(i: nat): nat {
    match i
    case 0 => 0 case 1 => 4 case 2 => 8 case 3 => 12 case 4 => 1 case 5 => 5 case 6 => 9 case 7 => 13
    case 8 => 2 case 9 => 6 case 10 => 10 case 11 => 14 case 12 => 3 case 13 => 7 case 14 => 11 case _ => 15
  }

  function IndexThree(i: nat): nat {
    match i
    case 0 => 0 case 1 => 8 case 2 => 4 case 3 => 12 case 4 => 2 case 5 => 10 case 6 => 6 case 7 => 14
    case 8 => 1 case 9 => 9 case 10 => 5 case 11 => 13 case 12 => 3 case 13 => 11 case 14 => 7 case _ => 15
  }

  function Index(round: Round, i: nat): nat {
    match round case One => i case Two => IndexTwo(i) case Three => IndexThree(i)
  }

  // The shift lists repeat four values.
  function Shift(round: Round, i: nat): nat {
    match round
    case One => [3, 7, 11, 19][i % 4]
    case Two => [3, 5, 9, 13][i % 4]
    case Three => [3, 9, 11, 15][i % 4]
  }

  function NamingAt(i: nat): Naming {
    if i % 4 == 0 then ABCD else if i % 4 == 1 then DABC else if i % 4 == 2 then CDAB else BCDA
  }

  // The index and shift tables of the program are the operations of the standard.
  lemma {:induction false} TablesAgree(round: Round, i: nat)
    requires i < 16
    ensures var op := OperationAt(round, i);
            Sound(op) && op.naming == NamingAt(i) && Index(round, i) == op.k && Shift(round, i) == op.s
  {
  }

  lemma {:induction false} MaskIsMod(v: nat)
    ensures And(v, MASK) == v % 0x1_0000_0000
  {
    Pow2Word();
    AndMask(v, 32);
  }

  // Python's complement, cut to 32 bits, is the complement of the word.
  lemma {:induction false} ComplementAgrees(x: Word, z: Word)
    ensures And(And(-1 - x, z), MASK) == WordAnd(Not(x), z)
  {
    WordComplement(x, z);
    MaskKeepsWord(And(Not(x), z));
  }

  lemma {:induction false} MaskKeepsWord(w: Word)
    ensures And(w, MASK) == w
  {
    calc {
      And(w, MASK);
    ==  { MaskIsMod(w); }
      w % 0x1_0000_0000;
    ==
      w;
    }
  }

  lemma {:induction false} WordComplement(x: Word, z: Word)
    ensures And(-1 - x, z) == And(Not(x), z)
  {
    Pow2Word();
    AndComplement(x, z, 32);
  }

  lemma {:induction false} MixAgrees(x: Word, y: Word, z: Word)
    ensures f(x, y, z) == F(x, y, z) && g(x, y, z) == G(x, y, z) && hh(x, y, z) == H(x, y, z)
  {
    ComplementAgrees(x, z);
  }

  /** In each bit position F chooses between Y and Z by X, G is the majority and H the parity, as section 3.4
      has it. */
  lemma {:induction false} MixBits(x: Word, y: Word, z: Word, n: nat)
    ensures Bit(F(x, y, z), n) <==> if Bit(x, n) then Bit(y, n) else Bit(z, n)
    ensures var x', y', z' := Bit(x, n), Bit(y, n), Bit(z, n);
            && (Bit(G(x, y, z), n) <==> (x' && y') || (x' && z') || (y' && z'))
            && (Bit(H(x, y, z), n) <==> ((x' != y') != z'))
  {
    ChoiceBits(x, y, z, n);
    MajorityBits(x, y, z, n);
    XorBits(x, y, n);
    XorBits(WordXor(x, y), z, n);
  }

  lemma {:induction false} ChoiceBits(x: Word, y: Word, z: Word, n: nat)
    ensures Bit(F(x, y, z), n) <==> if Bit(x, n) then Bit(y, n) else Bit(z, n)
  {
    WordComplement(x, z);
    AndBits(x, y, n);
    AndBits(-1 - x, z, n);
    ComplementBits(x, n);
    OrBits(WordAnd(x, y), WordAnd(Not(x), z), n);
  }

  lemma {:induction false} MajorityBits(x: Word, y: Word, z: Word, n: nat)
    ensures var x', y', z' := Bit(x, n), Bit(y, n), Bit(z, n);
            Bit(G(x, y, z), n) <==> (x' && y') || (x' && z') || (y' && z')
  {
    AndBits(x, y, n);
    AndBits(x, z, n);
    AndBits(y, z, n);
    OrBits(WordAnd(x, y), WordAnd(x, z), n);
    OrBits(WordOr(WordAnd(x, y), WordAnd(x, z)), WordAnd(y, z), n);
  }

  lemma {:induction false} LrotIsRotate(v: nat, s: nat)
    requires s <= 32
    ensures Lrot(v, s) == RotateLeft(v % 0x1_0000_0000, s)
  {
    MaskIsMod(v);
    RotatedWord(v % 0x1_0000_0000, s);
  }

  lemma {:induction false} RotatedWord(w: Word, s: nat)
    requires s <= 32
    ensures And(Or(ShiftLeft(w, s), ShiftRight(w, 32 - s)), MASK) == RotateLeft(w, s)
  {
    OrIsSum(w, s);
    MaskedOr(ShiftLeft(w, s), ShiftRight(w, 32 - s));
    RotateMod(w, s);
  }

  lemma {:induction false} MaskedOr(a: nat, b: nat)
    requires Or(a, b) == a + b
    ensures And(Or(a, b), MASK) == (a + b) % 0x1_0000_0000
  {
    MaskIsMod(Or(a, b));
  }

  lemma {:induction false} OrIsSum(w: Word, s: nat)
    requires s <= 32
    ensures Or(ShiftLeft(w, s), ShiftRight(w, 32 - s)) == ShiftLeft(w, s) + ShiftRight(w, 32 - s)
  {
    RotateSplit(w, s);
    ShiftLeftIsProduct(w, s);
    OrDisjoint(w, ShiftRight(w, 32 - s), s);
  }

  lemma {:induction false} RotateMod(w: Word, s: nat)
    requires s <= 32
    ensures (ShiftLeft(w, s) + ShiftRight(w, 32 - s)) % 0x1_0000_0000 == RotateLeft(w, s)
  {
    RotateFits(w, s);
    CarryWord(ShiftLeft(w, s), Wrapped(w, s), Kept(w, s));
  }

  lemma {:induction false} RotateFits(w: Word, s: nat)
    requires s <= 32
    ensures Kept(w, s) + Wrapped(w, s) < 0x1_0000_0000
    ensures ShiftLeft(w, s) == Wrapped(w, s) * 0x1_0000_0000 + Kept(w, s)
  {
    RotateSplit(w, s);
  }

  lemma {:induction false} CarryWord(x: nat, q: nat, k: nat)
    requires x == q * 0x1_0000_0000 + k && k + q < 0x1_0000_0000
    ensures (x + q) % 0x1_0000_0000 == k + q
  {
    CarryMod(x, q, k, 0x1_0000_0000);
  }

  // One masking at the end does the work of a masking after every addition.
  lemma {:induction false} PlusPlus(a: Word, b: Word, c: Word)
    ensures Plus(Plus(a, b), c) == (a + b + c) % 0x1_0000_0000
  {
    MaskedFirst(a + b, c);
  }

  lemma {:induction false} MaskedFirst(sum: nat, d: nat)
    ensures (sum % 0x1_0000_0000 + d) % 0x1_0000_0000 == (sum + d) % 0x1_0000_0000
  {
  }

  lemma {:induction false} PlusPlusPlus(a: Word, b: Word, c: Word, d: Word)
    ensures Plus(Plus(Plus(a, b), c), d) == (a + b + c + d) % 0x1_0000_0000
  {
    PlusPlus(a, b, c);
    MaskedFirst(a + b + c, d);
  }

  lemma {:induction false} TotalAgrees(round: Round, w: Word, x: Word, y: Word, z: Word, m: Word)
    ensures Total(round, w, x, y, z, m) % 0x1_0000_0000 == Plus(Plus(Plus(w, Mix(round, x, y, z)), m), Constant(round))
  {
    MixAgrees(x, y, z);
    PlusPlusPlus(w, Mix(round, x, y, z), m, Constant(round));
  }

  lemma {:induction false} UpdateAgrees(round: Round, w: Word, x: Word, y: Word, z: Word, m: Word, s: nat)
    requires 0 < s < 32
    ensures Lrot(Total(round, w, x, y, z, m), s) == Update(round, w, x, y, z, m, s)
  {
    TotalAgrees(round, w, x, y, z, m);
    LrotIsRotate(Total(round, w, x, y, z, m), s);
  }

  // The program's rotation after an operation is the next renaming of the standard.
  lemma {:induction false} RotationIsRenaming(i: nat, r: Registers, w: Word)
    ensures var now, next := Renamed(NamingAt(i), r), Renamed(NamingAt(i + 1), Assign(NamingAt(i), r, w));
            next == Registers(now.d, w, now.b, now.c)
  {
  }

  // The four integers of the program are these words.
  predicate Same(A: nat, B: nat, C: nat, D: nat, r: Registers) {
    A == r.a && B == r.b && C == r.c && D == r.d
  }

  lemma {:induction false} StepAgrees(round: Round, i: nat, block: seq<Word>, A: nat, B: nat, C: nat, D: nat,
                                      r: Registers)
    requires i < 16 && |block| == 16 && Same(A, B, C, D, Renamed(NamingAt(i), r))
    ensures Index(round, i) < 16 && Shift(round, i) <= 32 && Sound(OperationAt(round, i))
    ensures Same(D, Lrot(Total(round, A, B, C, D, block[Index(round, i)]), Shift(round, i)), B, C,
                 Renamed(NamingAt(i + 1), Apply(round, OperationAt(round, i), block, r)))
  {
    TablesAgree(round, i);
    var t, op := Renamed(NamingAt(i), r), OperationAt(round, i);
    UpdateAgrees(round, t.a, t.b, t.c, t.d, block[op.k], op.s);
    RotationIsRenaming(i, r, Update(round, t.a, t.b, t.c, t.d, block[op.k], op.s));
  }

  // The body of a round's loop.
  method RotatingStep(round: Round, i: nat, X: seq<Word>, a0: nat, b0: nat, c0: nat, d0: nat, ghost r: Registers)
    returns (A: nat, B: nat, C: nat, D: nat)
    requires i < 16 && |X| == 16 && Same(a0, b0, c0, d0, Renamed(NamingAt(i), RunRound(round, X, r, i)))
    ensures Same(A, B, C, D, Renamed(NamingAt(i + 1), RunRound(round, X, r, i + 1)))
  {
    A, B, C, D := a0, b0, c0, d0;
    StepAgrees(round, i, X, A, B, C, D, RunRound(round, X, r, i));
    A := Lrot(Total(round, A, B, C, D, X[Index(round, i)]), Shift(round, i));
    A, D, C, B := D, C, B, A;
  }

  method RotatingSteps(round: Round, X: seq<Word>, r: Registers, n: nat) returns (A: nat, B: nat, C: nat, D: nat)
    requires |X| == 16 && n <= 16
    ensures Same(A, B, C, D, Renamed(NamingAt(n), RunRound(round, X, r, n)))
  {
    A, B, C, D := r.a, r.b, r.c, r.d;
    for i := 0 to n
      invariant Same(A, B, C, D, Renamed(NamingAt(i), RunRound(round, X, r, i)))
    {
      A, B, C, D := RotatingStep(round, i, X, A, B, C, D, r);
    }
  }

  // After sixteen operations the registers have their own names again.
  lemma {:induction false} OwnNames(A: nat, B: nat, C: nat, D: nat, r: Registers)
    requires Same(A, B, C, D, Renamed(NamingAt(16), r))
    ensures Same(A, B, C, D, r)
  {
  }

  /** A round of the program is a round of the standard; every register stays a 32-bit word. */
  method RotatingRound(round: Round, X: seq<Word>, r: Registers) returns (t: Registers)
    requires |X| == 16
    ensures t == WholeRound(round, X, r)
  {
    var A, B, C, D := RotatingSteps(round, X, r, |X|);
    OwnNames(A, B, C, D, WholeRound(round, X, r));
    t := Registers(A, B, C, D);
  }

  method Pad(data: seq<Byte>) returns (msg: seq<Byte>)
    ensures msg == Padded(data)
  {
    var origLenBits := (8 * |data|) % TWO64;
    msg := data + [0x80];
    ghost var k := 0;
    while |msg| % 64 != 56
      invariant k <= Filler(|data|) && msg == data + [0x80] + Zeros(k)
      decreases Filler(|data|) - k
    {
      FillerIsLeast(|data|, k);
      msg := msg + [0];
      k := k + 1;
    }
    FillerIsLeast(|data|, k);
    msg := msg + LittleEndian(origLenBits, 8);
  }

  method MaskedSum(x: Word, y: Word) returns (z: Word)
    ensures z == Plus(x, y)
  {
    MaskIsMod(x + y);
    z := And(x + y, MASK);
  }

  method AddMasked(h: Registers, t: Registers) returns (h': Registers)
    ensures h' == AddRegisters(h, t)
  {
    var a := MaskedSum(h.a, t.a);
    var b := MaskedSum(h.b, t.b);
    var c := MaskedSum(h.c, t.c);
    var d := MaskedSum(h.d, t.d);
    h' := Registers(a, b, c, d);
  }

  method CompressChunk(X: seq<Word>, h: Registers) returns (h': Registers)
    requires |X| == 16
    ensures h' == Compress(X, h)
  {
    var t := RotatingRound(One, X, h);
    t := RotatingRound(Two, X, t);
    t := RotatingRound(Three, X, t);
    h' := AddMasked(h, t);
  }

  // The loop over the 64-byte chunks.
  method HashChunks(msg: seq<Byte>) returns (h: Registers)
    ensures h == Process(msg, |msg| / 64)
  {
    h := Registers(0x67452301, 0xefcdab89, 0x98badcfe, 0x10325476);
    var n := |msg| / 64;
    for i := 0 to n
      invariant h == Process(msg, i)
    {
      assert 64 * i + 64 <= |msg|;
      var X := BlockAt(msg, 64 * i);
      h := CompressChunk(X, h);
    }
  }

  /** The digest the program computes is the one of RFC 1320, for every byte string. */
  method Digest(data: seq<Byte>) returns (digest: seq<Byte>)
    ensures digest == Rfc1320(data)
    ensures var r := FinalRegisters(data);
            && |digest| == 16 && WordAt(digest, 0) == r.a && WordAt(digest, 4) == r.b
            && WordAt(digest, 8) == r.c && WordAt(digest, 12) == r.d
  {
    var msg := Pad(data);
    var h := HashChunks(msg);
    digest := Packed(h);
    PackedWords(h);
  }
}
