/** CRC-32, most significant bit first: the table-driven form that consumes a byte at
    a time computes the same as the shift register that consumes a bit at a time.
    Words are sequences of bits, bit `k` at index `k`. */
module Crc32 {
  import opened Words

  type Byte = b: seq<bool> | |b| == 8 witness seq(8, _ => false)

  function Xor(x: Word, y: Word): (r: Word)
    ensures forall k | 0 <= k < 32 :: r[k] == (x[k] != y[k])
  {
    seq(32, k requires 0 <= k < 32 => x[k] != y[k])
  }

  function XorByte(x: Byte, y: Byte): (r: Byte)
    ensures forall k | 0 <= k < 8 :: r[k] == (x[k] != y[k])
  {
    seq(8, k requires 0 <= k < 8 => x[k] != y[k])
  }

  /** `x << n`. */
  function Left(x: Word, n: nat): (r: Word)
    ensures forall k | 0 <= k < 32 :: r[k] == (n <= k && x[k - n])
  {
    seq(32, k requires 0 <= k < 32 => n <= k && x[k - n])
  }

  /** `~x`. */
  function Not(x: Word): (r: Word)
    ensures forall k | 0 <= k < 32 :: r[k] == !x[k]
  {
    seq(32, k requires 0 <= k < 32 => !x[k])
  }

  function Fill(bit: bool): (r: Word)
    ensures forall k | 0 <= k < 32 :: r[k] == bit
  {
    seq(32, _ => bit)
  }

  /** The set bits of 0x04c11db7. */
  predicate PolyBit(k: int) {
    k in {0, 1, 2, 4, 5, 7, 8, 10, 11, 12, 16, 22, 23, 26}
  }

  function Poly(): (r: Word)
    ensures forall k | 0 <= k < 32 :: r[k] == PolyBit(k)
  {
    seq(32, k requires 0 <= k < 32 => PolyBit(k))
  }

  /** One step of the register without input. */
  function Shift(c: Word): Word {
    if c[31] then Xor(Left(c, 1), Poly()) else Left(c, 1)
  }

  function ShiftN(c: Word, n: nat): Word {
    if n == 0 then c else Shift(ShiftN(c, n - 1))
  }

  lemma {:induction false} ShiftNMore(c: Word, n: nat)
    requires n > 0
    ensures ShiftN(c, n) == Shift(ShiftN(c, n - 1))
  {
  }

  // ---------------------------------------------------------------------
  // The bit-serial register
  // ---------------------------------------------------------------------

  /** Feed one bit: the polynomial is subtracted if the bit shifted out and the input
      bit differ. */
  function FeedBit(reg: Word, bit: bool): Word {
    if reg[31] != bit then Xor(Left(reg, 1), Poly()) else Left(reg, 1)
  }

  /** Feed the first `n` bits of a byte, most significant first. */
  function FeedBits(reg: Word, b: Byte, n: nat): Word
    requires n <= 8
  {
    if n == 0 then reg else FeedBit(FeedBits(reg, b, n - 1), b[8 - n])
  }

  function Feed(reg: Word, buf: seq<Byte>): Word {
    if buf == [] then reg else FeedBits(Feed(reg, buf[..|buf| - 1]), buf[|buf| - 1], 8)
  }

  /** All-ones preload and final complement. */
  function SerialCrc(buf: seq<Byte>): Word {
    Not(Feed(Fill(true), buf))
  }

  // ---------------------------------------------------------------------
  // Linearity
  // ---------------------------------------------------------------------

  lemma {:induction false} Extensional(x: Word, y: Word)
    requires forall k | 0 <= k < 32 :: x[k] == y[k]
    ensures x == y
  {
  }

  lemma {:induction false} ShiftBits(c: Word, k: nat)
    requires k < 32
    ensures Shift(c)[k] == ((k > 0 && c[k - 1]) != (c[31] && PolyBit(k)))
  {
  }

  /** The step is linear over exclusive or. */
  lemma {:induction false} ShiftLinear(x: Word, y: Word)
    ensures Shift(Xor(x, y)) == Xor(Shift(x), Shift(y))
  {
  }

  lemma {:induction false} ShiftNLinear(x: Word, y: Word, n: nat)
    ensures ShiftN(Xor(x, y), n) == Xor(ShiftN(x, n), ShiftN(y, n))
  {
    if n > 0 {
      ShiftNLinear(x, y, n - 1);
      ShiftLinear(ShiftN(x, n - 1), ShiftN(y, n - 1));
    }
  }

  /** As long as no set bit reaches the top, stepping is a plain shift. */
  lemma {:induction false} ShiftNLow(x: Word, n: nat)
    requires n <= 32 && forall k | 32 - n <= k < 32 :: !x[k]
    ensures ShiftN(x, n) == Left(x, n)
  {
    if n == 0 {
      Extensional(x, Left(x, 0));
    } else {
      ShiftNLow(x, n - 1);
      LeftLeft(x, n - 1);
      assert !Left(x, n - 1)[31];
    }
  }

  lemma {:induction false} LeftLeft(x: Word, n: nat)
    ensures Left(Left(x, n), 1) == Left(x, n + 1)
  {
  }

  // ---------------------------------------------------------------------
  // Bits, bytes and the table
  // ---------------------------------------------------------------------

  /** The first `n` bits of `b` at the top of a word. */
  function AtTop(b: Byte, n: nat): (r: Word)
    requires n <= 8
    ensures forall k | 0 <= k < 32 :: r[k] == (32 - n <= k && b[k - 24])
  {
    seq(32, k requires 0 <= k < 32 => 32 - n <= k && b[k - 24])
  }

  function One(at: nat, bit: bool): (r: Word)
    ensures forall k | 0 <= k < 32 :: r[k] == (k == at && bit)
  {
    seq(32, k requires 0 <= k < 32 => k == at && bit)
  }

  /** `x >> 24` as a byte. */
  function TopByte(x: Word): (b: Byte)
    ensures forall k | 0 <= k < 8 :: b[k] == x[k + 24]
  {
    seq(8, k requires 0 <= k < 8 => x[k + 24])
  }

  function TableEntry(b: Byte): Word {
    ShiftN(AtTop(b, 8), 8)
  }

  lemma {:induction false} FeedBitIsShift(reg: Word, bit: bool)
    ensures FeedBit(reg, bit) == Shift(Xor(reg, One(31, bit)))
  {
  }

  lemma {:induction false} AtTopNext(reg: Word, b: Byte, n: nat)
    requires 1 <= n <= 8
    ensures Xor(reg, AtTop(b, n)) == Xor(Xor(reg, AtTop(b, n - 1)), One(32 - n, b[8 - n]))
  {
  }

  lemma {:induction false} OneReachesTop(n: nat, bit: bool)
    requires 1 <= n <= 8
    ensures ShiftN(One(32 - n, bit), n - 1) == One(31, bit)
  {
    ShiftNLow(One(32 - n, bit), n - 1);
    Extensional(Left(One(32 - n, bit), n - 1), One(31, bit));
  }

  /** Feeding bits one by one is adding them at the top and stepping. */
  lemma {:induction false} FeedBitsIsShift(reg: Word, b: Byte, n: nat)
    requires n <= 8
    ensures FeedBits(reg, b, n) == ShiftN(Xor(reg, AtTop(b, n)), n)
  {
    if n == 0 {
      Extensional(Xor(reg, AtTop(b, 0)), reg);
    } else {
      var bit := b[8 - n];
      var x := Xor(reg, AtTop(b, n - 1));
      FeedBitsIsShift(reg, b, n - 1);
      FeedBitIsShift(ShiftN(x, n - 1), bit);
      OneReachesTop(n, bit);
      ShiftNLinear(x, One(32 - n, bit), n - 1);
      AtTopNext(reg, b, n);
    }
  }

  /** Eight steps: the low bits shift, the top byte contributes its table entry. */
  lemma {:induction false} Shift8ByTable(x: Word)
    ensures ShiftN(x, 8) == Xor(Left(x, 8), TableEntry(TopByte(x)))
  {
    var high := AtTop(TopByte(x), 8);
    var low := Xor(x, high);
    Extensional(x, Xor(low, high));
    ShiftNLow(low, 8);
    ShiftNLinear(low, high, 8);
    Extensional(Left(low, 8), Left(x, 8));
  }

  /** One byte by table is eight bits of the serial register. */
  lemma {:induction false} ByteByTable(crc: Word, p: Byte)
    ensures Xor(Left(crc, 8), TableEntry(XorByte(TopByte(crc), p))) == FeedBits(crc, p, 8)
  {
    var y := Xor(crc, AtTop(p, 8));
    FeedBitsIsShift(crc, p, 8);
    Shift8ByTable(y);
    LeftIgnoresTop(crc, p);
    assert TopByte(y) == XorByte(TopByte(crc), p);
  }

  lemma {:induction false} LeftIgnoresTop(x: Word, p: Byte)
    ensures Left(Xor(x, AtTop(p, 8)), 8) == Left(x, 8)
  {
  }

  // ---------------------------------------------------------------------
  // Bytes as table indices
  // ---------------------------------------------------------------------

  function Number(bits: seq<bool>): nat {
    if bits == [] then 0 else (if bits[0] then 1 else 0) + 2 * Number(bits[1..])
  }

  function BitsOf(n: nat, len: nat): (bits: seq<bool>)
    ensures |bits| == len
  {
    if len == 0 then [] else [n % 2 == 1] + BitsOf(n / 2, len - 1)
  }

  function Pow2(n: nat): nat {
    if n == 0 then 1 else 2 * Pow2(n - 1)
  }

  lemma {:induction false} NumberBits(bits: seq<bool>)
    ensures BitsOf(Number(bits), |bits|) == bits && Number(bits) < Pow2(|bits|)
  {
    if bits != [] {
      NumberBits(bits[1..]);
      var n := Number(bits);
      assert n / 2 == Number(bits[1..]) && (n % 2 == 1) == bits[0];
      assert bits == [bits[0]] + bits[1..];
    }
  }

  lemma {:induction false} ByteNumber(b: Byte)
    ensures Number(b) < 256 && BitsOf(Number(b), 8) == b
  {
    NumberBits(b);
    assert Pow2(8) == 256;
  }

  lemma {:induction false} BitsOfZero(len: nat)
    ensures forall k | 0 <= k < len :: !BitsOf(0, len)[k]
  {
    if len > 0 { BitsOfZero(len - 1); }
  }

  lemma {:induction false} OneAtTop()
    ensures AtTop(BitsOf(1, 8), 8) == One(24, true)
  {
    BitsOfZero(7);
    assert BitsOf(1, 8) == [true] + BitsOf(0, 7);
    Extensional(AtTop(BitsOf(1, 8), 8), One(24, true));
  }

  lemma {:induction false} TopBecomesPoly()
    ensures Shift(One(31, true)) == Poly() && Poly() != Fill(false)
  {
    forall k | 0 <= k < 32 ensures Shift(One(31, true))[k] == Poly()[k] {
      ShiftBits(One(31, true), k);
    }
    Extensional(Shift(One(31, true)), Poly());
    assert Poly()[0] && !Fill(false)[0];
  }

  /** The table is recognised as filled: the entry of 1 is the polynomial itself. */
  lemma {:induction false} EntryOfOne()
    ensures TableEntry(BitsOf(1, 8)) == Poly() && Poly() != Fill(false)
  {
    OneAtTop();
    OneReachesTop(8, true);
    TopBecomesPoly();
  }

  /** The CRC of nothing is 0: the complement undoes the preload. */
  lemma {:induction false} CrcOfNothing()
    ensures SerialCrc([]) == Fill(false)
  {
    Extensional(SerialCrc([]), Fill(false));
  }

  /** The CRC of the single byte 0xfe: the polynomial, with the bits of 0xff flipped. */
  lemma {:induction false} CrcOfOneByte()
    ensures forall k | 0 <= k < 32 :: SerialCrc([NotByte(BitsOf(1, 8))])[k] == (PolyBit(k) != (k < 8))
  {
    var p := NotByte(BitsOf(1, 8));
    assert Feed(Fill(true), [p]) == FeedBits(Fill(true), p, 8) by {
      assert [p][..0] == [] && Feed(Fill(true), []) == Fill(true);
    }
    ByteByTable(Fill(true), p);
    assert XorByte(TopByte(Fill(true)), p) == BitsOf(1, 8);
    EntryOfOne();
  }

  function NotByte(b: Byte): (r: Byte)
    ensures forall k | 0 <= k < 8 :: r[k] == !b[k]
  {
    seq(8, k requires 0 <= k < 8 => !b[k])
  }

  lemma {:induction false} NumberOfFour(b: seq<bool>)
    requires |b| >= 4
    ensures Number(b) == (if b[0] then 1 else 0) + (if b[1] then 2 else 0) + (if b[2] then 4 else 0)
                         + (if b[3] then 8 else 0) + 16 * Number(b[4..])
  {
    assert b[1..][1..] == b[2..] && b[2..][1..] == b[3..] && b[3..][1..] == b[4..];
    assert Number(b[3..]) == (if b[3] then 1 else 0) + 2 * Number(b[4..]);
    assert Number(b[2..]) == (if b[2] then 1 else 0) + 2 * Number(b[3..]);
    assert Number(b[1..]) == (if b[1] then 1 else 0) + 2 * Number(b[2..]);
  }

  /** The polynomial is 0x04c11db7. */
  lemma {:induction false} PolyNumber()
    ensures Number(Poly()) == 0x04c1_1db7
  {
    var p: seq<bool> := Poly();
    assert Number(p[32..]) == 0;
    forall k | 0 <= k <= 28 ensures p[k..][4..] == p[k + 4..] { }
    NumberOfFour(p[28..]);
    assert Number(p[28..]) == 0x0;
    NumberOfFour(p[24..]);
    assert Number(p[24..]) == 0x04;
    NumberOfFour(p[20..]);
    assert Number(p[20..]) == 0x04c;
    NumberOfFour(p[16..]);
    assert Number(p[16..]) == 0x04c1;
    NumberOfFour(p[12..]);
    assert Number(p[12..]) == 0x04c11;
    NumberOfFour(p[8..]);
    assert Number(p[8..]) == 0x04c11d;
    NumberOfFour(p[4..]);
    assert Number(p[4..]) == 0x04c11db;
    NumberOfFour(p);
  }

  class Crc {
    const table: array<Word>

    /** The table is static storage: all zero until it is filled. */
    ghost predicate Empty()
      reads table
    {
      table.Length == 256 && forall i | 0 <= i < 256 :: table[i] == Fill(false)
    }

    ghost predicate Filled()
      reads table
    {
      table.Length == 256 && forall i | 0 <= i < 256 :: table[i] == TableEntry(BitsOf(i, 8))
    }

    constructor ()
      ensures Empty() && fresh(table)
    {
      table := new Word[256](_ => Fill(false));
    }

    method InitCrc32()
      requires table.Length == 256
      modifies table
      ensures Filled()
    {
      for i := 0 to 256
        invariant forall n | 0 <= n < i :: table[n] == TableEntry(BitsOf(n, 8))
      {
        var c := EntryByShifting(BitsOf(i, 8));
        table[i] := c;
      }
    }

    method EntryByShifting(b: Byte) returns (c: Word)
      ensures c == TableEntry(b)
    {
      c := AtTop(b, 8);
      ghost var top := c;
      var j := 8;
      while j > 0
        invariant 0 <= j <= 8 && c == ShiftN(top, 8 - j)
      {
        c := ShiftOnce(c);
        j := j - 1;
        ShiftNMore(top, 8 - j);
      }
    }

    method ShiftOnce(c: Word) returns (r: Word)
      ensures r == Shift(c)
    {
      r := if c[31] then Xor(Left(c, 1), Poly()) else Left(c, 1);
    }

    /** One byte of input by table lookup. */
    method NextByte(crc: Word, p: Byte) returns (r: Word)
      requires Filled()
      ensures r == FeedBits(crc, p, 8)
    {
      var index := XorByte(TopByte(crc), p);
      ByteNumber(index);
      ByteByTable(crc, p);
      r := Xor(Left(crc, 8), table[Number(index)]);
    }

    /** Fills the table unless an earlier call has done so. */
    method EnsureTable()
      requires Empty() || Filled()
      modifies table
      ensures Filled()
    {
      EntryOfOne();
      if table[1] == Fill(false) {
        InitCrc32();
      }
    }

    /** Whether or not earlier calls filled the table, the result is the serial CRC. */
    method Compute(buf: seq<Byte>) returns (crc: Word)
      requires Empty() || Filled()
      modifies table
      ensures Filled()
      ensures crc == SerialCrc(buf)
    {
      EnsureTable();
      crc := Fill(true);
      for n := 0 to |buf|
        invariant Filled()
        invariant crc == Feed(Fill(true), buf[..n])
      {
        assert buf[..n + 1][..n] == buf[..n];
        crc := NextByte(crc, buf[n]);
      }
      assert buf[..|buf|] == buf;
      crc := Not(crc);
    }
  }
}
