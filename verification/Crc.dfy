/** CRC16-ITU (CRC-16/X-25): the table-driven checksum of every GT06 frame.

The specification is the shift register of Appendix C.2 of RFC 1662, fed one bit at a
time, least significant bit of each byte first. The program uses a 256-entry table and
eats a byte at a time; `Crc16Itu` shows the two agree, and `BurstDetected` shows what the
register is for: no error confined to 16 consecutive bits goes unseen. */
module Crc {

  type byte = x: int | 0 <= x < 0x100
  type word = x: int | 0 <= x < 0x10000

  /** A 16-bit register. */
  type Reg = bv16

  const POLY: bv16 := 0x8408
  const SEED: Reg := 0xFFFF
  const ZERO: Reg := 0

  function Xor(a: Reg, b: Reg): Reg { a ^ b }
  function Odd(a: Reg): bool { a & 1 == 1 }
  function Half(a: Reg): Reg { a >> 1 }
  function Low(a: Reg): Reg { a & 0xFF }
  function High(a: Reg): Reg { a >> 8 }
  predicate Top(a: Reg) { a & 0x8000 != 0 }

  /** One more bit under the others. */
  function Join(bit: bool, rest: Reg): Reg { (if bit then 1 else 0) | (rest << 1) }

  /** Bits laid into a register, the first one lowest. */
  function Load(bits: seq<bool>): Reg {
    if bits == [] then ZERO else Join(bits[0], Load(bits[1..]))
  }

  function FromByte(b: byte): Reg { Load(ByteBits(b)) }
  function FromInt(i: int): Reg requires 0 <= i < 65536 { i as bv16 }

  /** The register complemented, as the checksum leaves it. */
  function Flip(a: Reg): Reg { a ^ 0xFFFF }
  function Complement(a: Reg): word { Flip(a) as int }

  // ---- The register, one bit at a time -------------------------------------------

  function Shift(crc: Reg, bit: bool): Reg {
    if (crc & 1 == 1) != bit then (crc >> 1) ^ POLY else crc >> 1
  }

  function Register(crc: Reg, bits: seq<bool>): Reg
    decreases bits
  {
    if bits == [] then crc else Register(Shift(crc, bits[0]), bits[1..])
  }

  /** The n low binary digits of a number, least significant first. */
  function Digits(b: nat, n: nat): (bits: seq<bool>)
    ensures |bits| == n
    decreases n
  {
    if n == 0 then [] else [b % 2 == 1] + Digits(b / 2, n - 1)
  }

  function ByteBits(b: byte): (bits: seq<bool>)
    ensures |bits| == 8
  {
    Digits(b, 8)
  }

  function Bits(data: seq<byte>): (bits: seq<bool>)
    ensures |bits| == 8 * |data|
  {
    if data == [] then [] else ByteBits(data[0]) + Bits(data[1..])
  }

  /** The checksum as RFC 1662 defines it. */
  function Checksum(data: seq<byte>): word {
    Complement(Register(SEED, Bits(data)))
  }

  // ---- The table -------------------------------------------------------------------

  /** One step of the table's inner loop. */
  function TableStep(crc: Reg): Reg {
    if crc & 1 == 1 then (crc >> 1) ^ POLY else crc >> 1
  }

  function TableSteps(crc: Reg, n: nat): Reg
    decreases n
  {
    if n == 0 then crc else TableSteps(TableStep(crc), n - 1)
  }

  ghost predicate IsTable(table: seq<Reg>) {
    |table| == 256 && forall i | 0 <= i < 256 :: table[i] == TableSteps(FromInt(i), 8)
  }

  method BuildTable() returns (table: seq<Reg>)
    ensures IsTable(table)
  {
    hide FromInt;
    table := [];
    for b := 0 to 256
      invariant |table| == b
      invariant forall i | 0 <= i < b :: table[i] == TableSteps(FromInt(i), 8)
    {
      var crc := FromInt(b);
      for k := 0 to 8
        invariant TableSteps(crc, 8 - k) == TableSteps(FromInt(b), 8)
      {
        crc := if crc & 1 == 1 then (crc >> 1) ^ POLY else crc >> 1;
      }
      table := table + [crc];
    }
  }

  // ---- The table is the register ----------------------------------------------------

  /** v without its n low bits. */
  function Drop(v: Reg, n: nat): Reg
    decreases n
  {
    if n == 0 then v else Drop(Half(v), n - 1)
  }

  /** Bits that have not entered the register yet commute with its step. */
  lemma PendingBits(y: Reg, v: Reg)
    ensures Xor(Shift(y, Odd(v)), Half(v)) == TableStep(Xor(y, v))
  {
    hide Shift, TableStep;
    PendingBitsRaw(y, v, Odd(v));
  }

  lemma PendingBitsRaw(y: bv16, v: bv16, bit: bool)
    requires bit == (v & 1 == 1)
    ensures Shift(y, bit) ^ (v >> 1) == TableStep(y ^ v)
  {
  }

  lemma JoinParts(bit: bool, rest: Reg)
    requires !Top(rest)
    ensures Odd(Join(bit, rest)) == bit && Half(Join(bit, rest)) == rest
  {
  }

  lemma LoadFits(bits: seq<bool>)
    requires |bits| <= 16
    ensures Drop(Load(bits), |bits|) == ZERO
    ensures |bits| < 16 ==> !Top(Load(bits))
  {
    hide Join, Top, Half;
    if bits != [] {
      LoadFits(bits[1..]);
      JoinParts(bits[0], Load(bits[1..]));
    }
    if |bits| < 16 {
      DropShort(Load(bits), |bits|);
    }
  }

  /** Bits shifted in one by one, against the table's loop run on all of them at once. */
  lemma {:induction false} SerialIsParallel(crc: Reg, bits: seq<bool>)
    requires |bits| <= 16
    ensures Register(crc, bits) == TableSteps(Xor(crc, Load(bits)), |bits|)
    decreases bits
  {
    hide Shift, TableStep, Xor, Odd, Half, Join, Top;
    if bits == [] {
      XorZero(crc);
    } else {
      LoadFits(bits[1..]);
      JoinParts(bits[0], Load(bits[1..]));
      SerialIsParallel(Shift(crc, bits[0]), bits[1..]);
      PendingBits(crc, Load(bits));
    }
  }

  function Half8(v: Reg): Reg {
    Half(Half(Half(Half(Half(Half(Half(Half(v))))))))
  }

  function TableStep8(c: Reg): Reg {
    TableStep(TableStep(TableStep(TableStep(TableStep(TableStep(TableStep(TableStep(c))))))))
  }

  lemma EightSteps(c: Reg)
    ensures TableSteps(c, 8) == TableStep8(c)
    ensures Drop(c, 8) == Half8(c)
  {
    hide TableStep, Half;
    var c2 := TableStep(TableStep(c));
    var c4 := TableStep(TableStep(c2));
    var c6 := TableStep(TableStep(c4));
    assert TableSteps(c, 8) == TableSteps(c2, 6) == TableSteps(c4, 4) == TableSteps(c6, 2);
    var h2 := Half(Half(c));
    var h4 := Half(Half(h2));
    var h6 := Half(Half(h4));
    assert Drop(c, 8) == Drop(h2, 6) == Drop(h4, 4) == Drop(h6, 2);
  }

  /** Eight steps split: the high byte only moves down, the low byte is looked up. */
  lemma LookupSplits(c: Reg)
    ensures TableStep8(c) == Xor(High(c), TableStep8(Low(c)))
  {
    hide TableStep;
    LookupSplitsRaw(c);
  }

  lemma LookupSplitsRaw(c: bv16)
    ensures TableStep(TableStep(TableStep(TableStep(TableStep(TableStep(TableStep(TableStep(c))))))))
         == (c >> 8) ^ TableStep(TableStep(TableStep(TableStep(TableStep(TableStep(TableStep(TableStep(c & 0xFF))))))))
  {
  }

  lemma HighIsHalf8(crc: Reg, x: Reg)
    requires Half8(x) == ZERO
    ensures High(Xor(crc, x)) == High(crc)
  {
  }

  lemma XorZero(a: Reg)
    ensures Xor(a, ZERO) == a
  {
  }

  /** Eight serial shifts of a byte are one table lookup. */
  lemma ByteIsLookup(crc: Reg, b: byte)
    ensures Register(crc, ByteBits(b)) == Xor(High(crc), TableSteps(Low(Xor(crc, FromByte(b))), 8))
  {
    hide Xor, Half8, TableStep8, Low, High, Load, Shift, TableStep, Half, ByteBits;
    var v := FromByte(b);
    SerialIsParallel(crc, ByteBits(b));
    LoadFits(ByteBits(b));
    EightSteps(v);
    HighIsHalf8(crc, v);
    EightSteps(Xor(crc, v));
    LookupSplits(Xor(crc, v));
    EightSteps(Low(Xor(crc, v)));
  }

  lemma RegisterAppend(crc: Reg, a: seq<bool>, b: seq<bool>)
    ensures Register(crc, a + b) == Register(Register(crc, a), b)
    decreases a
  {
    hide Shift;
    if a == [] {
      assert a + b == b;
    } else {
      assert (a + b)[1..] == a[1..] + b;
      RegisterAppend(Shift(crc, a[0]), a[1..], b);
    }
  }

  lemma BitsAppend(a: seq<byte>, b: seq<byte>)
    ensures Bits(a + b) == Bits(a) + Bits(b)
  {
    hide ByteBits;
    if a == [] {
      assert a + b == b;
    } else {
      assert (a + b)[1..] == a[1..] + b;
      BitsAppend(a[1..], b);
      assert Bits(a + b) == ByteBits(a[0]) + (Bits(a[1..]) + Bits(b));
    }
  }

  /** Where the table is read: the low byte as a number. */
  function TableIndex(x: Reg): (i: int)
    ensures 0 <= i < 256 && FromInt(i) == Low(x)
  {
    hide Low;
    LowIsByte(x);
    IntRoundTrip(Low(x));
    Low(x) as int
  }

  lemma LowIsByte(x: Reg)
    ensures Low(x) as int < 256
  {
    assert x & 0xFF < 256;
  }

  lemma IntRoundTrip(x: Reg)
    ensures 0 <= x as int < 65536 && FromInt(x as int) == x
  {
  }

  /** The program's checksum: one table lookup a byte. It is the RFC's register. */
  method Crc16Itu(table: seq<Reg>, data: seq<byte>) returns (r: word)
    requires IsTable(table)
    ensures r == Checksum(data)
  {
    hide Xor, High, Low, FromByte, FromInt, Shift, TableStep, TableIndex, Complement, ByteBits;
    var crc := SEED;
    for i := 0 to |data|
      invariant crc == Register(SEED, Bits(data[..i]))
    {
      ByteIsLookup(crc, data[i]);
      ghost var next := Register(crc, ByteBits(data[i]));
      RegisterAppend(SEED, Bits(data[..i]), ByteBits(data[i]));
      assert Bits(data[..i + 1]) == Bits(data[..i]) + ByteBits(data[i]) by {
        assert data[..i + 1] == data[..i] + [data[i]];
        BitsAppend(data[..i], [data[i]]);
        assert Bits([data[i]]) == ByteBits(data[i]);
      }
      crc := Xor(High(crc), table[TableIndex(Xor(crc, FromByte(data[i])))]);
    }
    assert data[..|data|] == data;
    r := Complement(crc);
  }

  // ---- What the checksum detects -----------------------------------------------------

  lemma ShiftInjective(a: Reg, b: Reg, bit: bool)
    requires Shift(a, bit) == Shift(b, bit)
    ensures a == b
  {
  }

  lemma {:induction false} RegisterInjective(a: Reg, b: Reg, bits: seq<bool>)
    requires Register(a, bits) == Register(b, bits)
    ensures a == b
    decreases bits
  {
    hide Shift;
    if bits != [] {
      RegisterInjective(Shift(a, bits[0]), Shift(b, bits[0]), bits[1..]);
      ShiftInjective(a, b, bits[0]);
    }
  }

  lemma {:induction false} DropMore(d: Reg, j: nat, n: nat)
    requires j <= n && Drop(d, j) == ZERO
    ensures Drop(d, n) == ZERO
    decreases n
  {
    hide Half;
    if j > 0 {
      DropMore(Half(d), j - 1, n - 1);
    } else if n > 0 {
      assert Half(ZERO) == ZERO by { HalfZero(); }
      DropMore(Half(d), 0, n - 1);
    }
  }

  lemma HalfZero()
    ensures Half(ZERO) == ZERO
  {
  }

  /** A difference that fits in 15 bits leaves the top bit alone. */
  lemma DropShort(d: Reg, j: nat)
    requires j <= 15 && Drop(d, j) == ZERO
    ensures !Top(d)
  {
    hide Half, Top;
    DropMore(d, j, 15);
    var d2 := Half(Half(d));
    var d4 := Half(Half(d2));
    var d6 := Half(Half(d4));
    var d8 := Half(Half(d6));
    var d10 := Half(Half(d8));
    var d12 := Half(Half(d10));
    var d14 := Half(Half(d12));
    assert Drop(d, 15) == Drop(d2, 13) == Drop(d4, 11) == Drop(d6, 9);
    assert Drop(d6, 9) == Drop(d8, 7) == Drop(d10, 5) == Drop(d12, 3) == Drop(d14, 1);
    assert Drop(d14, 1) == Half(d14);
    FifteenHalves(d);
  }

  lemma FifteenHalves(d: Reg)
    ensures Half(Half(Half(Half(Half(Half(Half(Half8(d)))))))) == ZERO ==> !Top(d)
  {
  }

  /** One step backwards: registers that agree in the top bit were fed back alike. */
  lemma DifferenceBack(a: Reg, b: Reg, p: bool, q: bool)
    requires !Top(Xor(Shift(a, p), Shift(b, q)))
    ensures Xor(Shift(a, p), Shift(b, q)) == Half(Xor(a, b))
    ensures a == b ==> p == q
  {
    hide Shift;
    DifferenceBackRaw(a, b, p, q);
  }

  lemma DifferenceBackRaw(a: bv16, b: bv16, p: bool, q: bool)
    requires (Shift(a, p) ^ Shift(b, q)) & 0x8000 == 0
    ensures Shift(a, p) ^ Shift(b, q) == (a ^ b) >> 1
    ensures a == b ==> p == q
  {
  }

  lemma XorSelf(a: Reg)
    ensures Xor(a, a) == ZERO
  {
  }

  /** Two runs of at most 16 steps that end equal started with a difference that fits in
  as many bits as there were steps, and if they started equal they were fed the same bits. */
  lemma {:induction false} DifferenceShrinks(a: Reg, b: Reg, u: seq<bool>, v: seq<bool>)
    requires |u| == |v| <= 16
    requires Register(a, u) == Register(b, v)
    ensures Drop(Xor(a, b), |u|) == ZERO
    ensures a == b ==> u == v
    decreases u
  {
    hide Shift, Xor, Half, Top;
    if u == [] {
      XorSelf(a);
    } else {
      var a', b' := Shift(a, u[0]), Shift(b, v[0]);
      DifferenceShrinks(a', b', u[1..], v[1..]);
      DropShort(Xor(a', b'), |u| - 1);
      DifferenceBack(a, b, u[0], v[0]);
      if a == b {
        assert u == [u[0]] + u[1..] && v == [v[0]] + v[1..];
      }
    }
  }

  /** Burst detection: change anything within 16 consecutive bits of a message, and nothing
  outside them, and the register ends somewhere else. */
  lemma {:induction false} BurstDetected(before: seq<bool>, u: seq<bool>, v: seq<bool>, after: seq<bool>)
    requires |u| == |v| <= 16 && u != v
    ensures Register(SEED, before + u + after) != Register(SEED, before + v + after)
  {
    hide Shift, Xor;
    var one := SEED;
    var s := Register(one, before);
    RegisterAppend(one, before + u, after);
    RegisterAppend(one, before + v, after);
    RegisterAppend(one, before, u);
    RegisterAppend(one, before, v);
    if Register(one, before + u + after) == Register(one, before + v + after) {
      RegisterInjective(Register(s, u), Register(s, v), after);
      DifferenceShrinks(s, s, u, v);
    }
  }

  function PowerOf2(n: nat): nat {
    if n == 0 then 1 else 2 * PowerOf2(n - 1)
  }

  lemma {:induction false} DigitsInjective(a: nat, b: nat, n: nat)
    requires a < PowerOf2(n) && b < PowerOf2(n)
    requires Digits(a, n) == Digits(b, n)
    ensures a == b
    decreases n
  {
    if n > 0 {
      assert Digits(a, n)[0] == Digits(b, n)[0];
      assert Digits(a, n)[1..] == Digits(a / 2, n - 1) && Digits(b, n)[1..] == Digits(b / 2, n - 1);
      DigitsInjective(a / 2, b / 2, n - 1);
    }
  }

  lemma ByteBitsInjective(a: byte, b: byte)
    requires ByteBits(a) == ByteBits(b)
    ensures a == b
  {
    assert PowerOf2(3) == 8 && PowerOf2(5) == 32 && PowerOf2(8) == 256;
    DigitsInjective(a, b, 8);
  }

  lemma {:induction false} BitsInjective(a: seq<byte>, b: seq<byte>)
    requires |a| == |b| && Bits(a) == Bits(b)
    ensures a == b
  {
    hide ByteBits;
    if a != [] {
      assert ByteBits(a[0]) == Bits(a)[..8] == Bits(b)[..8] == ByteBits(b[0]);
      assert Bits(a[1..]) == Bits(a)[8..] == Bits(b)[8..] == Bits(b[1..]);
      ByteBitsInjective(a[0], b[0]);
      BitsInjective(a[1..], b[1..]);
    }
  }

  lemma ComplementInjective(a: Reg, b: Reg)
    requires Complement(a) == Complement(b)
    ensures a == b
  {
    hide Flip;
    IntRoundTrip(Flip(a));
    IntRoundTrip(Flip(b));
    hide FromInt;
    FlipInjective(a, b);
  }

  lemma FlipInjective(a: Reg, b: Reg)
    ensures Flip(a) == Flip(b) ==> a == b
  {
  }

  /** The same for bytes: messages that differ only within two adjacent bytes never share a
  checksum. */
  lemma {:induction false} TwoByteErrorsDetected(before: seq<byte>, u: seq<byte>, v: seq<byte>, after: seq<byte>)
    requires |u| == |v| <= 2 && u != v
    ensures Checksum(before + u + after) != Checksum(before + v + after)
  {
    hide Complement, Shift, ByteBits;
    if Bits(u) == Bits(v) { BitsInjective(u, v); }
    BurstDetected(Bits(before), Bits(u), Bits(v), Bits(after));
    BitsAppend(before + u, after);
    BitsAppend(before + v, after);
    BitsAppend(before, u);
    BitsAppend(before, v);
    if Checksum(before + u + after) == Checksum(before + v + after) {
      ComplementInjective(Register(SEED, Bits(before + u + after)), Register(SEED, Bits(before + v + after)));
    }
  }

  // ---- What it does not ----------------------------------------------------------------------------

  lemma ByteParts(a: Reg)
    ensures a as int == 0x100 * (High(a) as int) + Low(a) as int
  {
    BytePartsRaw(a);
  }

  lemma BytePartsRaw(a: bv16)
    ensures a as int == 0x100 * ((a >> 8) as int) + (a & 0xFF) as int
  {
  }

  lemma LowByte(a: Reg)
    ensures Complement(a) % 0x100 == Low(Flip(a)) as int
  {
    hide Flip;
    LowRemains(Flip(a));
  }

  lemma LowRemains(a: Reg)
    ensures a as int % 0x100 == Low(a) as int
  {
    hide Low, High;
    LowIsByte(a);
    ByteParts(a);
    Remainder(a as int, High(a) as int, Low(a) as int);
  }

  lemma Remainder(x: int, high: int, low: int)
    requires x == 0x100 * high + low && 0 <= low < 0x100
    ensures x % 0x100 == low
  {
  }

  lemma LowBytesAgree(a: Reg, b: Reg)
    ensures Complement(a) % 0x100 == Complement(b) % 0x100 <==> Low(Xor(a, b)) == ZERO
  {
    LowByte(a);
    LowByte(b);
    LowFlipped(a, b);
    IntRoundTrip(Low(Flip(a)));
    IntRoundTrip(Low(Flip(b)));
    hide Complement, Flip, Low, Xor, FromInt;
  }

  lemma LowFlipped(a: Reg, b: Reg)
    ensures Low(Flip(a)) == Low(Flip(b)) <==> Low(Xor(a, b)) == ZERO
  {
  }

  lemma Associative(a: Reg, b: Reg, c: Reg)
    ensures Xor(a, Xor(b, c)) == Xor(Xor(a, b), c)
  {
  }

  lemma Commutes(a: Reg, b: Reg)
    ensures Xor(a, b) == Xor(b, a)
  {
  }

  lemma Cancels(h: Reg, a: Reg)
    ensures Xor(Xor(h, a), h) == a
  {
  }

  lemma CommonPart(h: Reg, a: Reg, b: Reg)
    ensures Xor(Xor(h, a), Xor(h, b)) == Xor(a, b)
  {
    hide Xor;
    Associative(Xor(h, a), h, b);
    Cancels(h, a);
  }

  lemma StepParts(a: Reg, b: Reg)
    ensures TableStep(a) == if Odd(a) then Xor(POLY, Half(a)) else Half(a)
    ensures Half(Xor(a, b)) == Xor(Half(a), Half(b)) && Odd(Xor(a, b)) == (Odd(a) != Odd(b))
  {
  }

  lemma StepLinear(a: Reg, b: Reg)
    ensures Xor(TableStep(a), TableStep(b)) == TableStep(Xor(a, b))
  {
    StepParts(a, b);
    StepParts(b, a);
    StepParts(Xor(a, b), ZERO);
    hide TableStep, Xor, Half, Odd;
    var x, y := Half(a), Half(b);
    CommonPart(POLY, x, y);
    Associative(POLY, x, y);
    Associative(x, POLY, y);
    Commutes(x, POLY);
  }

  lemma {:induction false} StepsLinear(a: Reg, b: Reg, n: nat)
    ensures Xor(TableSteps(a, n), TableSteps(b, n)) == TableSteps(Xor(a, b), n)
    decreases n
  {
    hide TableStep, Xor;
    if n > 0 {
      StepLinear(a, b);
      StepsLinear(TableStep(a), TableStep(b), n - 1);
    }
  }

  /** Of the entries of the table, only those of 0 and 0x91 leave the low byte alone. */
  lemma SilentEntries(d: Reg)
    requires Low(d) == d
    ensures Low(TableSteps(d, 8)) == ZERO <==> d == ZERO || d == 0x91
  {
    hide TableStep, Low;
    EightSteps(d);
    SilentEntriesRaw(d);
  }

  lemma SilentEntriesRaw(d: bv16)
    requires Low(d) == d
    ensures Low(TableStep(TableStep(TableStep(TableStep(TableStep(TableStep(TableStep(TableStep(d))))))))) == ZERO
            <==> d == ZERO || d == 0x91
  {
  }

  lemma LowOfXor(s: Reg, a: Reg, b: Reg)
    ensures Xor(Low(Xor(s, a)), Low(Xor(s, b))) == Low(Xor(a, b))
    ensures Low(Low(Xor(a, b))) == Low(Xor(a, b))
  {
  }

  lemma ShortXor(a: Reg, b: Reg)
    requires High(a) == ZERO && High(b) == ZERO
    ensures Low(Xor(a, b)) == Xor(a, b)
  {
  }

  lemma ByteHasNoHigh(b: byte)
    ensures High(FromByte(b)) == ZERO
  {
    hide Load, ByteBits;
    var v := FromByte(b);
    LoadFits(ByteBits(b));
    EightSteps(v);
    HighIsHalf8(ZERO, v);
    ZeroXor(v);
    assert High(ZERO) == ZERO;
  }

  lemma ZeroXor(a: Reg)
    ensures Xor(ZERO, a) == a
  {
  }

  /** Two last bytes leave the low byte of the register alone when they differ by 0, or by 0x91. */
  lemma LastByteDiffers(r: Reg, u: byte, v: byte)
    ensures var d := Xor(FromByte(u), FromByte(v));
      Low(Xor(Register(r, ByteBits(u)), Register(r, ByteBits(v)))) == ZERO <==> d == ZERO || d == 0x91
  {
    hide Xor, Low, High, FromByte, Register, TableSteps, ByteBits;
    var fu, fv := FromByte(u), FromByte(v);
    var iu, iv := Low(Xor(r, fu)), Low(Xor(r, fv));
    ByteIsLookup(r, u);
    ByteIsLookup(r, v);
    CommonPart(High(r), TableSteps(iu, 8), TableSteps(iv, 8));
    StepsLinear(iu, iv, 8);
    LowOfXor(r, fu, fv);
    ByteHasNoHigh(u);
    ByteHasNoHigh(v);
    ShortXor(fu, fv);
    SilentEntries(Low(Xor(fu, fv)));
  }

  /** Messages that differ in their last byte only: the low bytes of their checksums agree exactly
  when that byte's difference is 0x91. */
  lemma LastByteSilent(m: seq<byte>, u: byte, v: byte)
    requires u != v
    ensures Checksum(m + [u]) % 0x100 == Checksum(m + [v]) % 0x100 <==> Xor(FromByte(u), FromByte(v)) == 0x91
  {
    var r := Register(SEED, Bits(m));
    LastByteAdded(m, u);
    LastByteAdded(m, v);
    LastByteDiffers(r, u, v);
    var ru, rv := Register(r, ByteBits(u)), Register(r, ByteBits(v));
    LowBytesAgree(ru, rv);
    TwoByteErrorsDetected(m, [u], [v], []);
    assert m + [u] + [] == m + [u] && m + [v] + [] == m + [v];
    if Xor(FromByte(u), FromByte(v)) == ZERO {
      hide Register, Bits, Complement, ByteBits, FromByte, Xor, Low, High, TableSteps;
      SameXor(FromByte(u), FromByte(v));
      ByteIsLookup(r, u);
      ByteIsLookup(r, v);
    }
    hide Register, Bits, Complement, ByteBits, FromByte, Xor, Low;
  }

  lemma LoadFirst(bit: bool, rest: seq<bool>)
    ensures Load([bit] + rest) == (if bit then 1 else 0) | (Load(rest) << 1)
  {
    assert ([bit] + rest)[1..] == rest;
  }

  lemma ZeroLoads()
    ensures FromByte(0) == ZERO
  {
    hide Join;
    for n := 0 to 8
      invariant Load(Digits(0, n)) == ZERO
    {
      LoadFirst(false, Digits(0, n));
    }
  }

  lemma SilentByteLoads()
    ensures FromByte(0x91) == 0x91
  {
    hide Join;
    LoadFirst(true, Digits(0, 0));
    LoadFirst(false, Digits(1, 1));
    LoadFirst(false, Digits(2, 2));
    LoadFirst(true, Digits(4, 3));
    LoadFirst(false, Digits(9, 4));
    LoadFirst(false, Digits(0x12, 5));
    LoadFirst(false, Digits(0x24, 6));
    LoadFirst(true, Digits(0x48, 7));
  }

  lemma SilentPair()
    ensures Xor(FromByte(0), FromByte(0x91)) == 0x91
  {
    ZeroLoads();
    SilentByteLoads();
    hide FromByte;
    ZeroXor(0x91);
  }

  lemma SameXor(a: Reg, b: Reg)
    requires Xor(a, b) == ZERO
    ensures a == b
  {
  }

  lemma LastByteAdded(m: seq<byte>, u: byte)
    ensures Checksum(m + [u]) == Complement(Register(Register(SEED, Bits(m)), ByteBits(u)))
  {
    hide Complement, ByteBits, Shift;
    BitsAppend(m, [u]);
    assert [u][1..] == [] && Bits([u]) == ByteBits(u) + [] == ByteBits(u);
    RegisterAppend(SEED, Bits(m), ByteBits(u));
  }
}
