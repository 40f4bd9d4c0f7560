/**
 The 32-bit CRC that protects every frame: the register loop of the firmware, the polynomial
 division it stands for (clause 3.2.9 of IEEE 802.3), and what it detects.
 */
module Crc {
  import opened Bytes
  import opened Polynomial

  const INITIAL: bv32 := 0xffffffff

  // ---- The register loop

  /** One turn of the inner loop: the mask is all ones for an odd register, else zero. */
  function Shift(c: bv32): bv32
  {
    (c >> 1) ^ (0xedb88320 & (0 - (c & 1)))
  }

  function ShiftN(c: bv32, k: nat): bv32
    decreases k, c
  {
    if k == 0 then c else ShiftN(Shift(c), k - 1)
  }

  function Absorb(c: bv32, b: byte): bv32
  {
    c ^ Wide(b)
  }

  /** The register after the octets of `s`, started from `c`. */
  function Register(c: bv32, s: seq<byte>): bv32
    decreases |s|
  {
    if s == [] then c else Register(ShiftN(Absorb(c, s[0]), 8), s[1..])
  }

  function Crc32(s: seq<byte>): bv32
  {
    !Register(INITIAL, s)
  }

  /** The firmware's bit loop. */
  method ComputeCrc32(bytes: seq<byte>) returns (r: bv32)
    ensures r == Crc32(bytes)
  {
    hide Shift, Wide;
    var crc := INITIAL;
    for i := 0 to |bytes|
      invariant Register(crc, bytes[i..]) == Register(INITIAL, bytes)
    {
      ghost var start := Absorb(crc, bytes[i]);
      crc := crc ^ Wide(bytes[i]);
      for bit := 0 to 8
        invariant ShiftN(crc, 8 - bit) == ShiftN(start, 8)
      {
        var mask: bv32 := 0 - (crc & 1);
        TurnIsShift(crc);
        crc := (crc >> 1) ^ (0xedb88320 & mask);
      }
      assert bytes[i..][1..] == bytes[i + 1..];
    }
    r := !crc;
  }

  lemma TurnIsShift(c: bv32)
    ensures (c >> 1) ^ (0xedb88320 & (0 - (c & 1))) == Shift(c)
  {}

  /** The checksum composes over concatenation: the register is the only state between two pieces. */
  lemma {:induction false} RegisterConcat(c: bv32, a: seq<byte>, b: seq<byte>)
    ensures Register(c, a + b) == Register(Register(c, a), b)
    decreases |a|
  {
    hide Shift, Absorb, ShiftN;
    if a == [] {
      assert a + b == b;
    } else {
      assert (a + b)[1..] == a[1..] + b;
      RegisterConcat(ShiftN(Absorb(c, a[0]), 8), a[1..], b);
    }
  }

  // ---- Words as bit sequences

  predicate Low(c: bv32)
  {
    c & 1 == 1
  }

  function Half(c: bv32): bv32
  {
    c >> 1
  }

  function Plus(c: bv32, d: bv32): bv32
  {
    c ^ d
  }

  /** The low `k` bits of `c`, least significant first. */
  function Bits(c: bv32, k: nat): (r: seq<bool>)
    ensures |r| == k
    decreases k, c
  {
    if k == 0 then [] else [Low(c)] + Bits(Half(c), k - 1)
  }

  /** A message as the bit sequence of clause 3.2.9: each octet least significant bit first. */
  function MessageBits(s: seq<byte>): (r: seq<bool>)
    ensures |r| == 8 * |s|
  {
    if s == [] then [] else Bits(Wide(s[0]), 8) + MessageBits(s[1..])
  }

  lemma {:induction false} MessageBitsConcat(a: seq<byte>, b: seq<byte>)
    ensures MessageBits(a + b) == MessageBits(a) + MessageBits(b)
  {
    if a == [] {
      assert a + b == b;
    } else {
      assert (a + b)[1..] == a[1..] + b;
      MessageBitsConcat(a[1..], b);
    }
  }

  function Right(c: bv32, k: nat): bv32
    decreases k, c
  {
    if k == 0 then c else Right(Half(c), k - 1)
  }

  function Octet(c: bv32): bv32
  {
    c >> 8
  }

  lemma EightHalves(c: bv32)
    ensures Half(Half(Half(Half(Half(Half(Half(Half(c)))))))) == Octet(c)
  {}

  lemma RightEight(c: bv32, k: nat)
    requires k >= 8
    ensures Right(c, k) == Right(Octet(c), k - 8)
  {
    EightHalves(c);
    hide Half, Octet;
    var d := Half(Half(Half(Half(c))));
    assert Right(c, k) == Right(Half(Half(c)), k - 2) == Right(d, k - 4);
    assert Right(d, k - 4) == Right(Half(Half(d)), k - 6) == Right(Half(Half(Half(Half(d)))), k - 8);
  }

  lemma FourOctets(c: bv32)
    ensures Octet(Octet(Octet(Octet(c)))) == 0
  {}

  lemma RightAll(c: bv32, k: nat)
    requires k == 32
    ensures Right(c, k) == 0
  {
    FourOctets(c);
    hide Half, Octet;
    RightEight(c, k);
    RightEight(Octet(c), k - 8);
    RightEight(Octet(Octet(c)), k - 16);
    RightEight(Octet(Octet(Octet(c))), k - 24);
  }

  lemma {:induction false} BitsSplit(c: bv32, j: nat, k: nat)
    ensures Bits(c, j + k) == Bits(c, j) + Bits(Right(c, j), k)
    decreases j
  {
    hide Half, Low;
    if j > 0 {
      BitsSplit(Half(c), j - 1, k);
      assert [Low(c)] + (Bits(Half(c), j - 1) + Bits(Right(c, j), k)) == Bits(c, j) + Bits(Right(c, j), k);
    }
  }

  lemma LowPlus(c: bv32, d: bv32)
    ensures Low(Plus(c, d)) == (Low(c) != Low(d))
  {}

  lemma HalfPlus(c: bv32, d: bv32)
    ensures Half(Plus(c, d)) == Plus(Half(c), Half(d))
  {}

  lemma {:induction false} BitsPlus(c: bv32, d: bv32, k: nat)
    ensures Bits(Plus(c, d), k) == Xor(Bits(c, k), Bits(d, k))
    decreases k
  {
    hide Half, Low, Plus;
    if k > 0 {
      LowPlus(c, d);
      HalfPlus(c, d);
      BitsPlus(Half(c), Half(d), k - 1);
    }
  }

  lemma ZeroHalf()
    ensures Half(0) == 0 && !Low(0)
  {}

  lemma {:induction false} ZeroBits(k: nat)
    ensures Bits(0, k) == Zeros(k)
  {
    ZeroHalf();
    hide Half, Low;
    if k > 0 {
      ZeroBits(k - 1);
    }
  }

  lemma BitsShifted(c: bv32, k: nat)
    requires k == 32
    ensures Bits(Half(c), k) == Bits(c, k)[1..] + [false]
  {
    BitsSplit(Half(c), k - 1, 1);
    RightAll(c, k);
    ZeroBits(1);
    hide Half, Low;
    assert Bits(c, k)[1..] == Bits(Half(c), k - 1);
  }

  lemma {:induction false} BitsInjective(c: bv32, d: bv32, k: nat)
    requires Bits(c, k) == Bits(d, k) && Right(c, k) == Right(d, k)
    ensures c == d
    decreases k
  {
    hide Half, Low;
    if k > 0 {
      assert Bits(c, k)[1..] == Bits(Half(c), k - 1) && Bits(d, k)[1..] == Bits(Half(d), k - 1);
      BitsInjective(Half(c), Half(d), k - 1);
      assert Low(c) == Bits(c, k)[0] == Bits(d, k)[0] == Low(d);
      HalfLowInjective(c, d);
    }
  }

  lemma HalfLow(c: bv32)
    ensures c == (Half(c) << 1) | (if Low(c) then 1 else 0)
  {}

  lemma HalfLowInjective(c: bv32, d: bv32)
    requires Half(c) == Half(d) && Low(c) == Low(d)
    ensures c == d
  {
    HalfLow(c);
    HalfLow(d);
    hide Half, Low;
  }

  // ---- Four bits at a time

  predicate Bit(c: bv32, mask: bv32)
  {
    c & mask == mask
  }

  function Nibble(c: bv32): seq<bool>
  {
    [Bit(c, 1), Bit(c, 2), Bit(c, 4), Bit(c, 8)]
  }

  function Upper(c: bv32): bv32
  {
    c >> 4
  }

  lemma NibbleBits(c: bv32)
    ensures Nibble(c) == [Low(c), Low(Half(c)), Low(Half(Half(c))), Low(Half(Half(Half(c))))]
  {
    FirstBit(c);
    SecondBit(c);
    ThirdBit(c);
    FourthBit(c);
    hide Half, Low, Bit;
  }

  lemma FirstBit(c: bv32)
    ensures Low(c) == Bit(c, 1)
  {}

  lemma SecondBit(c: bv32)
    ensures Low(Half(c)) == Bit(c, 2)
  {}

  lemma ThirdBit(c: bv32)
    ensures Low(Half(Half(c))) == Bit(c, 4)
  {}

  lemma FourthBit(c: bv32)
    ensures Low(Half(Half(Half(c)))) == Bit(c, 8)
  {}

  lemma FourHalves(c: bv32)
    ensures Half(Half(Half(Half(c)))) == Upper(c)
  {}

  lemma BitsHead(c: bv32, k: nat)
    requires k > 0
    ensures Bits(c, k) == [Low(c)] + Bits(Half(c), k - 1)
  {}

  lemma FourBits(c: bv32, k: nat)
    requires k >= 4
    ensures Bits(c, k) == Nibble(c) + Bits(Upper(c), k - 4)
  {
    NibbleBits(c);
    FourHalves(c);
    hide *;
    BitsHead(c, k);
    BitsHead(Half(c), k - 1);
    BitsHead(Half(Half(c)), k - 2);
    BitsHead(Half(Half(Half(c))), k - 3);
  }

  lemma PolynomialNibbles()
    ensures Nibble(0xedb88320) == [false, false, false, false] && Upper(0xedb88320) == 0xedb8832
    ensures Nibble(0xedb8832) == [false, true, false, false] && Upper(0xedb8832) == 0xedb883
    ensures Nibble(0xedb883) == [true, true, false, false] && Upper(0xedb883) == 0xedb88
    ensures Nibble(0xedb88) == [false, false, false, true] && Upper(0xedb88) == 0xedb8
    ensures Nibble(0xedb8) == [false, false, false, true] && Upper(0xedb8) == 0xedb
    ensures Nibble(0xedb) == [true, true, false, true] && Upper(0xedb) == 0xed
    ensures Nibble(0xed) == [true, false, true, true] && Upper(0xed) == 0xe
    ensures Nibble(0xe) == [false, true, true, true] && Upper(0xe) == 0x0
  {}

  lemma PolynomialBits()
    ensures Bits(0xedb88320, 32) == Tail()
  {
    PolynomialNibbles();
    hide Nibble, Upper, Bits;
    FourBits(0xedb88320, 32);
    FourBits(0xedb8832, 28);
    FourBits(0xedb883, 24);
    FourBits(0xedb88, 20);
    FourBits(0xedb8, 16);
    FourBits(0xedb, 12);
    FourBits(0xed, 8);
    FourBits(0xe, 4);
    assert Bits(0, 0) == [];
  }

  // ---- The register loop is long division

  function Mask(c: bv32): bv32
  {
    if Low(c) then 0xedb88320 else 0
  }

  lemma ShiftParts(c: bv32)
    ensures Shift(c) == Plus(Half(c), Mask(c))
  {}

  lemma BitsLength(c: bv32)
    ensures |Bits(c, 32)| == 32 && Bits(c, 32)[0] == Low(c)
  {}

  lemma ShiftIsStep(c: bv32)
    ensures Bits(Shift(c), 32) == Step(Bits(c, 32), false)
  {
    ShiftParts(c);
    BitsPlus(Half(c), Mask(c), 32);
    BitsShifted(c, 32);
    BitsLength(c);
    PolynomialBits();
    ZeroBits(32);
    hide Shift, Plus, Half, Low, Bits, Tail;
  }

  lemma {:induction false} ShiftNIsDivide(c: bv32, k: nat)
    ensures Bits(ShiftN(c, k), 32) == Divide(Bits(c, 32), Zeros(k))
    decreases k
  {
    if k > 0 {
      ShiftIsStep(c);
      ShiftNIsDivide(Shift(c), k - 1);
      hide Shift, Bits, Step;
      assert Zeros(k)[1..] == Zeros(k - 1);
    }
  }

  lemma AbsorbIsPlus(c: bv32, b: byte)
    ensures Absorb(c, b) == Plus(c, Wide(b))
  {}

  lemma WideOctet(b: byte)
    ensures Octet(Wide(b)) == 0
  {
    hide Machine;
  }

  lemma WideBits(b: byte, j: nat, k: nat)
    requires j == 8
    ensures Bits(Wide(b), j + k) == Bits(Wide(b), j) + Zeros(k)
  {
    BitsSplit(Wide(b), j, k);
    RightEight(Wide(b), j);
    WideOctet(b);
    ZeroBits(k);
    hide Wide, Octet, Bits;
  }

  lemma OctetIsDivide(c: bv32, b: byte)
    ensures Bits(ShiftN(Absorb(c, b), 8), 32) == Divide(Bits(c, 32), Bits(Wide(b), 8))
  {
    hide Wide, Plus, Bits, Absorb, ShiftN, Divide, Xor;
    AbsorbIsPlus(c, b);
    BitsPlus(c, Wide(b), 32);
    WideBits(b, 8, 24);
    ShiftNIsDivide(Absorb(c, b), 8);
    DivideAbsorbs(Bits(c, 32), Bits(Wide(b), 8));
  }

  /** The octet loop of the firmware is the bit-serial division of the message bits. */
  lemma {:induction false} RegisterIsDivide(c: bv32, s: seq<byte>)
    ensures Bits(Register(c, s), 32) == Divide(Bits(c, 32), MessageBits(s))
    decreases |s|
  {
    hide Wide, Bits, Absorb, ShiftN, Step;
    if s != [] {
      var d := ShiftN(Absorb(c, s[0]), 8);
      OctetIsDivide(c, s[0]);
      RegisterIsDivide(d, s[1..]);
      DivideConcat(Bits(c, 32), Bits(Wide(s[0]), 8), MessageBits(s[1..]));
    }
  }

  lemma OnesNibbles()
    ensures Nibble(0xffffffff) == [true, true, true, true] && Upper(0xffffffff) == 0xfffffff
    ensures Nibble(0xfffffff) == [true, true, true, true] && Upper(0xfffffff) == 0xffffff
    ensures Nibble(0xffffff) == [true, true, true, true] && Upper(0xffffff) == 0xfffff
    ensures Nibble(0xfffff) == [true, true, true, true] && Upper(0xfffff) == 0xffff
    ensures Nibble(0xffff) == [true, true, true, true] && Upper(0xffff) == 0xfff
    ensures Nibble(0xfff) == [true, true, true, true] && Upper(0xfff) == 0xff
    ensures Nibble(0xff) == [true, true, true, true] && Upper(0xff) == 0xf
    ensures Nibble(0xf) == [true, true, true, true] && Upper(0xf) == 0
  {}

  lemma InitialBits()
    ensures Bits(INITIAL, 32) == Ones(32)
  {
    OnesNibbles();
    hide Nibble, Upper, Bits;
    FourBits(0xffffffff, 32);
    FourBits(0xfffffff, 28);
    FourBits(0xffffff, 24);
    FourBits(0xfffff, 20);
    FourBits(0xffff, 16);
    FourBits(0xfff, 12);
    FourBits(0xff, 8);
    FourBits(0xf, 4);
    assert Bits(0, 0) == [];
  }

  lemma ComplementIsPlus(c: bv32)
    ensures !c == Plus(c, INITIAL)
  {}

  lemma ComplementBits(c: bv32)
    ensures Bits(!c, 32) == Xor(Bits(c, 32), Ones(32))
  {
    ComplementIsPlus(c);
    BitsPlus(c, INITIAL, 32);
    InitialBits();
    hide Plus, Bits;
  }

  lemma CrcBits(s: seq<byte>)
    ensures Bits(Crc32(s), 32) == Complement(Divide(Ones(32), MessageBits(s)))
  {
    RegisterIsDivide(INITIAL, s);
    InitialBits();
    ComplementBits(Register(INITIAL, s));
    hide Bits, Register, Divide, Xor;
  }

  /**
   For every byte string the checksum is the complemented remainder that clause 3.2.9 defines, and
   no other word is.
   */
  lemma CrcIsRemainder(s: seq<byte>, v: bv32)
    ensures IsRemainder(Dividend(MessageBits(s)), Complement(Bits(v, 32))) <==> v == Crc32(s)
  {
    var r := Divide(Ones(32), MessageBits(s));
    CrcBits(s);
    ComplementTwice(r);
    ComplementTwice(Bits(v, 32));
    DivideIsRemainder(MessageBits(s), Complement(Bits(v, 32)));
    WordInjective(v, Crc32(s));
    hide Bits, Crc32, Divide, IsRemainder, Complement, Dividend;
  }

  lemma WordInjective(v: bv32, w: bv32)
    ensures Bits(v, 32) == Bits(w, 32) ==> v == w
  {
    if Bits(v, 32) == Bits(w, 32) {
      RightAll(v, 32);
      RightAll(w, 32);
      BitsInjective(v, w, 32);
    }
  }

  // ---- The trailer

  function Lowest(v: bv32): bv32
  {
    v & 0xff
  }

  lemma LowestNibbles(v: bv32)
    ensures Nibble(Lowest(v)) == Nibble(v) && Nibble(Upper(Lowest(v))) == Nibble(Upper(v))
  {}

  lemma WideLowest(v: bv32)
    ensures Wide(LowByte(v)) == Lowest(v)
  {
    WideLowByte(v);
    hide Wide, LowByte;
  }

  lemma UpperTwice(v: bv32)
    ensures Upper(Upper(v)) == Octet(v)
  {}

  lemma OctetBits(v: bv32, k: nat)
    requires k >= 8
    ensures Bits(v, k) == Bits(Wide(LowByte(v)), 8) + Bits(Octet(v), k - 8)
  {
    hide *;
    WideLowest(v);
    LowestNibbles(v);
    UpperTwice(v);
    var w := Lowest(v);
    FourBits(v, k);
    FourBits(Upper(v), k - 4);
    FourBits(w, 8);
    FourBits(Upper(w), 4);
    NoBits(Upper(Upper(w)));
  }

  lemma NoBits(v: bv32)
    ensures Bits(v, 0) == []
  {}

  lemma WordOctets(v: bv32)
    ensures WriteWord(v) == [LowByte(v), LowByte(Octet(v)), LowByte(Octet(Octet(v))), LowByte(Octet(Octet(Octet(v))))]
  {
    OctetShifts(v);
    hide LowByte, Octet;
  }

  lemma OctetShifts(v: bv32)
    ensures Octet(v) == v >> 8 && Octet(Octet(v)) == v >> 16 && Octet(Octet(Octet(v))) == v >> 24
  {}

  /** Written little endian, a word's octets carry its bits in register order. */
  lemma TrailerBits(v: bv32)
    ensures MessageBits(WriteWord(v)) == Bits(v, 32)
  {
    WordOctets(v);
    hide Octet, Bits, Wide, LowByte, WriteWord;
    var w := WriteWord(v);
    var o1, o2, o3 := Octet(v), Octet(Octet(v)), Octet(Octet(Octet(v)));
    OctetBits(v, 32);
    OctetBits(o1, 24);
    OctetBits(o2, 16);
    OctetBits(o3, 8);
    NoBits(Octet(o3));
    assert w[1..] == [w[1], w[2], w[3]] && w[2..] == [w[2], w[3]] && w[3..] == [w[3]];
    assert MessageBits(w[3..]) == Bits(Wide(w[3]), 8) + MessageBits([]);
    assert MessageBits(w[2..]) == Bits(Wide(w[2]), 8) + MessageBits(w[3..]);
    assert MessageBits(w[1..]) == Bits(Wide(w[1]), 8) + MessageBits(w[2..]);
  }

  /** The receiver's comparison and the residue test over body and trailer are the same test. */
  lemma ResidueIffTrailer(body: seq<byte>, v: bv32)
    ensures Divide(Ones(32), MessageBits(body + WriteWord(v))) == Residue() <==> v == Crc32(body)
  {
    hide Bits, WriteWord, Crc32, Divide, Complement, Residue, MessageBits;
    MessageBitsConcat(body, WriteWord(v));
    DivideConcat(Ones(32), MessageBits(body), MessageBits(WriteWord(v)));
    TrailerBits(v);
    CrcBits(body);
    ResidueIffComplement(Divide(Ones(32), MessageBits(body)), Bits(v, 32));
    WordInjective(v, Crc32(body));
  }

  /** No burst of at most 32 bits over body and trailer leaves the trailer correct. */
  lemma BurstDetected(body: seq<byte>, v: bv32, body': seq<byte>, v': bv32)
    requires v == Crc32(body)
    requires Burst(MessageBits(body + WriteWord(v)), MessageBits(body' + WriteWord(v')))
    ensures v' != Crc32(body')
  {
    hide Crc32, Divide, WriteWord, Burst, Residue, MessageBits;
    ResidueIffTrailer(body, v);
    ResidueIffTrailer(body', v');
    BurstChangesRegister(Ones(32), MessageBits(body + WriteWord(v)), MessageBits(body' + WriteWord(v')));
  }

  // ---- Bursts of bytes

  lemma WideInjective(b: byte, c: byte)
    requires Wide(b) == Wide(c)
    ensures b == c
  {
    ByteRoundTrip(b);
    ByteRoundTrip(c);
    SameMachine(Machine(b), Machine(c));
    hide Machine;
  }

  lemma SameMachine(x: bv8, y: bv8)
    requires x as bv32 == y as bv32
    ensures x == y
  {
    assert (x as bv32) as bv8 == x && (y as bv32) as bv8 == y;
  }

  lemma OctetBitsInjective(b: byte, c: byte, k: nat)
    requires k == 8 && Bits(Wide(b), k) == Bits(Wide(c), k)
    ensures b == c
  {
    hide Wide, Bits, Right, Octet;
    RightEight(Wide(b), k);
    RightEight(Wide(c), k);
    WideOctet(b);
    WideOctet(c);
    BitsInjective(Wide(b), Wide(c), k);
    WideInjective(b, c);
  }

  lemma {:induction false} MessageBitsInjective(a: seq<byte>, b: seq<byte>)
    requires |a| == |b| && MessageBits(a) == MessageBits(b)
    ensures a == b
    decreases |a|
  {
    hide Wide, Bits;
    if a != [] {
      assert MessageBits(a)[..8] == Bits(Wide(a[0]), 8) && MessageBits(b)[..8] == Bits(Wide(b[0]), 8);
      assert MessageBits(a)[8..] == MessageBits(a[1..]) && MessageBits(b)[8..] == MessageBits(b[1..]);
      MessageBitsInjective(a[1..], b[1..]);
      OctetBitsInjective(a[0], b[0], 8);
      assert a == [a[0]] + a[1..] && b == [b[0]] + b[1..];
    }
  }

  lemma BitsAround(s: seq<byte>, i: nat, j: nat)
    requires i <= j <= |s|
    ensures MessageBits(s)[..8 * i] == MessageBits(s[..i]) && MessageBits(s)[8 * j..] == MessageBits(s[j..])
  {
    hide MessageBits;
    assert s == s[..i] + s[i..] == s[..j] + s[j..];
    MessageBitsConcat(s[..i], s[i..]);
    MessageBitsConcat(s[..j], s[j..]);
  }

  /** Different bytes inside one window of four make a burst of at most 32 bits. */
  lemma FourBytesAreBurst(e: seq<byte>, e': seq<byte>, i: nat)
    requires |e| == |e'| && e != e' && i + 4 <= |e| && e[..i] == e'[..i] && e[i + 4..] == e'[i + 4..]
    ensures Burst(MessageBits(e), MessageBits(e'))
  {
    BitsAround(e, i, i + 4);
    BitsAround(e', i, i + 4);
    if MessageBits(e) == MessageBits(e') {
      MessageBitsInjective(e, e');
    }
    hide MessageBits;
    assert Window(MessageBits(e), MessageBits(e'), 8 * i, 8 * (i + 4));
  }
}
