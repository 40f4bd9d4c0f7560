/** Bytes, little-endian numbers and chunk lists, as both sides of the link use them. */
module Bytes {

  type byte = x: int | 0 <= x < 256

  /** A 32-bit unsigned number. */
  type u32 = x: int | 0 <= x < 0x1_0000_0000

  datatype Option<+T> = None | Some(value: T)

  datatype Result<+T, +E> = Ok(value: T) | Err(error: E)

  // ---- Chunks

  /** The concatenation of a list of chunks. */
  function Flatten<T>(chunks: seq<seq<T>>): (r: seq<T>)
  {
    if chunks == [] then [] else chunks[0] + Flatten(chunks[1..])
  }

  lemma {:induction false} FlattenAppend<T>(a: seq<seq<T>>, b: seq<seq<T>>)
    ensures Flatten(a + b) == Flatten(a) + Flatten(b)
    decreases |a|
  {
    if a == [] {
      assert a + b == b;
    } else {
      assert (a + b)[0] == a[0] && (a + b)[1..] == a[1..] + b;
      FlattenAppend(a[1..], b);
      assert Flatten(a + b) == a[0] + (Flatten(a[1..]) + Flatten(b));
    }
  }

  // ---- Little-endian numbers

  function Write16(n: nat): (r: seq<byte>)
    ensures |r| == 2
  {
    [n % 256, n / 256 % 256]
  }

  function Read16(s: seq<byte>, at: nat): (n: nat)
    requires at + 2 <= |s|
    ensures n < 0x1_0000
  {
    var a: nat, b: nat := s[at], s[at + 1];
    a + 256 * b
  }

  function Write32(n: nat): (r: seq<byte>)
    ensures |r| == 4
  {
    [n % 256, n / 256 % 256, n / 256 / 256 % 256, n / 256 / 256 / 256 % 256]
  }

  function Read32(s: seq<byte>, at: nat): (n: u32)
    requires at + 4 <= |s|
  {
    var a: nat, b: nat, c: nat, d: nat := s[at], s[at + 1], s[at + 2], s[at + 3];
    a + 256 * (b + 256 * (c + 256 * d))
  }

  lemma Read16Write16(n: nat)
    requires n < 0x1_0000
    ensures Read16(Write16(n), 0) == n
  {}

  lemma Read32Write32(n: u32)
    ensures Read32(Write32(n), 0) == n
  {}

  lemma Write32Read32(s: seq<byte>, at: nat)
    requires at + 4 <= |s|
    ensures Write32(Read32(s, at)) == s[at..at + 4]
  {
    var n0: nat, n1: nat, n2: nat, d: nat := s[at], s[at + 1], s[at + 2], s[at + 3];
    var c := n2 + 256 * d;
    var b := n1 + 256 * c;
    var n := n0 + 256 * b;
    assert n / 256 == b && b / 256 == c && c / 256 == d;
  }

  // ---- Little-endian machine words

  function Machine(b: byte): bv8
  {
    b as bv8
  }

  /** A byte as a machine register sees it. */
  function Wide(b: byte): bv32
  {
    Machine(b) as bv32
  }

  function LowByte(v: bv32): byte
  {
    (v & 0xff) as bv8 as byte
  }

  function WriteWord(v: bv32): (r: seq<byte>)
    ensures |r| == 4
  {
    [LowByte(v), LowByte(v >> 8), LowByte(v >> 16), LowByte(v >> 24)]
  }

  function Word(b0: byte, b1: byte, b2: byte, b3: byte): bv32
  {
    Wide(b0) | (Wide(b1) << 8) | (Wide(b2) << 16) | (Wide(b3) << 24)
  }

  function ReadWord(s: seq<byte>, at: nat): bv32
    requires at + 4 <= |s|
  {
    Word(s[at], s[at + 1], s[at + 2], s[at + 3])
  }

  lemma MachineRoundTrip(x: bv8)
    ensures Machine(x as byte) == x
  {}

  lemma WideByte(x: bv8)
    ensures Wide(x as byte) == x as bv32
  {
    MachineRoundTrip(x);
    hide Machine;
  }

  lemma Doubled(x: bv8, low: bool)
    requires x as int < 128
    ensures ((x << 1) | (if low then 1 else 0)) as int == 2 * (x as int) + (if low then 1 else 0)
  {}

  /** Every number below 256 is the value of some machine byte. */
  lemma {:induction false} MachineByte(n: byte) returns (x: bv8)
    ensures x as int == n
  {
    if n == 0 {
      x := 0;
    } else {
      var y := MachineByte(n / 2);
      Doubled(y, n % 2 == 1);
      x := (y << 1) | (if n % 2 == 1 then 1 else 0);
    }
  }

  lemma ByteRoundTrip(b: byte)
    ensures Machine(b) as byte == b
  {
    var x := MachineByte(b);
    MachineRoundTrip(x);
    hide Machine;
  }

  lemma JoinSplit(v: bv32)
    ensures (v & 0xff) | (((v >> 8) & 0xff) << 8) | (((v >> 16) & 0xff) << 16) | (((v >> 24) & 0xff) << 24) == v
  {}

  lemma WideLowByte(v: bv32)
    ensures Wide(LowByte(v)) == v & 0xff
  {
    WideByte((v & 0xff) as bv8);
    assert ((v & 0xff) as bv8) as bv32 == v & 0xff;
    hide Wide;
  }

  lemma ReadWriteWord(v: bv32)
    ensures ReadWord(WriteWord(v), 0) == v
  {
    WideLowByte(v);
    WideLowByte(v >> 8);
    WideLowByte(v >> 16);
    WideLowByte(v >> 24);
    JoinSplit(v);
    hide Wide, LowByte;
  }

  lemma SplitJoin(b0: bv8, b1: bv8, b2: bv8, b3: bv8)
    ensures var v := b0 as bv32 | (b1 as bv32 << 8) | (b2 as bv32 << 16) | (b3 as bv32 << 24);
      (v & 0xff) as bv8 == b0 && ((v >> 8) & 0xff) as bv8 == b1 &&
      ((v >> 16) & 0xff) as bv8 == b2 && ((v >> 24) & 0xff) as bv8 == b3
  {}

  lemma WriteReadWord(s: seq<byte>, at: nat)
    requires at + 4 <= |s|
    ensures WriteWord(ReadWord(s, at)) == s[at..at + 4]
  {
    SplitJoin(Machine(s[at]), Machine(s[at + 1]), Machine(s[at + 2]), Machine(s[at + 3]));
    ByteRoundTrip(s[at]);
    ByteRoundTrip(s[at + 1]);
    ByteRoundTrip(s[at + 2]);
    ByteRoundTrip(s[at + 3]);
    hide Machine;
  }

  /** The bitwise exclusive or of two bytes. */
  function XorByte(a: byte, b: byte): byte
  {
    (Machine(a) ^ Machine(b)) as byte
  }

  lemma XorMachine(x: bv8, y: bv8)
    ensures XorByte(x as byte, y as byte) == (x ^ y) as byte
  {
    MachineRoundTrip(x);
    MachineRoundTrip(y);
    hide Machine;
  }

  lemma XorTwiceMachine(x: bv8, y: bv8)
    ensures x ^ y ^ y == x
  {}

  lemma XorAgain(x: bv8, y: bv8)
    ensures XorByte((x ^ y) as byte, y as byte) == x as byte
  {
    XorMachine(x ^ y, y);
    XorTwiceMachine(x, y);
    hide XorByte;
  }

  lemma XorBack(a: byte, k: byte)
    ensures XorByte(XorByte(a, k), k) == a
  {
    hide XorByte, Machine;
    XorMachine(Machine(a), Machine(k));
    XorAgain(Machine(a), Machine(k));
    ByteRoundTrip(a);
    ByteRoundTrip(k);
  }

  function XorWord(v: bv32, w: bv32): bv32
  {
    v ^ w
  }

  lemma BitsXor0(v: bv32, w: bv32)
    ensures ((v ^ w) & 0xff) as bv8 == (v & 0xff) as bv8 ^ (w & 0xff) as bv8
  {}

  lemma WriteWordXor0(v: bv32, w: bv32)
    ensures WriteWord(XorWord(v, w))[0] == XorByte(WriteWord(v)[0], WriteWord(w)[0])
  {
    hide XorByte;
    BitsXor0(v, w);
    XorMachine((v & 0xff) as bv8, (w & 0xff) as bv8);
  }

  lemma BitsXor1(v: bv32, w: bv32)
    ensures (((v ^ w) >> 8) & 0xff) as bv8 == ((v >> 8) & 0xff) as bv8 ^ ((w >> 8) & 0xff) as bv8
  {}

  lemma WriteWordXor1(v: bv32, w: bv32)
    ensures WriteWord(XorWord(v, w))[1] == XorByte(WriteWord(v)[1], WriteWord(w)[1])
  {
    hide XorByte;
    BitsXor1(v, w);
    XorMachine(((v >> 8) & 0xff) as bv8, ((w >> 8) & 0xff) as bv8);
  }

  lemma BitsXor2(v: bv32, w: bv32)
    ensures (((v ^ w) >> 16) & 0xff) as bv8 == ((v >> 16) & 0xff) as bv8 ^ ((w >> 16) & 0xff) as bv8
  {}

  lemma WriteWordXor2(v: bv32, w: bv32)
    ensures WriteWord(XorWord(v, w))[2] == XorByte(WriteWord(v)[2], WriteWord(w)[2])
  {
    hide XorByte;
    BitsXor2(v, w);
    XorMachine(((v >> 16) & 0xff) as bv8, ((w >> 16) & 0xff) as bv8);
  }

  lemma BitsXor3(v: bv32, w: bv32)
    ensures (((v ^ w) >> 24) & 0xff) as bv8 == ((v >> 24) & 0xff) as bv8 ^ ((w >> 24) & 0xff) as bv8
  {}

  lemma WriteWordXor3(v: bv32, w: bv32)
    ensures WriteWord(XorWord(v, w))[3] == XorByte(WriteWord(v)[3], WriteWord(w)[3])
  {
    hide XorByte;
    BitsXor3(v, w);
    XorMachine(((v >> 24) & 0xff) as bv8, ((w >> 24) & 0xff) as bv8);
  }

  /** Words are xored byte by byte. */
  lemma WriteWordXor(v: bv32, w: bv32)
    ensures forall i | 0 <= i < 4 :: WriteWord(XorWord(v, w))[i] == XorByte(WriteWord(v)[i], WriteWord(w)[i])
  {
    hide XorByte, XorWord, WriteWord;
    WriteWordXor0(v, w);
    WriteWordXor1(v, w);
    WriteWordXor2(v, w);
    WriteWordXor3(v, w);
  }
}
