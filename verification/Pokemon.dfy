/** The 100-byte party record and its encrypted block (broker/pokemon.py). */
module Pokemon {
  import opened Bytes

  const SECURE_START: nat := 32
  const SECURE_END: nat := 80
  const MAIL_ITEM_MIN: nat := 121
  const MAIL_ITEM_MAX: nat := 132

  /** An exact-length party record; equality is byte for byte. */
  type Mon = raw: seq<byte> | |raw| == 100 witness seq(100, _ => 0)

  const ZERO_MON: Mon := seq(100, _ => 0)

  /** A SHA-256 digest. The hash itself is a parameter wherever it matters. */
  type Digest = d: seq<byte> | |d| == 32 witness seq(32, _ => 0)

  /** The evidence of a commit: the digests of the offered and of the received record. */
  function CommitPayload(offered: Digest, received: Digest): (r: seq<byte>)
    ensures |r| == 64
  {
    var first: seq<byte> := offered;
    first + received
  }

  function NewMon(raw: seq<byte>): (m: Option<Mon>)
    ensures m.Some? <==> |raw| == 100
    ensures m.Some? ==> m.value == raw
  {
    if |raw| == 100 then Some(raw) else None
  }

  // ---- The substructure order

  /** The order table, one letter a part: growth, attacks, effort values, miscellaneous. */
  function Row(i: nat): string
    requires i < 24
  {
    match i
    case 0 => "GAEM"
    case 1 => "GAME"
    case 2 => "GEAM"
    case 3 => "GEMA"
    case 4 => "GMAE"
    case 5 => "GMEA"
    case 6 => "AGEM"
    case 7 => "AGME"
    case 8 => "AEGM"
    case 9 => "AEMG"
    case 10 => "AMGE"
    case 11 => "AMEG"
    case 12 => "EGAM"
    case 13 => "EGMA"
    case 14 => "EAGM"
    case 15 => "EAMG"
    case 16 => "EMGA"
    case 17 => "EMAG"
    case 18 => "MGAE"
    case 19 => "MGEA"
    case 20 => "MAGE"
    case 21 => "MAEG"
    case 22 => "MEGA"
    case _ => "MEAG"
  }

  /** The row of the order table for a personality value. */
  function Order(personality: nat): string
  {
    Row(personality % 24)
  }

  predicate Distinct(s: string)
  {
    forall i, j | 0 <= i < j < |s| :: s[i] != s[j]
  }

  /** Each of the four parts occurs exactly once. */
  predicate IsPermutation(order: string)
  {
    |order| == 4 && Distinct(order) && forall c | c in order :: c in "GAEM"
  }

  function Without(parts: string, k: nat): (r: string)
    requires k < |parts|
    ensures |r| == |parts| - 1
  {
    parts[..k] + parts[k + 1..]
  }

  /** The arrangement with the `x`-th letter first, then the `y`-th and `z`-th of those that remain. */
  function Arrangement(x: nat, y: nat, z: nat): string
    requires x < 4 && y < 3 && z < 2
  {
    var three := Without("GAEM", x);
    var two := Without(three, y);
    ["GAEM"[x], three[y], two[z], two[1 - z]]
  }

  lemma WithoutDistinct(s: string, k: nat)
    requires k < |s| && Distinct(s)
    ensures var r := Without(s, k);
      Distinct(r) && s[k] !in r && forall c | c in r :: c in s
  {}

  lemma ArrangementPermutes(x: nat, y: nat, z: nat)
    requires x < 4 && y < 3 && z < 2
    ensures IsPermutation(Arrangement(x, y, z))
  {
    var three := Without("GAEM", x);
    var two := Without(three, y);
    WithoutDistinct("GAEM", x);
    WithoutDistinct(three, y);
    hide Without;
    var order := Arrangement(x, y, z);
    assert order[2] in two && order[3] in two && order[1] in three;
    assert order[0] in "GAEM";
  }

  lemma Rows0()
    ensures Row(0) == Arrangement(0, 0, 0) && Row(1) == Arrangement(0, 0, 1)
    ensures Row(2) == Arrangement(0, 1, 0) && Row(3) == Arrangement(0, 1, 1)
    ensures Row(4) == Arrangement(0, 2, 0) && Row(5) == Arrangement(0, 2, 1)
  {}

  lemma Rows1()
    ensures Row(6) == Arrangement(1, 0, 0) && Row(7) == Arrangement(1, 0, 1)
    ensures Row(8) == Arrangement(1, 1, 0) && Row(9) == Arrangement(1, 1, 1)
    ensures Row(10) == Arrangement(1, 2, 0) && Row(11) == Arrangement(1, 2, 1)
  {}

  lemma Rows2()
    ensures Row(12) == Arrangement(2, 0, 0) && Row(13) == Arrangement(2, 0, 1)
    ensures Row(14) == Arrangement(2, 1, 0) && Row(15) == Arrangement(2, 1, 1)
    ensures Row(16) == Arrangement(2, 2, 0) && Row(17) == Arrangement(2, 2, 1)
  {}

  lemma Rows3()
    ensures Row(18) == Arrangement(3, 0, 0) && Row(19) == Arrangement(3, 0, 1)
    ensures Row(20) == Arrangement(3, 1, 0) && Row(21) == Arrangement(3, 1, 1)
    ensures Row(22) == Arrangement(3, 2, 0) && Row(23) == Arrangement(3, 2, 1)
  {}

  /** The table is in dictionary order, and each row uses every part once. */
  lemma OrderIsArrangement(personality: nat)
    ensures var i := personality % 24; Order(personality) == Arrangement(i / 6, i % 6 / 2, i % 2)
    ensures IsPermutation(Order(personality))
  {
    hide Row, Arrangement, IsPermutation;
    Rows0();
    Rows1();
    Rows2();
    Rows3();
    var i := personality % 24;
    var x, y, z := i / 6, i % 6 / 2, i % 2;
    assert i == 6 * x + 2 * y + z;
    ArrangementPermutes(x, y, z);
  }

  function Letter(c: char): nat
  {
    if c == 'G' then 0 else if c == 'A' then 1 else if c == 'E' then 2 else 3
  }

  /** The place of an order in the dictionary. */
  function Place(order: string): int
    requires |order| == 4
  {
    var first, second := Letter(order[0]), Letter(order[1]);
    6 * first + 2 * (if first < second then second - 1 else second)
    + (if Letter(order[2]) < Letter(order[3]) then 0 else 1)
  }

  /** A row stands at its place, so no two rows are the same and the 24 rows are all permutations there are. */
  lemma RowsDiffer(i: nat, j: nat)
    requires i < 24 && j < 24
    ensures |Row(i)| == 4 && Place(Row(i)) == i
    ensures Row(i) == Row(j) <==> i == j
  {
    RowPlace(i);
    RowPlace(j);
    hide Row, Place;
  }

  lemma RowPlace(i: nat)
    requires i < 24
    ensures |Row(i)| == 4 && Place(Row(i)) == i
  {}

  // ---- Decryption

  function Personality(m: Mon): u32
  {
    Read32(m, 0)
  }

  /** Personality xor trainer id, as a machine word. */
  function Key(m: Mon): bv32
  {
    XorWord(ReadWord(m, 0), ReadWord(m, 4))
  }

  /** Every little-endian word of `s` xored with the key. */
  function XorWords(s: seq<byte>, key: bv32): (r: seq<byte>)
    ensures |r| == |s|
  {
    if |s| < 4 then s
    else WriteWord(XorWord(ReadWord(s, 0), key)) + XorWords(s[4..], key)
  }

  function Secure(m: Mon): (s: seq<byte>)
    ensures |s| == 48
  {
    m[SECURE_START..SECURE_END]
  }

  function Decrypt(m: Mon): (s: seq<byte>)
    ensures |s| == 48
  {
    XorWords(Secure(m), Key(m))
  }

  /** The word loop over a copy of the block. */
  method DecryptedSecure(m: Mon) returns (secure: seq<byte>)
    ensures secure == Decrypt(m)
  {
    hide XorWord, WriteWord, ReadWord, Key;
    var key := Key(m);
    secure := Secure(m);
    ghost var whole := XorWords(secure, key);
    var offset := 0;
    while offset < |secure|
      invariant offset <= |secure| == 48 && offset % 4 == 0
      invariant whole == secure[..offset] + XorWords(secure[offset..], key)
    {
      var value := XorWord(ReadWord(secure, offset), key);
      XorWordsStep(secure, offset, key);
      ghost var before := secure;
      secure := secure[..offset] + WriteWord(value) + secure[offset + 4..];
      assert secure[offset + 4..] == before[offset + 4..];
      assert secure[..offset + 4] == before[..offset] + WriteWord(value);
      offset := offset + 4;
    }
  }

  lemma XorWordsStep(s: seq<byte>, offset: nat, key: bv32)
    requires offset + 4 <= |s|
    ensures XorWords(s[offset..], key) == WriteWord(XorWord(ReadWord(s, offset), key)) + XorWords(s[offset + 4..], key)
  {
    hide XorWord, WriteWord, Word;
    assert s[offset..][4..] == s[offset + 4..];
  }

  lemma XorTwice(v: bv32, key: bv32)
    ensures XorWord(XorWord(v, key), key) == v
  {}

  lemma XorWordsCons(w: seq<byte>, rest: seq<byte>, key: bv32)
    requires |w| == 4
    ensures XorWords(w + rest, key) == WriteWord(XorWord(ReadWord(w, 0), key)) + XorWords(rest, key)
  {
    hide XorWord, WriteWord, Word;
    assert (w + rest)[4..] == rest;
  }

  /** Encryption and decryption are the same operation, and each undoes the other. */
  lemma {:induction false} XorWordsTwice(s: seq<byte>, key: bv32)
    ensures XorWords(XorWords(s, key), key) == s
    decreases |s|
  {
    hide XorWord, WriteWord, ReadWord;
    if |s| >= 4 {
      var v := ReadWord(s, 0);
      var w := WriteWord(XorWord(v, key));
      ReadWriteWord(XorWord(v, key));
      XorTwice(v, key);
      WriteReadWord(s, 0);
      XorWordsTwice(s[4..], key);
      XorWordsCons(w, XorWords(s[4..], key), key);
      assert s == s[0..0 + 4] + s[4..];
    }
  }

  // ---- Decryption, byte by byte

  lemma KeyBytes(m: Mon, i: nat)
    requires i < 4
    ensures WriteWord(Key(m))[i] == XorByte(m[i], m[4 + i])
  {
    hide XorByte, WriteWord, ReadWord, XorWord;
    WriteWordXor(ReadWord(m, 0), ReadWord(m, 4));
    WriteReadWord(m, 0);
    WriteReadWord(m, 4);
    assert m[0..4][i] == m[i] && m[4..8][i] == m[4 + i];
  }

  lemma {:induction false} XorWordsByte(s: seq<byte>, key: bv32, i: nat)
    requires |s| % 4 == 0 && i < |s|
    ensures XorWords(s, key)[i] == XorByte(s[i], WriteWord(key)[i % 4])
    decreases |s|
  {
    hide XorByte, WriteWord, ReadWord, XorWord;
    if i < 4 {
      WriteWordXor(ReadWord(s, 0), key);
      WriteReadWord(s, 0);
      assert s[0..4][i] == s[i];
    } else {
      XorWordsByte(s[4..], key, i - 4);
      assert (i - 4) % 4 == i % 4;
    }
  }

  /** Each byte of the block is xored with a byte of the personality and a byte of the trainer id. */
  lemma DecryptsBytes(m: Mon, i: nat)
    requires i < 48
    ensures Decrypt(m)[i] == XorByte(m[32 + i], XorByte(m[i % 4], m[4 + i % 4]))
  {
    hide XorByte, Key, XorWords, WriteWord;
    KeyBytes(m, i % 4);
    XorWordsByte(Secure(m), Key(m), i);
  }

  // ---- What the decrypted block says

  function GrowthOffset(order: string): nat
    requires 'G' in order
  {
    if order[0] == 'G' then 0 else 12 + GrowthOffset(order[1..])
  }

  lemma {:induction false} GrowthWithin(order: string)
    requires 'G' in order
    ensures GrowthOffset(order) + 12 <= 12 * |order|
  {
    if order[0] != 'G' {
      GrowthWithin(order[1..]);
    }
  }

  function HeldItem(m: Mon): (item: nat)
    ensures item < 0x1_0000
  {
    var order := Order(Personality(m));
    assert 'G' in order && |order| == 4 by {
      OrderIsArrangement(Personality(m));
      PermutationHasAll(order);
    }
    GrowthWithin(order);
    Read16(Decrypt(m), GrowthOffset(order) + 2)
  }

  function Sum16(s: seq<byte>): nat
  {
    if |s| < 2 then 0 else Read16(s, 0) + Sum16(s[2..])
  }

  predicate ChecksumValid(m: Mon)
  {
    Sum16(Decrypt(m)) % 0x1_0000 == Read16(m, 28)
  }

  predicate HoldsMail(m: Mon)
  {
    MAIL_ITEM_MIN <= HeldItem(m) <= MAIL_ITEM_MAX
  }

  lemma PermutationHasAll(order: string)
    requires IsPermutation(order)
    ensures 'G' in order && 'A' in order && 'E' in order && 'M' in order
  {
    assert order[0] in "GAEM" && order[1] in "GAEM" && order[2] in "GAEM" && order[3] in "GAEM";
  }

  // ---- The round trip

  type Block = s: seq<byte> | |s| == 12 witness [0, 0, 0, 0, 0, 0, 0, 0, 0, 0, 0, 0]

  datatype Parts = Parts(growth: Block, attacks: Block, effort: Block, misc: Block)

  function Part(parts: Parts, c: char): Block
  {
    if c == 'G' then parts.growth
    else if c == 'A' then parts.attacks
    else if c == 'E' then parts.effort
    else parts.misc
  }

  function Layout(order: string, parts: Parts): (s: seq<byte>)
    ensures |s| == 12 * |order|
  {
    if order == [] then [] else Part(parts, order[0]) + Layout(order[1..], parts)
  }

  /**
   `m` carries these four parts: laid out in the order of its personality, each byte xored with one
   byte of the personality and one of the trainer id.
   */
  predicate Carries(m: Mon, parts: Parts)
  {
    var block := Layout(Order(Read32(m, 0)), parts);
    |block| == 48 && forall i | 0 <= i < 48 :: m[32 + i] == XorByte(block[i], XorByte(m[i % 4], m[4 + i % 4]))
  }

  /** A record carries exactly what its decrypted block says. */
  lemma CarriesIff(m: Mon, parts: Parts)
    ensures Carries(m, parts) <==> Decrypt(m) == Layout(Order(Read32(m, 0)), parts)
  {
    hide XorByte, Decrypt, Layout, Order;
    var block, d := Layout(Order(Read32(m, 0)), parts), Decrypt(m);
    if Carries(m, parts) {
      forall i | 0 <= i < 48
        ensures d[i] == block[i]
      {
        DecryptsBytes(m, i);
        XorBack(block[i], XorByte(m[i % 4], m[4 + i % 4]));
      }
    }
    if d == block {
      forall i | 0 <= i < 48
        ensures m[32 + i] == XorByte(block[i], XorByte(m[i % 4], m[4 + i % 4]))
      {
        DecryptsBytes(m, i);
        XorBack(m[32 + i], XorByte(m[i % 4], m[4 + i % 4]));
      }
    }
  }

  lemma {:induction false} GrowthInLayout(order: string, parts: Parts)
    requires 'G' in order
    ensures var at := GrowthOffset(order);
      at + 12 <= 12 * |order| && Layout(order, parts)[at..at + 12] == parts.growth
  {
    if order[0] == 'G' {
      assert Layout(order, parts)[0..12] == Part(parts, 'G');
    } else {
      var at := GrowthOffset(order[1..]);
      GrowthInLayout(order[1..], parts);
      assert Layout(order, parts)[12..] == Layout(order[1..], parts);
      assert Layout(order, parts)[12..][at..at + 12] == Layout(order, parts)[12 + at..12 + at + 12];
    }
  }

  lemma {:induction false} Sum16Concat(a: seq<byte>, b: seq<byte>)
    requires |a| % 2 == 0
    ensures Sum16(a + b) == Sum16(a) + Sum16(b)
    decreases |a|
  {
    if a == [] {
      assert a + b == b;
    } else {
      assert (a + b)[2..] == a[2..] + b && Read16(a + b, 0) == Read16(a, 0);
      Sum16Concat(a[2..], b);
    }
  }

  function PartSum(order: string, parts: Parts): nat
  {
    if order == [] then 0 else Sum16(Part(parts, order[0])) + PartSum(order[1..], parts)
  }

  lemma {:induction false} LayoutSum(order: string, parts: Parts)
    ensures Sum16(Layout(order, parts)) == PartSum(order, parts)
  {
    if order != [] {
      Sum16Concat(Part(parts, order[0]), Layout(order[1..], parts));
      LayoutSum(order[1..], parts);
    }
  }

  lemma PermutationSum(order: string, parts: Parts)
    requires IsPermutation(order)
    ensures PartSum(order, parts) == PartSum("GAEM", parts)
  {
    FourSum(order, parts);
    FourSum("GAEM", parts);
    FourLetters(order);
    hide *;
  }

  lemma FourLetters(order: string)
    requires IsPermutation(order)
    ensures forall i | 0 <= i < 4 :: order[i] == 'G' || order[i] == 'A' || order[i] == 'E' || order[i] == 'M'
    ensures order[0] != order[1] && order[0] != order[2] && order[0] != order[3]
    ensures order[1] != order[2] && order[1] != order[3] && order[2] != order[3]
  {
    assert forall i | 0 <= i < 4 :: order[i] in order;
  }

  lemma FourSum(order: string, parts: Parts)
    requires |order| == 4
    ensures PartSum(order, parts) == Sum16(Part(parts, order[0])) + Sum16(Part(parts, order[1]))
      + Sum16(Part(parts, order[2])) + Sum16(Part(parts, order[3]))
  {
    hide Sum16, Part;
    var s1, s2, s3 := order[1..], order[2..], order[3..];
    assert s1[1..] == s2 && s2[1..] == s3 && s3[1..] == [];
    assert PartSum(s3, parts) == Sum16(Part(parts, order[3]));
    assert PartSum(s2, parts) == Sum16(Part(parts, order[2])) + PartSum(s3, parts);
  }

  /** The six little-endian words of a part. */
  function SixWords(b: Block): nat
  {
    Read16(b, 0) + Read16(b, 2) + Read16(b, 4) + Read16(b, 6) + Read16(b, 8) + Read16(b, 10)
  }

  lemma Sum16Block(b: Block)
    ensures Sum16(b) == SixWords(b)
  {
    hide Read16;
    var s1, s2, s3, s4, s5, s6 := b[2..], b[4..], b[6..], b[8..], b[10..], b[12..];
    assert s1[2..] == s2 && s2[2..] == s3 && s3[2..] == s4 && s4[2..] == s5 && s5[2..] == s6 == [];
    assert Sum16(s5) == Read16(s5, 0) + Sum16(s6) && Sum16(s4) == Read16(s4, 0) + Sum16(s5);
    assert Sum16(s3) == Read16(s3, 0) + Sum16(s4) && Sum16(s2) == Read16(s2, 0) + Sum16(s3);
    assert Sum16(s1) == Read16(s1, 0) + Sum16(s2);
    WordsWithin(b);
  }

  lemma WordsWithin(b: Block)
    ensures Read16(b[2..], 0) == Read16(b, 2) && Read16(b[4..], 0) == Read16(b, 4) && Read16(b[6..], 0) == Read16(b, 6)
    ensures Read16(b[8..], 0) == Read16(b, 8) && Read16(b[10..], 0) == Read16(b, 10)
  {}

  /** What the checksum of a record is compared with, whatever the order of the parts. */
  function ContentSum(parts: Parts): nat
  {
    (SixWords(parts.growth) + SixWords(parts.attacks) + SixWords(parts.effort) + SixWords(parts.misc)) % 0x1_0000
  }

  /**
   For every personality, trainer id and parts: decryption gives back the layout, the held item is
   the second field of the growth part, items 121 to 132 are mail, and the checksum does not depend
   on the order of the parts.
   */
  lemma SecureBlockRoundTrip(m: Mon, parts: Parts)
    requires Carries(m, parts)
    ensures Decrypt(m) == Layout(Order(Read32(m, 0)), parts)
    ensures HeldItem(m) == Read16(parts.growth, 2)
    ensures HoldsMail(m) <==> 121 <= Read16(parts.growth, 2) <= 132
    ensures ChecksumValid(m) <==> ContentSum(parts) == Read16(m, 28)
  {
    hide Key, XorWords, Order, Sum16, PartSum, Row, IsPermutation, Layout, Read16, HeldItem, SixWords, Decrypt, Carries;
    var order := Order(Personality(m));
    CarriesIff(m, parts);
    OrderIsArrangement(Personality(m));
    HeldItemInLayout(m, parts);
    LayoutSum(order, parts);
    PermutationSum(order, parts);
    FourSum("GAEM", parts);
    Sum16Block(parts.growth);
    Sum16Block(parts.attacks);
    Sum16Block(parts.effort);
    Sum16Block(parts.misc);
  }

  lemma HeldItemInLayout(m: Mon, parts: Parts)
    requires Decrypt(m) == Layout(Order(Personality(m)), parts) && IsPermutation(Order(Personality(m)))
    ensures HeldItem(m) == Read16(parts.growth, 2)
  {
    hide Key, XorWords, Order, Row, Decrypt, IsPermutation, Layout, Personality;
    var order := Order(Personality(m));
    var block := Layout(order, parts);
    PermutationHasAll(order);
    GrowthInLayout(order, parts);
    var at := GrowthOffset(order);
    assert block[at..at + 12][2] == block[at + 2] && block[at..at + 12][3] == block[at + 3];
  }

  /** The block is determined by what is stored: two contents never share an encryption. */
  lemma CarriesUnique(m: Mon, parts: Parts, parts': Parts)
    requires Carries(m, parts) && Carries(m, parts')
    ensures parts == parts'
  {
    hide Carries, Decrypt, Order, Row, IsPermutation, Layout, Arrangement;
    var order := Order(Read32(m, 0));
    CarriesIff(m, parts);
    CarriesIff(m, parts');
    OrderIsArrangement(Read32(m, 0));
    PermutationHasAll(order);
    LayoutInjective(order, parts, parts');
    assert Part(parts, 'G') == Part(parts', 'G') && Part(parts, 'A') == Part(parts', 'A');
    assert Part(parts, 'E') == Part(parts', 'E') && Part(parts, 'M') == Part(parts', 'M');
  }

  /** Every record carries a content: whatever its 100 bytes, the mail test looks at the item of that content. */
  lemma EveryRecordCarries(m: Mon) returns (parts: Parts)
    ensures Carries(m, parts)
  {
    var order, d := Order(Read32(m, 0)), Decrypt(m);
    OrderIsArrangement(Read32(m, 0));
    FourLetters(order);
    PermutationHasAll(order);
    hide Order, Row, Arrangement, Decrypt, Carries, IsPermutation;
    parts := Parts(Piece(order, d, 'G'), Piece(order, d, 'A'), Piece(order, d, 'E'), Piece(order, d, 'M'));
    PiecesLaidOut(order, d, parts);
    CarriesIff(m, parts);
  }

  function Piece(order: string, d: seq<byte>, c: char): Block
    requires |order| == 4 && |d| == 48
  {
    if order[0] == c then d[..12] else if order[1] == c then d[12..24] else if order[2] == c then d[24..36] else d[36..]
  }

  lemma PiecesLaidOut(order: string, d: seq<byte>, parts: Parts)
    requires |order| == 4 && |d| == 48 && forall i | 0 <= i < 4 :: Part(parts, order[i]) == Piece(order, d, order[i])
    requires order[0] != order[1] && order[0] != order[2] && order[0] != order[3]
    requires order[1] != order[2] && order[1] != order[3] && order[2] != order[3]
    ensures Layout(order, parts) == d
  {
    hide Part;
    var s1, s2, s3 := order[1..], order[2..], order[3..];
    assert s1[1..] == s2 && s2[1..] == s3 && s3[1..] == [];
    assert Layout(s3, parts) == Part(parts, order[3]) + [];
    assert Layout(s2, parts) == Part(parts, order[2]) + Layout(s3, parts);
    assert Layout(s1, parts) == Part(parts, order[1]) + Layout(s2, parts);
    assert d == d[..12] + (d[12..24] + (d[24..36] + d[36..]));
  }

  lemma {:induction false} LayoutInjective(order: string, parts: Parts, parts': Parts)
    requires Layout(order, parts) == Layout(order, parts')
    ensures forall c | c in order :: Part(parts, c) == Part(parts', c)
  {
    if order != [] {
      assert Layout(order, parts)[..12] == Part(parts, order[0])
        && Layout(order, parts)[12..] == Layout(order[1..], parts);
      assert Layout(order, parts')[..12] == Part(parts', order[0])
        && Layout(order, parts')[12..] == Layout(order[1..], parts');
      LayoutInjective(order[1..], parts, parts');
      assert order == [order[0]] + order[1..];
    }
  }
}
