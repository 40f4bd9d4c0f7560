/**
 Polynomials over GF(2) as bit sequences, highest power first, and division by the generator
 polynomial of clause 3.2.9 of IEEE 802.3. Addition and subtraction are both `Xor`.
 */
module Polynomial {

  type Poly = seq<bool>

  /** The exponents of the generator polynomial G(x). */
  predicate Exponent(e: int)
  {
    || e == 32 || e == 26 || e == 23 || e == 22 || e == 16 || e == 12 || e == 11 || e == 10
    || e == 8 || e == 7 || e == 5 || e == 4 || e == 2 || e == 1 || e == 0
  }

  /** G(x), from x^32 down to x^0. */
  function Generator(): (r: Poly)
    ensures |r| == 33 && r[0]
  {
    seq(33, i => Exponent(32 - i))
  }

  /** G(x) without its leading term. */
  function Tail(): (r: Poly)
    ensures |r| == 32 && r[31]
  {
    Generator()[1..]
  }

  function Zeros(n: nat): (r: Poly)
    ensures |r| == n
  {
    seq(n, _ => false)
  }

  function Ones(n: nat): (r: Poly)
    ensures |r| == n
  {
    seq(n, _ => true)
  }

  function Xor(a: Poly, b: Poly): (r: Poly)
    requires |a| == |b|
    ensures |r| == |a|
  {
    seq(|a|, i requires 0 <= i < |a| => a[i] != b[i])
  }

  function Scale(c: bool, p: Poly): (r: Poly)
    ensures |r| == |p|
  {
    if c then p else Zeros(|p|)
  }

  /** The product q(x) * G(x), by schoolbook multiplication. */
  function TimesGenerator(q: Poly): (r: Poly)
    ensures |r| == |q| + 32
  {
    if q == [] then Zeros(32)
    else
      var n := |q| - 1;
      Xor(TimesGenerator(q[..n]) + [false], Zeros(n) + Scale(q[n], Generator()))
  }

  /** r(x), of degree below 32, is what remains of p(x) after division by G(x). */
  ghost predicate IsRemainder(p: Poly, r: Poly)
  {
    |r| == 32 && |p| >= 32 && exists q: Poly :: HasQuotient(p, q, r)
  }

  ghost predicate HasQuotient(p: Poly, q: Poly, r: Poly)
    requires |r| == 32
  {
    |p| == |q| + 32 && p == Xor(TimesGenerator(q), Zeros(|q|) + r)
  }

  // ---- Uniqueness of the remainder

  lemma {:induction false} ProductPrefix(q: Poly, q': Poly, i: nat)
    requires |q| == |q'| && i < |q| && q[..i] == q'[..i]
    ensures TimesGenerator(q)[i] == TimesGenerator(q')[i] <==> q[i] == q'[i]
    decreases |q|
  {
    var n := |q| - 1;
    if i == n {
      assert Generator()[0];
    } else {
      assert q[..n][..i] == q[..i] && q'[..n][..i] == q'[..i];
      ProductPrefix(q[..n], q'[..n], i);
    }
  }

  lemma {:induction false} QuotientPrefix(p: Poly, q: Poly, q': Poly, r: Poly, r': Poly, i: nat)
    requires |r| == |r'| == 32 && HasQuotient(p, q, r) && HasQuotient(p, q', r')
    requires i <= |q|
    ensures q[..i] == q'[..i]
  {
    if i > 0 {
      QuotientPrefix(p, q, q', r, r', i - 1);
      ProductPrefix(q, q', i - 1);
      assert p[i - 1] == TimesGenerator(q)[i - 1] == TimesGenerator(q')[i - 1];
      assert q[..i] == q[..i - 1] + [q[i - 1]] && q'[..i] == q'[..i - 1] + [q'[i - 1]];
    }
  }

  lemma RemainderUnique(p: Poly, r: Poly, r': Poly)
    requires IsRemainder(p, r) && IsRemainder(p, r')
    ensures r == r'
  {
    var q :| HasQuotient(p, q, r);
    var q' :| HasQuotient(p, q', r');
    QuotientPrefix(p, q, q', r, r', |q|);
    assert q[..|q|] == q && q'[..|q|] == q';
    forall j | 0 <= j < 32
      ensures r[j] == r'[j]
    {
      assert p[|q| + j] == (TimesGenerator(q)[|q| + j] != r[j]);
      assert p[|q| + j] == (TimesGenerator(q)[|q| + j] != r'[j]);
    }
  }

  // ---- Long division, one message bit at a time

  /** The remainder register after one more message bit. */
  function Step(r: Poly, m: bool): (r': Poly)
    requires |r| == 32
    ensures |r'| == 32
  {
    Xor(r[1..] + [false], Scale(r[0] != m, Tail()))
  }

  function Divide(r: Poly, m: seq<bool>): (r': Poly)
    requires |r| == 32
    ensures |r'| == 32
    decreases |m|
  {
    if m == [] then r else Divide(Step(r, m[0]), m[1..])
  }

  /**
   What clause 3.2.9 divides: the message times x^32, its first 32 bits complemented.
   (For a message shorter than 32 bits the complement reaches into the appended zeros.)
   */
  function Dividend(m: seq<bool>): (p: Poly)
    ensures |p| == |m| + 32
  {
    Xor(m + Zeros(32), Ones(32) + Zeros(|m|))
  }

  lemma {:induction false} DivideConcat(r: Poly, a: seq<bool>, b: seq<bool>)
    requires |r| == 32
    ensures Divide(r, a + b) == Divide(Divide(r, a), b)
    decreases |a|
  {
    if a == [] {
      assert a + b == b;
    } else {
      assert (a + b)[1..] == a[1..] + b;
      DivideConcat(Step(r, a[0]), a[1..], b);
    }
  }

  lemma XorAt(a: Poly, b: Poly, i: nat)
    requires |a| == |b| && i < |a|
    ensures Xor(a, b)[i] == (a[i] != b[i])
  {}

  lemma DividendAt(m: seq<bool>, i: nat)
    requires i < |m| + 32
    ensures Dividend(m)[i] == ((i < |m| && m[i]) != (i < 32))
  {}

  lemma StepAt(r: Poly, b: bool, j: nat)
    requires |r| == 32 && j < 32
    ensures Step(r, b)[j] == ((j < 31 && r[j + 1]) != (r[0] != b && Generator()[j + 1]))
  {
    XorAt(r[1..] + [false], Scale(r[0] != b, Tail()), j);
    hide Xor, Generator;
  }

  lemma ProductPush(q: Poly, c: bool)
    ensures TimesGenerator(q + [c]) == Xor(TimesGenerator(q) + [false], Zeros(|q|) + Scale(c, Generator()))
  {
    hide Xor, Generator, Zeros, Scale;
    assert (q + [c])[..|q|] == q;
  }

  lemma ProductAt(q: Poly, c: bool, i: nat)
    requires i < |q| + 33
    ensures TimesGenerator(q + [c])[i] ==
      ((i < |q| + 32 && TimesGenerator(q)[i]) != (i >= |q| && c && Generator()[i - |q|]))
  {
    hide Xor, Generator, TimesGenerator;
    ProductPush(q, c);
    XorAt(TimesGenerator(q) + [false], Zeros(|q|) + Scale(c, Generator()), i);
  }

  lemma QuotientAt(p: Poly, q: Poly, r: Poly, i: nat)
    requires |r| == 32 && HasQuotient(p, q, r) && i < |q| + 32
    ensures |p| == |q| + 32 && p[i] == (TimesGenerator(q)[i] != (i >= |q| && r[i - |q|]))
  {
    XorAt(TimesGenerator(q), Zeros(|q|) + r, i);
    hide Xor, TimesGenerator;
  }

  /** The same up to the last quotient bit, at it, and behind it, where the remainder is. */
  lemma QuotientBit(m: seq<bool>, b: bool, q: Poly, r: Poly, i: nat)
    requires |r| == 32 && HasQuotient(Dividend(m), q, r) && i < |q| + 33
    ensures |m| == |q| && Dividend(m + [b])[i] ==
      (TimesGenerator(q + [r[0] != b])[i] != (i > |q| && Step(r, b)[i - |q| - 1]))
  {
    hide *;
    QuotientAt(Dividend(m), q, r, 0);
    DividendAt(m + [b], i);
    ProductAt(q, r[0] != b, i);
    if i < |q| + 32 {
      QuotientAt(Dividend(m), q, r, i);
      DividendAt(m, i);
    }
    if i == |q| {
      LeadingOne();
    } else if i > |q| {
      StepAt(r, b, i - |q| - 1);
    }
  }

  lemma LeadingOne()
    ensures Generator()[0]
  {}

  /** One step of the register is one step of the long division. */
  lemma QuotientStep(m: seq<bool>, b: bool, q: Poly, r: Poly)
    requires |r| == 32 && HasQuotient(Dividend(m), q, r)
    ensures HasQuotient(Dividend(m + [b]), q + [r[0] != b], Step(r, b))
  {
    hide Dividend, TimesGenerator, Step, Xor;
    QuotientBit(m, b, q, r, 0);
    var n, q', r' := |q|, q + [r[0] != b], Step(r, b);
    var left, right := Dividend(m + [b]), Xor(TimesGenerator(q'), Zeros(n + 1) + r');
    forall i | 0 <= i < n + 33
      ensures left[i] == right[i]
    {
      QuotientBit(m, b, q, r, i);
      XorAt(TimesGenerator(q'), Zeros(n + 1) + r', i);
    }
  }

  lemma {:induction false} DivideIsQuotient(m: seq<bool>) returns (q: Poly)
    ensures HasQuotient(Dividend(m), q, Divide(Ones(32), m))
    decreases |m|
  {
    if m == [] {
      q := [];
    } else {
      var n := |m| - 1;
      var r := Divide(Ones(32), m[..n]);
      q := DivideIsQuotient(m[..n]);
      QuotientStep(m[..n], m[n], q, r);
      q := q + [r[0] != m[n]];
      assert m == m[..n] + [m[n]];
      DivideConcat(Ones(32), m[..n], [m[n]]);
      assert [m[n]][1..] == [];
      assert Divide(r, [m[n]]) == Step(r, m[n]);
    }
  }

  /** The bit-serial register holds the remainder of the dividend, and nothing else is one. */
  lemma DivideIsRemainder(m: seq<bool>, r: Poly)
    ensures IsRemainder(Dividend(m), r) <==> r == Divide(Ones(32), m)
  {
    var q := DivideIsQuotient(m);
    var r0 := Divide(Ones(32), m);
    assert IsRemainder(Dividend(m), r0);
    if IsRemainder(Dividend(m), r) {
      RemainderUnique(Dividend(m), r, r0);
    }
  }

  // ---- Error detection

  lemma StepInjective(a: Poly, b: Poly, m: bool)
    requires |a| == |b| == 32
    requires Step(a, m) == Step(b, m)
    ensures a == b
  {
    assert Tail()[31];
    assert Step(a, m)[31] == (a[0] != m) && Step(b, m)[31] == (b[0] != m);
    forall i | 0 < i < 32
      ensures a[i] == b[i]
    {
      assert Step(a, m)[i - 1] == (a[i] != Scale(a[0] != m, Tail())[i - 1]);
      assert Step(b, m)[i - 1] == (b[i] != Scale(b[0] != m, Tail())[i - 1]);
    }
  }

  /** Equal data never merges two different registers. */
  lemma {:induction false} DivideInjective(a: Poly, b: Poly, m: seq<bool>)
    requires |a| == |b| == 32
    requires Divide(a, m) == Divide(b, m)
    ensures a == b
    decreases |m|
  {
    if m != [] {
      DivideInjective(Step(a, m[0]), Step(b, m[0]), m[1..]);
      StepInjective(a, b, m[0]);
    }
  }

  /** Later message bits wait in the register until their turn. */
  lemma StepAbsorbs(r: Poly, m: bool, rest: Poly)
    requires |r| == 32 && |rest| == 31
    ensures Step(Xor(r, [m] + rest), false) == Xor(Step(r, m), rest + [false])
  {
    var x := Xor(r, [m] + rest);
    assert x[0] == (r[0] != m);
    forall i | 0 <= i < 32
      ensures Step(x, false)[i] == Xor(Step(r, m), rest + [false])[i]
    {
      assert Step(x, false)[i] == ((x[1..] + [false])[i] != Scale(x[0], Tail())[i]);
      assert Step(r, m)[i] == ((r[1..] + [false])[i] != Scale(x[0], Tail())[i]);
      if i < 31 {
        assert x[i + 1] == (r[i + 1] != rest[i]);
      }
    }
  }

  /** Dividing up to 32 bits is xoring them into the register and then dividing zeros. */
  lemma {:induction false} DivideAbsorbs(r: Poly, m: seq<bool>)
    requires |r| == 32 && |m| <= 32
    ensures Divide(r, m) == Divide(Xor(r, m + Zeros(32 - |m|)), Zeros(|m|))
    decreases |m|
  {
    var x := Xor(r, m + Zeros(32 - |m|));
    if m == [] {
      assert x == r;
    } else {
      var rest := m[1..] + Zeros(32 - |m|);
      assert m + Zeros(32 - |m|) == [m[0]] + rest;
      StepAbsorbs(r, m[0], rest);
      assert rest + [false] == m[1..] + Zeros(32 - |m[1..]|);
      DivideAbsorbs(Step(r, m[0]), m[1..]);
      assert Zeros(|m|)[1..] == Zeros(|m| - 1);
    }
  }

  /** Two different windows of at most 32 bits leave two different registers. */
  lemma WindowInjective(r: Poly, m: seq<bool>, m': seq<bool>)
    requires |r| == 32 && |m| == |m'| <= 32
    requires Divide(r, m) == Divide(r, m')
    ensures m == m'
  {
    hide Divide;
    var z := Zeros(32 - |m|);
    DivideAbsorbs(r, m);
    DivideAbsorbs(r, m');
    DivideInjective(Xor(r, m + z), Xor(r, m' + z), Zeros(|m|));
    forall i | 0 <= i < |m|
      ensures m[i] == m'[i]
    {
      assert Xor(r, m + z)[i] == (r[i] != m[i]) && Xor(r, m' + z)[i] == (r[i] != m'[i]);
    }
  }

  /** `a` and `b` differ, and only inside one window of 32 consecutive bits. */
  ghost predicate Burst(a: seq<bool>, b: seq<bool>)
  {
    |a| == |b| && a != b && exists lo: nat, hi: nat :: Window(a, b, lo, hi)
  }

  ghost predicate Window(a: seq<bool>, b: seq<bool>, lo: nat, hi: nat)
    requires |a| == |b|
  {
    lo <= hi <= |a| && hi <= lo + 32 && a[..lo] == b[..lo] && a[hi..] == b[hi..]
  }

  lemma DivideWindow(r: Poly, a: seq<bool>, lo: nat, hi: nat)
    requires |r| == 32 && lo <= hi <= |a|
    ensures Divide(r, a) == Divide(Divide(Divide(r, a[..lo]), a[lo..hi]), a[hi..])
  {
    assert a == a[..lo] + (a[lo..hi] + a[hi..]);
    DivideConcat(r, a[..lo], a[lo..hi] + a[hi..]);
    DivideConcat(Divide(r, a[..lo]), a[lo..hi], a[hi..]);
  }

  lemma WindowKept(r: Poly, a: seq<bool>, b: seq<bool>, lo: nat, hi: nat)
    requires |r| == 32 && |a| == |b| && Window(a, b, lo, hi)
    requires Divide(r, a) == Divide(r, b)
    ensures a[lo..hi] == b[lo..hi]
  {
    var s := Divide(r, a[..lo]);
    DivideWindow(r, a, lo, hi);
    DivideWindow(r, b, lo, hi);
    DivideInjective(Divide(s, a[lo..hi]), Divide(s, b[lo..hi]), a[hi..]);
    WindowInjective(s, a[lo..hi], b[lo..hi]);
  }

  /** Every burst of at most 32 bits changes the register, wherever it lies. */
  lemma BurstChangesRegister(r: Poly, a: seq<bool>, b: seq<bool>)
    requires |r| == 32 && Burst(a, b)
    ensures Divide(r, a) != Divide(r, b)
  {
    var lo: nat, hi: nat :| Window(a, b, lo, hi);
    assert a == a[..lo] + a[lo..hi] + a[hi..];
    assert b == b[..lo] + b[lo..hi] + b[hi..];
    if Divide(r, a) == Divide(r, b) {
      WindowKept(r, a, b, lo, hi);
      assert false;
    }
  }

  // ---- The complemented remainder as a trailer

  function Complement(r: Poly): (r': Poly)
    ensures |r'| == |r|
  {
    Xor(r, Ones(|r|))
  }

  lemma ComplementTwice(r: Poly)
    ensures Complement(Complement(r)) == r
  {}

  lemma OnlyComplement(r: Poly, m: Poly)
    requires |r| == |m|
    ensures Xor(r, m) == Ones(|r|) <==> m == Complement(r)
  {
    if Xor(r, m) == Ones(|r|) {
      forall i | 0 <= i < |r|
        ensures m[i] == Complement(r)[i]
      {
        assert Xor(r, m)[i];
      }
    }
  }

  /** The register after every intact message and trailer, whatever they carry. */
  function Residue(): Poly
  {
    Divide(Ones(32), Zeros(32))
  }

  lemma ResidueIffComplement(r: Poly, m: Poly)
    requires |r| == |m| == 32
    ensures Divide(r, m) == Residue() <==> m == Complement(r)
  {
    DivideAbsorbs(r, m);
    assert m + Zeros(0) == m;
    OnlyComplement(r, m);
    if Divide(Xor(r, m), Zeros(32)) == Residue() {
      DivideInjective(Xor(r, m), Ones(32), Zeros(32));
    }
  }
}
