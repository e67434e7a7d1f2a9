/** The CRC as the remainder of a division of polynomials over GF(2). A polynomial is written as its
    coefficients, the highest power first. */
module CrcDivision {
  import opened Crc32

  /** The powers of the CRC-32 polynomial (RFC 2083, section 3.4). */
  predicate IsPower(e: int) {
    e in {32, 26, 23, 22, 16, 12, 11, 10, 8, 7, 5, 4, 2, 1, 0}
  }

  /** The coefficients from that of x^e down. */
  function Coefficients(e: int): (c: seq<bool>)
    requires e >= -1
    ensures |c| == e + 1
    decreases e + 1
  {
    if e < 0 then [] else [IsPower(e)] + Coefficients(e - 1)
  }

  function Generator(): (g: seq<bool>)
    ensures |g| == 33
  {
    Coefficients(32)
  }

  /** The generator times x^n, or nothing. */
  function Copy(taken: bool, n: nat): (p: seq<bool>)
    ensures |p| == n + 33
  {
    if taken then Generator() + Repeat(false, n) else Repeat(false, n + 33)
  }

  /** A polynomial of less than `|q|` powers times the generator: shifted copies, added up. */
  function Times(q: seq<bool>): (p: seq<bool>)
    ensures |p| == |q| + 32
  {
    if q == [] then Repeat(false, 32)
    else Xor(Copy(q[0], |q| - 1), [false] + Times(q[1..]))
  }

  /** The message times x^32, with a register added to its first 32 coefficients. */
  function Dividend(start: Word, bits: seq<bool>): (p: seq<bool>)
    ensures |p| == |bits| + 32
  {
    Xor(bits + Repeat(false, 32), start + Repeat(false, |bits|))
  }

  /** `p` is `q` times the generator and `r` over. */
  predicate Divides(p: seq<bool>, q: seq<bool>, r: Word) {
    |p| == |q| + 32 && p == Xor(Times(q), Repeat(false, |q|) + r)
  }

  // ---------- The coefficients of the generator ----------

  function Unit(b: bool): nat {
    if b then 1 else 0
  }

  lemma {:induction false} FourCoefficients(e: int)
    requires e >= -1
    ensures NumberOf(Coefficients(e + 4))
         == Unit(IsPower(e + 4)) + 2 * Unit(IsPower(e + 3)) + 4 * Unit(IsPower(e + 2)) + 8 * Unit(IsPower(e + 1))
            + 16 * NumberOf(Coefficients(e))
  {
    NumberOfCoefficients(e + 1);
    NumberOfCoefficients(e + 2);
    NumberOfCoefficients(e + 3);
    NumberOfCoefficients(e + 4);
  }

  lemma {:induction false} NumberOfCoefficients(e: int)
    requires e >= 0
    ensures NumberOf(Coefficients(e)) == Unit(IsPower(e)) + 2 * NumberOf(Coefficients(e - 1))
  {
    assert Coefficients(e)[1..] == Coefficients(e - 1);
  }

  lemma {:induction false} CoefficientsNumber(e: int)
    requires e == 31
    ensures NumberOf(Coefficients(e)) == 0xEDB8_8320
  {
    FourCoefficients(e - 4);
    FourCoefficients(e - 8);
    FourCoefficients(e - 12);
    FourCoefficients(e - 16);
    FourCoefficients(e - 20);
    FourCoefficients(e - 24);
    FourCoefficients(e - 28);
    FourCoefficients(e - 32);
  }

  /** The constant of the source holds the coefficients below x^32. */
  lemma {:induction false} GeneratorIs()
    ensures Generator() == [true] + Polynomial
  {
    CoefficientsNumber(31);
    PowerOf32();
    NumberOfBits(0xEDB8_8320, 32);
    NumberInjective(Coefficients(31), Polynomial);
  }

  // ---------- Dividing ----------

  lemma {:induction false} DividendAt(start: Word, bits: seq<bool>, p: seq<bool>, i: nat)
    requires p == Dividend(start, bits) && i < |p|
    ensures p[i] == ((i < |bits| && bits[i]) != (i < 32 && start[i]))
  {
  }

  lemma {:induction false} CopyAt(taken: bool, n: nat, i: nat)
    requires i < n + 33
    ensures Copy(taken, n)[i] == (taken && (i == 0 || (i < 33 && Polynomial[i - 1])))
  {
    GeneratorIs();
  }

  /** One step of the register takes the leading coefficient off the dividend. */
  lemma {:induction false} DividendStep(crc: Word, bits: seq<bool>, p: seq<bool>, next: Word, later: seq<bool>,
                                        tapped: bool)
    requires bits != [] && tapped == (crc[0] != bits[0]) && next == Step(crc, bits[0])
    requires p == Dividend(crc, bits) && later == Dividend(next, bits[1..])
    ensures p == Xor(Copy(tapped, |bits| - 1), [false] + later)
  {
    forall i: nat | i < |p| ensures p[i] == (Copy(tapped, |bits| - 1)[i] != ([false] + later)[i]) {
      DividendStepAt(crc, bits, p, next, later, tapped, i);
    }
  }

  lemma {:induction false} DividendStepAt(crc: Word, bits: seq<bool>, p: seq<bool>, next: Word, later: seq<bool>,
                                          tapped: bool, i: nat)
    requires bits != [] && tapped == (crc[0] != bits[0]) && next == Step(crc, bits[0])
    requires p == Dividend(crc, bits) && later == Dividend(next, bits[1..]) && i < |p|
    ensures p[i] == (Copy(tapped, |bits| - 1)[i] != ([false] + later)[i])
  {
    DividendAt(crc, bits, p, i);
    CopyAt(tapped, |bits| - 1, i);
    RegisterAt(crc, bits[0], next, tapped, i);
    if i > 0 { DividendAt(next, bits[1..], later, i - 1); }
  }

  /** Coefficient by coefficient, a step of the register. */
  lemma {:induction false} RegisterAt(crc: Word, bit: bool, next: Word, tapped: bool, i: nat)
    requires tapped == (crc[0] != bit) && next == Step(crc, bit)
    ensures 0 < i <= 32 ==> next[i - 1] == ((i < 32 && crc[i]) != (tapped && Polynomial[i - 1]))
  {
    StepAt(crc, bit);
    TopOfPolynomial();
  }

  lemma {:induction false} XorRegroup(copy: seq<bool>, t: seq<bool>, r: seq<bool>)
    requires |copy| == |t| + 1 && |r| == |t|
    ensures Xor(copy, [false] + Xor(t, r)) == Xor(Xor(copy, [false] + t), [false] + r)
  {
  }

  /** The quotient: whether each step of the register adds the polynomial. */
  function Quotient(crc: Word, bits: seq<bool>): (q: seq<bool>)
    ensures |q| == |bits|
    decreases |bits|
  {
    if bits == [] then [] else [crc[0] != bits[0]] + Quotient(Step(crc, bits[0]), bits[1..])
  }

  /** The register divides: what it ends with is the remainder. */
  lemma {:induction false} RegisterDivides(crc: Word, bits: seq<bool>, q: seq<bool>, r: Word)
    requires q == Quotient(crc, bits) && r == Steps(crc, bits)
    ensures Divides(Dividend(crc, bits), q, r)
    decreases |bits|
  {
    var p, n := Dividend(crc, bits), |bits|;
    if bits == [] {
      forall i | 0 <= i < 32 ensures p[i] == Xor(Times(q), Repeat(false, 0) + r)[i] {
        DividendAt(crc, bits, p, i);
      }
    } else {
      var next, later := Step(crc, bits[0]), Quotient(Step(crc, bits[0]), bits[1..]);
      RegisterDivides(next, bits[1..], later, r);
      DividendStep(crc, bits, p, next, Dividend(next, bits[1..]), q[0]);
      OneMore(p, q, later, Dividend(next, bits[1..]), r);
    }
  }

  lemma {:induction false} OneMore(p: seq<bool>, q: seq<bool>, q': seq<bool>, p': seq<bool>, r: Word)
    requires q != [] && q' == q[1..] && Divides(p', q', r)
    requires |p'| == |q'| + 32 && p == Xor(Copy(q[0], |q| - 1), [false] + p')
    ensures Divides(p, q, r)
  {
    XorRegroup(Copy(q[0], |q| - 1), Times(q'), Repeat(false, |q'|) + r);
    assert Repeat(false, |q|) + r == [false] + (Repeat(false, |q'|) + r);
  }

  // ---------- There is one remainder ----------

  /** The leading coefficient of the quotient is that of the dividend, and can be taken off. */
  lemma {:induction false} Peel(p: seq<bool>, q: seq<bool>, r: Word, rest: seq<bool>)
    requires q != [] && Divides(p, q, r)
    requires rest == Xor(p, Copy(p[0], |q| - 1))[1..]
    ensures q[0] == p[0] && Divides(rest, q[1..], r)
  {
    var copy, t, tail := Copy(q[0], |q| - 1), Times(q[1..]), Repeat(false, |q| - 1) + r;
    ZerosFirst(|q|, r, tail);
    CopyAt(q[0], |q| - 1, 0);
    XorPeel(copy, t, tail, p, Xor(p, copy)[1..]);
  }

  lemma {:induction false} ZerosFirst(n: nat, r: Word, tail: seq<bool>)
    requires n > 0 && tail == Repeat(false, n - 1) + r
    ensures Repeat(false, n) + r == [false] + tail
  {
  }

  lemma {:induction false} XorPeel(copy: seq<bool>, t: seq<bool>, tail: seq<bool>, p: seq<bool>, rest: seq<bool>)
    requires |copy| == |t| + 1 && |tail| == |t| && p == Xor(Xor(copy, [false] + t), [false] + tail)
    requires |p| == |copy| && rest == Xor(p, copy)[1..]
    ensures p[0] == copy[0] && rest == Xor(t, tail)
  {
    forall i | 0 <= i < |rest| ensures rest[i] == (t[i] != tail[i]) {
      assert p[i + 1] == ((copy[i + 1] != ([false] + t)[i + 1]) != ([false] + tail)[i + 1]);
    }
  }

  lemma {:induction false} RemainderIsUnique(p: seq<bool>, q: seq<bool>, r: Word, q': seq<bool>, r': Word)
    requires Divides(p, q, r) && Divides(p, q', r')
    ensures q == q' && r == r'
    decreases |q|
  {
    if q == [] {
      forall i | 0 <= i < 32 ensures r[i] == r'[i] {
        assert p[i] == (Repeat(false, 0) + r)[i] && p[i] == (Repeat(false, 0) + r')[i];
      }
    } else {
      var rest := Xor(p, Copy(p[0], |q| - 1))[1..];
      Peel(p, q, r, rest);
      Peel(p, q', r', rest);
      RemainderIsUnique(rest, q[1..], r, q'[1..], r');
      assert q == [q[0]] + q[1..] && q' == [q'[0]] + q'[1..];
    }
  }

  /** The CRC is the complement of the one remainder that dividing by the generator leaves of the
      message times x^32 with its first 32 coefficients inverted. */
  lemma {:induction false} CrcIsRemainder(data: seq<Byte>, r: Word)
    ensures Crc(data) == NumberOf(Xor(r, Repeat(true, 32)))
       <==> exists q :: Divides(Dividend(Repeat(true, 32), Bits(data)), q, r)
  {
    var last := Register(Ones, data);
    var quotient := Quotient(Ones, Bits(data));
    RegisterIsSteps(Ones, data);
    RegisterDivides(Ones, Bits(data), quotient, last);
    if Crc(data) == NumberOf(Xor(r, Ones)) {
      NumberInjective(Xor(r, Ones), Xor(last, Ones));
      ComplementInjective(r, last);
    }
    if q :| Divides(Dividend(Ones, Bits(data)), q, r) {
      RemainderIsUnique(Dividend(Ones, Bits(data)), quotient, last, q, r);
    }
  }
}
