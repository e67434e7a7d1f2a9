/** The CRC-32 of the PNG writer: a 32-bit register shifted once for every message bit.
    A register is written as its bits, the lowest first. */
module Crc32 {

  type Byte = x: nat | x < 256
  type Word = w: seq<bool> | |w| == 32 witness Repeat(false, 32)

  function Repeat(b: bool, n: nat): (bits: seq<bool>)
    ensures |bits| == n && forall i :: 0 <= i < n ==> bits[i] == b
  {
    if n == 0 then [] else [b] + Repeat(b, n - 1)
  }

  /** The `n` low bits of a number. */
  function BitsOf(x: nat, n: nat): (bits: seq<bool>)
    ensures |bits| == n
    decreases n
  {
    if n == 0 then [] else [x % 2 == 1] + BitsOf(x / 2, n - 1)
  }

  function NumberOf(bits: seq<bool>): nat {
    if bits == [] then 0 else (if bits[0] then 1 else 0) + 2 * NumberOf(bits[1..])
  }

  const Polynomial: Word := BitsOf(0xEDB8_8320, 32)
  const Zero: Word := Repeat(false, 32)
  const Ones: Word := Repeat(true, 32)

  function Xor(a: seq<bool>, b: seq<bool>): (c: seq<bool>)
    requires |a| == |b|
    ensures |c| == |a|
  {
    seq(|a|, i requires 0 <= i < |a| => a[i] != b[i])
  }

  /** `crc ^ byte`: the low bits change, the others stay. */
  function XorLow(w: Word, low: seq<bool>): Word
    requires |low| <= 32
  {
    seq(32, i requires 0 <= i < 32 => if i < |low| then w[i] != low[i] else w[i])
  }

  /** `(crc >>> 1) ^ (crc & 1 ? 0xedb88320 : 0)` */
  function Shift(w: Word): Word {
    var half := w[1..] + [false];
    if w[0] then Xor(half, Polynomial) else half
  }

  function Shifts(w: Word, n: nat): Word
    decreases n
  {
    if n == 0 then w else Shifts(Shift(w), n - 1)
  }

  function Feed(crc: Word, byte: Byte): Word {
    Shifts(XorLow(crc, BitsOf(byte, 8)), 8)
  }

  function Register(crc: Word, data: seq<Byte>): Word
    decreases |data|
  {
    if data == [] then crc else Register(Feed(crc, data[0]), data[1..])
  }

  function Crc(data: seq<Byte>): nat {
    NumberOf(Xor(Register(Ones, data), Ones))
  }

  method ComputeCrc(buffer: seq<Byte>) returns (r: nat)
    ensures r == Crc(buffer)
  {
    var crc := Ones;
    for i := 0 to |buffer|
      invariant Register(crc, buffer[i..]) == Register(Ones, buffer)
    {
      assert buffer[i..][1..] == buffer[i + 1..];
      crc := FeedByte(crc, buffer[i]);
    }
    r := NumberOf(Xor(crc, Ones));
  }

  method FeedByte(register: Word, byte: Byte) returns (crc: Word)
    ensures crc == Feed(register, byte)
  {
    crc := XorLow(register, BitsOf(byte, 8));
    crc := ShiftTimes(crc, 8);
  }

  method ShiftTimes(register: Word, count: nat) returns (crc: Word)
    ensures crc == Shifts(register, count)
  {
    crc := register;
    for index := 0 to count
      invariant Shifts(crc, count - index) == Shifts(register, count)
    {
      crc := Shift(crc);
    }
  }

  // ---------- One bit at a time ----------

  /** The register after one message bit. */
  function Step(crc: Word, bit: bool): Word {
    Shift(XorLow(crc, [bit]))
  }

  function Steps(crc: Word, bits: seq<bool>): Word
    decreases |bits|
  {
    if bits == [] then crc else Steps(Step(crc, bits[0]), bits[1..])
  }

  /** A message as the bits the register sees, in order. */
  function Bits(data: seq<Byte>): (bits: seq<bool>)
    ensures |bits| == 8 * |data|
  {
    if data == [] then [] else BitsOf(data[0], 8) + Bits(data[1..])
  }

  lemma {:induction false} StepsConcat(crc: Word, a: seq<bool>, b: seq<bool>)
    ensures Steps(crc, a + b) == Steps(Steps(crc, a), b)
    decreases |a|
  {
    if a == [] {
      assert a + b == b;
    } else {
      assert (a + b)[1..] == a[1..] + b;
      StepsConcat(Step(crc, a[0]), a[1..], b);
    }
  }

  /** Whether the polynomial is added depends on one bit only, and shows in the top bit. */
  lemma {:induction false} StepAt(crc: Word, bit: bool)
    ensures var s, tapped := Step(crc, bit), crc[0] != bit;
            s[31] == tapped
            && forall i :: 0 <= i < 31 ==> s[i] == (crc[i + 1] != (tapped && Polynomial[i]))
  {
    TopOfPolynomial();
  }

  function Power(n: nat): nat {
    if n == 0 then 1 else 2 * Power(n - 1)
  }

  lemma {:induction false} TopBit(x: nat, n: nat)
    requires n > 0 && Power(n - 1) <= x < Power(n)
    ensures BitsOf(x, n)[n - 1]
    decreases n
  {
    if n > 1 { TopBit(x / 2, n - 1); }
  }

  lemma {:induction false} PowerOf32()
    ensures Power(31) == 0x8000_0000 && Power(32) == 0x1_0000_0000
  {
    assert Power(8) == 0x100;
    assert Power(16) == 0x1_0000;
    assert Power(24) == 0x100_0000;
  }

  /** The polynomial uses the top bit, so no shift loses information. */
  lemma {:induction false} TopOfPolynomial()
    ensures Polynomial[31]
  {
    PowerOf32();
    TopBit(0xEDB8_8320, 32);
  }

  /** The low bits may be xored in all at once or one before each shift. */
  lemma {:induction false} ShiftsAreSteps(crc: Word, low: seq<bool>)
    requires |low| <= 32
    ensures Shifts(XorLow(crc, low), |low|) == Steps(crc, low)
    decreases |low|
  {
    if low == [] {
      assert XorLow(crc, low) == crc;
    } else {
      StepTakesLowBit(crc, low);
      ShiftsAreSteps(Step(crc, low[0]), low[1..]);
    }
  }

  lemma {:induction false} StepTakesLowBit(crc: Word, low: seq<bool>)
    requires 0 < |low| <= 32
    ensures Shift(XorLow(crc, low)) == XorLow(Step(crc, low[0]), low[1..])
  {
    var a, b := Shift(XorLow(crc, low)), XorLow(Step(crc, low[0]), low[1..]);
    forall i | 0 <= i < 32 ensures a[i] == b[i] {
      if i < 31 && i + 1 < |low| { assert low[1..][i] == low[i + 1]; }
    }
  }

  /** Working through bytes is working through their bits. */
  lemma {:induction false} RegisterIsSteps(crc: Word, data: seq<Byte>)
    ensures Register(crc, data) == Steps(crc, Bits(data))
    decreases |data|
  {
    if data != [] {
      ShiftsAreSteps(crc, BitsOf(data[0], 8));
      RegisterIsSteps(Feed(crc, data[0]), data[1..]);
      StepsConcat(crc, BitsOf(data[0], 8), Bits(data[1..]));
    }
  }

  // ---------- Linear and reversible ----------

  lemma {:induction false} StepIsLinear(c: Word, d: Word, a: bool, b: bool)
    ensures Step(Xor(c, d), a != b) == Xor(Step(c, a), Step(d, b))
  {
    StepAt(c, a);
    StepAt(d, b);
    StepAt(Xor(c, d), a != b);
    PointwiseLinear(c, d, Xor(c, d), Step(c, a), Step(d, b), Step(Xor(c, d), a != b), c[0] != a, d[0] != b);
  }

  lemma {:induction false} PointwiseLinear(c: Word, d: Word, cd: Word, s: Word, t: Word, st: Word, a: bool, b: bool)
    requires cd == Xor(c, d)
    requires s[31] == a && forall i :: 0 <= i < 31 ==> s[i] == (c[i + 1] != (a && Polynomial[i]))
    requires t[31] == b && forall i :: 0 <= i < 31 ==> t[i] == (d[i + 1] != (b && Polynomial[i]))
    requires st[31] == (a != b) && forall i :: 0 <= i < 31 ==> st[i] == (cd[i + 1] != ((a != b) && Polynomial[i]))
    ensures st == Xor(s, t)
  {
    forall i | 0 <= i < 32 ensures st[i] == (s[i] != t[i]) {
      if i < 31 { assert cd[i + 1] == (c[i + 1] != d[i + 1]); }
    }
  }

  /** The register is linear: differences evolve on their own, whatever the messages are. */
  lemma {:induction false} RegisterIsLinear(c: Word, d: Word, a: seq<bool>, b: seq<bool>)
    requires |a| == |b|
    ensures Steps(Xor(c, d), Xor(a, b)) == Xor(Steps(c, a), Steps(d, b))
    decreases |a|
  {
    if a != [] {
      StepIsLinear(c, d, a[0], b[0]);
      RegisterIsLinear(Step(c, a[0]), Step(d, b[0]), a[1..], b[1..]);
      assert Xor(a, b)[1..] == Xor(a[1..], b[1..]);
    }
  }

  lemma {:induction false} StepIsInjective(c: Word, d: Word, bit: bool)
    ensures Step(c, bit) == Step(d, bit) <==> c == d
  {
    StepAt(c, bit);
    StepAt(d, bit);
    if Step(c, bit) == Step(d, bit) {
      forall i | 0 <= i < 32 ensures c[i] == d[i] {
        if i > 0 { assert Step(c, bit)[i - 1] == Step(d, bit)[i - 1]; }
      }
    }
  }

  /** For fixed message bits the register before and the register after determine each other. */
  lemma {:induction false} RegisterIsInjective(c: Word, d: Word, bits: seq<bool>)
    ensures Steps(c, bits) == Steps(d, bits) <==> c == d
    decreases |bits|
  {
    if bits != [] {
      StepIsInjective(c, d, bits[0]);
      RegisterIsInjective(Step(c, bits[0]), Step(d, bits[0]), bits[1..]);
    }
  }

  /** And every register can be reached: the step before it can be computed. */
  function Unstep(w: Word, bit: bool): Word {
    var half := if w[31] then Xor(w, Polynomial) else w;
    [w[31] != bit] + half[..31]
  }

  lemma {:induction false} StepIsReversible(w: Word, bit: bool)
    ensures Step(Unstep(w, bit), bit) == w
  {
    StepAt(Unstep(w, bit), bit);
    var s := Step(Unstep(w, bit), bit);
    forall i | 0 <= i < 32 ensures s[i] == w[i] {
      if i < 31 { assert Unstep(w, bit)[i + 1] == (w[i] != (w[31] && Polynomial[i])); }
    }
  }

  // ---------- Bursts ----------

  /** All set bits of `e` lie among 32 consecutive positions from `start` on. */
  predicate Burst(e: seq<bool>, start: nat) {
    forall i :: 0 <= i < |e| && e[i] ==> start <= i < start + 32
  }

  predicate ZeroFrom(w: Word, k: nat) {
    forall i :: k <= i < 32 ==> !w[i]
  }

  /** A register that later bits clear had nothing above their number. */
  lemma {:induction false} ClearedFrom(d: Word, bits: seq<bool>)
    requires |bits| <= 32 && Steps(d, bits) == Zero
    ensures ZeroFrom(d, |bits|)
    decreases |bits|
  {
    if bits != [] {
      ClearedFrom(Step(d, bits[0]), bits[1..]);
      StepAt(d, bits[0]);
      forall i | |bits| <= i < 32 ensures !d[i] {
        assert !Step(d, bits[0])[i - 1];
      }
    }
  }

  lemma {:induction false} StepOfZero(bit: bool)
    ensures Step(Zero, bit) == if bit then Polynomial else Zero
  {
    StepAt(Zero, bit);
    TopOfPolynomial();
    var s := Step(Zero, bit);
    forall i | 0 <= i < 32 ensures s[i] == (bit && Polynomial[i]) {
      if i < 31 {} else {}
    }
  }

  lemma {:induction false} ZeroBitsKeep(d: Word, bits: seq<bool>)
    requires forall i :: 0 <= i < |bits| ==> !bits[i]
    ensures Steps(d, bits) == Zero <==> d == Zero
    decreases |bits|
  {
    if bits != [] {
      StepOfZero(false);
      StepIsInjective(d, Zero, false);
      ZeroBitsKeep(Step(d, false), bits[1..]);
    }
  }

  /** A burst of errors never cancels out in the register. */
  lemma {:induction false} BurstLeavesMark(e: seq<bool>, start: nat, at: nat)
    requires Burst(e, start) && at < |e| && e[at]
    ensures Steps(Zero, e) != Zero
    decreases |e|
  {
    StepOfZero(e[0]);
    var tail := e[1..];
    if !e[0] {
      BurstLeavesMark(tail, if start == 0 then 0 else start - 1, at - 1);
    } else {
      var end := if |e| < 32 then |e| else 32;
      var inside, after := tail[..end - 1], tail[end - 1..];
      assert tail == inside + after;
      StepsConcat(Polynomial, inside, after);
      ShortBurst(inside);
      forall i | 0 <= i < |after| ensures !after[i] {
        assert after[i] == e[end + i];
      }
      ZeroBitsKeep(Steps(Polynomial, inside), after);
    }
  }

  lemma {:induction false} ShortBurst(bits: seq<bool>)
    requires |bits| <= 31
    ensures Steps(Polynomial, bits) != Zero
  {
    TopOfPolynomial();
    if Steps(Polynomial, bits) == Zero { ClearedFrom(Polynomial, bits); }
  }

  lemma {:induction false} NumberOfBits(x: nat, n: nat)
    requires x < Power(n)
    ensures NumberOf(BitsOf(x, n)) == x
    decreases n
  {
    if n > 0 { NumberOfBits(x / 2, n - 1); }
  }

  lemma {:induction false} NumberInjective(a: seq<bool>, b: seq<bool>)
    requires |a| == |b| && NumberOf(a) == NumberOf(b)
    ensures a == b
  {
    if a != [] {
      assert a[0] == b[0];
      NumberInjective(a[1..], b[1..]);
      assert a == [a[0]] + a[1..] && b == [b[0]] + b[1..];
    }
  }

  lemma {:induction false} NumberBelow(bits: seq<bool>)
    ensures NumberOf(bits) < Power(|bits|)
  {
    if bits != [] { NumberBelow(bits[1..]); }
  }

  lemma {:induction false} ByteBitsInjective(x: Byte, y: Byte)
    requires BitsOf(x, 8) == BitsOf(y, 8)
    ensures x == y
  {
    assert Power(8) == 256;
    NumberOfBits(x, 8);
    NumberOfBits(y, 8);
  }

  lemma {:induction false} SplitEqual<T>(a: seq<T>, b: seq<T>, s: seq<T>, t: seq<T>)
    requires |a| == |b| && a + s == b + t
    ensures a == b && s == t
  {
    assert a == (a + s)[..|a|] && b == (b + t)[..|b|];
    assert s == (a + s)[|a|..] && t == (b + t)[|b|..];
  }

  lemma {:induction false} BitsInjective(a: seq<Byte>, b: seq<Byte>)
    requires |a| == |b| && Bits(a) == Bits(b)
    ensures a == b
  {
    if a != [] {
      SplitEqual(BitsOf(a[0], 8), BitsOf(b[0], 8), Bits(a[1..]), Bits(b[1..]));
      ByteBitsInjective(a[0], b[0]);
      BitsInjective(a[1..], b[1..]);
      assert a == [a[0]] + a[1..] && b == [b[0]] + b[1..];
    }
  }

  lemma {:induction false} DifferentBit(a: seq<Byte>, b: seq<Byte>) returns (at: nat)
    requires |a| == |b| && a != b
    ensures at < |Bits(a)| && Xor(Bits(a), Bits(b))[at]
  {
    if forall i :: 0 <= i < |Bits(a)| ==> Bits(a)[i] == Bits(b)[i] {
      assert Bits(a) == Bits(b);
      BitsInjective(a, b);
      assert false;
    }
    at :| 0 <= at < |Bits(a)| && Bits(a)[at] != Bits(b)[at];
  }

  lemma {:induction false} RegisterDifference(crc: Word, a: seq<Byte>, b: seq<Byte>)
    requires |a| == |b|
    ensures Xor(Register(crc, a), Register(crc, b)) == Steps(Zero, Xor(Bits(a), Bits(b)))
  {
    RegisterIsSteps(crc, a);
    RegisterIsSteps(crc, b);
    RegisterIsLinear(crc, crc, Bits(a), Bits(b));
    XorSelf(crc);
  }

  /** Two different messages of equal length that differ only within 32 consecutive bits have
      different CRCs. */
  lemma {:induction false} BurstIsDetected(a: seq<Byte>, b: seq<Byte>, start: nat)
    requires |a| == |b| && a != b && Burst(Xor(Bits(a), Bits(b)), start)
    ensures Crc(a) != Crc(b)
  {
    var x, y := Register(Ones, a), Register(Ones, b);
    RegisterDifference(Ones, a, b);
    var at := DifferentBit(a, b);
    BurstLeavesMark(Xor(Bits(a), Bits(b)), start, at);
    XorSelf(x);
    if Xor(x, Ones) == Xor(y, Ones) { ComplementInjective(x, y); }
    if Crc(a) == Crc(b) { NumberInjective(Xor(x, Ones), Xor(y, Ones)); }
  }

  lemma {:induction false} XorSelf(x: Word)
    ensures Xor(x, x) == Zero
  {
  }

  lemma {:induction false} ComplementInjective(x: Word, y: Word)
    requires Xor(x, Ones) == Xor(y, Ones)
    ensures x == y
  {
    forall i | 0 <= i < 32 ensures x[i] == y[i] {
      assert Xor(x, Ones)[i] == Xor(y, Ones)[i];
    }
  }

  lemma {:induction false} BitsAt(data: seq<Byte>, k: nat)
    requires k < |data|
    ensures Bits(data)[8 * k..8 * k + 8] == BitsOf(data[k], 8)
    decreases k
  {
    var first, rest := BitsOf(data[0], 8), Bits(data[1..]);
    if k > 0 {
      BitsAt(data[1..], k - 1);
      SliceOfRest(first, rest, 8 * (k - 1), 8 * (k - 1) + 8);
    } else {
      assert (first + rest)[0..8] == first;
    }
  }

  lemma {:induction false} SliceOfRest(first: seq<bool>, rest: seq<bool>, i: nat, j: nat)
    requires i <= j <= |rest|
    ensures (first + rest)[|first| + i..|first| + j] == rest[i..j]
  {
  }

  lemma {:induction false} SameByteSameBit(a: seq<Byte>, b: seq<Byte>, i: nat)
    requires i / 8 < |a| == |b| && i < |Bits(a)| == |Bits(b)| && a[i / 8] == b[i / 8]
    ensures Bits(a)[i] == Bits(b)[i]
  {
    var k := i / 8;
    BitsAt(a, k);
    BitsAt(b, k);
    assert Bits(a)[i] == Bits(a)[8 * k..8 * k + 8][i - 8 * k];
    assert Bits(b)[i] == Bits(b)[8 * k..8 * k + 8][i - 8 * k];
  }

  /** In particular, two different messages that differ only within four consecutive bytes. */
  lemma {:induction false} FourBytesAreDetected(a: seq<Byte>, b: seq<Byte>, start: nat)
    requires |a| == |b| && a != b
    requires forall k :: 0 <= k < |a| && !(start <= k < start + 4) ==> a[k] == b[k]
    ensures Crc(a) != Crc(b)
  {
    var e := Xor(Bits(a), Bits(b));
    forall i | 0 <= i < |e| && e[i] ensures 8 * start <= i < 8 * start + 32 {
      if a[i / 8] == b[i / 8] { SameByteSameBit(a, b, i); }
    }
    BurstIsDetected(a, b, 8 * start);
  }
}
