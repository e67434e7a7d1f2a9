/** The register of `Crc32` in the 32-bit arithmetic of the source, and its check value. */
module CrcArithmetic {
  import opened Crc32

  const Width: nat := 32

  predicate Odd(v: bv32) {
    v & 1 == 1
  }

  function Half(v: bv32): bv32 {
    v >> 1
  }

  /** `(crc >>> 1) ^ (crc & 1 ? 0xedb88320 : 0)` */
  function Shifted(crc: bv32): bv32 {
    Half(crc) ^ (if Odd(crc) then 0xEDB8_8320 else 0)
  }

  /** `crc ^= byte`, and eight shifts. */
  function Fed(crc: bv32, byte: bv32): bv32 {
    Shifted(Shifted(Shifted(Shifted(Shifted(Shifted(Shifted(Shifted(crc ^ byte))))))))
  }

  /** The `n` low bits of a machine word, the lowest first. */
  function LowBits(v: bv32, n: nat): (bits: seq<bool>)
    ensures |bits| == n
    decreases n
  {
    if n == 0 then [] else [Odd(v)] + LowBits(Half(v), n - 1)
  }

  lemma {:induction false} LowBitsUnfold(v: bv32, n: nat, low: bool, half: bv32)
    requires n > 0 && low == Odd(v) && half == Half(v)
    ensures LowBits(v, n) == [low] + LowBits(half, n - 1)
  {
  }

  /** All of them. */
  function WordOf(v: bv32): Word {
    LowBits(v, Width)
  }

  // ---------- Exclusive or ----------

  lemma {:induction false} XorHalves(v: bv32, w: bv32)
    ensures Half(v ^ w) == Half(v) ^ Half(w)
    ensures Odd(v ^ w) == (Odd(v) != Odd(w))
  {
  }

  lemma {:induction false} LowBitsXor(v: bv32, w: bv32, both: bv32, n: nat)
    requires both == v ^ w
    ensures LowBits(both, n) == Xor(LowBits(v, n), LowBits(w, n))
    decreases n
  {
    if n > 0 {
      XorHalves(v, w);
      LowBitsXor(Half(v), Half(w), Half(both), n - 1);
      XorJoin(v, w, both, Half(v), Half(w), Half(both), n);
    }
  }

  lemma {:induction false} XorJoin(v: bv32, w: bv32, both: bv32, x: bv32, y: bv32, z: bv32, n: nat)
    requires n > 0 && x == Half(v) && y == Half(w) && z == Half(both)
    requires Odd(both) == (Odd(v) != Odd(w))
    requires LowBits(z, n - 1) == Xor(LowBits(x, n - 1), LowBits(y, n - 1))
    ensures LowBits(both, n) == Xor(LowBits(v, n), LowBits(w, n))
  {
    LowBitsUnfold(v, n, Odd(v), x);
    LowBitsUnfold(w, n, Odd(w), y);
    LowBitsUnfold(both, n, Odd(both), z);
    XorCons(Odd(v), LowBits(x, n - 1), Odd(w), LowBits(y, n - 1));
  }

  lemma {:induction false} XorCons(a: bool, x: seq<bool>, b: bool, y: seq<bool>)
    requires |x| == |y|
    ensures Xor([a] + x, [b] + y) == [a != b] + Xor(x, y)
  {
  }

  // ---------- Shifting ----------

  function Halved(v: bv32, n: nat): bv32
    decreases n
  {
    if n == 0 then v else Halved(Half(v), n - 1)
  }

  lemma {:induction false} LowBitsAppend(v: bv32, n: nat)
    ensures LowBits(v, n + 1) == LowBits(v, n) + [Odd(Halved(v, n))]
    decreases n
  {
    if n > 0 { LowBitsAppend(Half(v), n - 1); }
  }

  function Eighth(v: bv32): bv32 {
    Half(Half(Half(Half(Half(Half(Half(Half(v))))))))
  }

  lemma {:induction false} EighthIs(v: bv32)
    ensures Eighth(v) == v >> 8
  {
  }

  lemma {:induction false} AllOut(v: bv32)
    ensures v >> 8 >> 8 >> 8 >> 8 == 0
  {
  }

  lemma {:induction false} Halved8(v: bv32, n: nat)
    ensures Halved(v, n + 8) == Halved(Eighth(v), n)
  {
    var v2 := Half(Half(v));
    var v4 := Half(Half(v2));
    var v6 := Half(Half(v4));
    assert Halved(v, n + 8) == Halved(Half(v), n + 7) && Halved(v2, n + 6) == Halved(Half(v2), n + 5);
    assert Halved(v4, n + 4) == Halved(Half(v4), n + 3) && Halved(v6, n + 2) == Halved(Half(v6), n + 1);
  }

  lemma {:induction false} Halved32(v: bv32)
    ensures Halved(v, 32) == 0
  {
    Halved8(v, 24);
    Halved8(v >> 8, 16);
    Halved8(v >> 8 >> 8, 8);
    Halved8(v >> 8 >> 8 >> 8, 0);
    EighthIs(v);
    EighthIs(v >> 8);
    EighthIs(v >> 8 >> 8);
    EighthIs(v >> 8 >> 8 >> 8);
    AllOut(v);
  }

  lemma {:induction false} LowBitsHalf(v: bv32)
    ensures WordOf(Half(v)) == WordOf(v)[1..] + [false]
  {
    Halved32(v);
    LowBitsAppend(Half(v), 31);
  }

  // ---------- Numbers ----------

  lemma {:induction false} FourFirst(s: seq<bool>, t: seq<bool>, u: seq<bool>, v: seq<bool>, rest: seq<bool>, a: bool,
                                     b: bool, c: bool, d: bool)
    requires s == [a] + t && t == [b] + u && u == [c] + v && v == [d] + rest
    ensures s == [a, b, c, d] + rest
  {
  }

  lemma {:induction false} BitsOfUnfold(x: nat, n: nat, low: bool, half: nat)
    requires n > 0 && low == (x % 2 == 1) && half == x / 2
    ensures BitsOf(x, n) == [low] + BitsOf(half, n - 1)
  {
  }

  /** The lowest hexadecimal digit of a number. */
  function DigitOf(x: nat): seq<bool> {
    [x % 2 == 1, x / 2 % 2 == 1, x / 4 % 2 == 1, x / 8 % 2 == 1]
  }

  lemma {:induction false} NumberDigit(x: nat, n: nat)
    ensures BitsOf(x, n + 4) == DigitOf(x) + BitsOf(x / 16, n)
  {
    BitsOfUnfold(x, n + 4, x % 2 == 1, x / 2);
    BitsOfUnfold(x / 2, n + 3, x / 2 % 2 == 1, x / 4);
    BitsOfUnfold(x / 4, n + 2, x / 4 % 2 == 1, x / 8);
    BitsOfUnfold(x / 8, n + 1, x / 8 % 2 == 1, x / 16);
    FourFirst(BitsOf(x, n + 4), BitsOf(x / 2, n + 3), BitsOf(x / 4, n + 2), BitsOf(x / 8, n + 1), BitsOf(x / 16, n),
              x % 2 == 1, x / 2 % 2 == 1, x / 4 % 2 == 1, x / 8 % 2 == 1);
  }

  predicate SameDigit(v: bv32, x: nat) {
    && Odd(v) == (x % 2 == 1) && Odd(Half(v)) == (x / 2 % 2 == 1)
    && Odd(Half(Half(v))) == (x / 4 % 2 == 1) && Odd(Half(Half(Half(v)))) == (x / 8 % 2 == 1)
  }

  lemma {:induction false} WordDigit(v: bv32, w: bv32, n: nat)
    requires w == Half(Half(Half(Half(v))))
    ensures LowBits(v, n + 4) == [Odd(v), Odd(Half(v)), Odd(Half(Half(v))), Odd(Half(Half(Half(v))))] + LowBits(w, n)
  {
    FourLowBits(v, Half(v), Half(Half(v)), Half(Half(Half(v))), w, n);
  }

  lemma {:induction false} FourLowBits(v: bv32, v1: bv32, v2: bv32, v3: bv32, w: bv32, n: nat)
    requires v1 == Half(v) && v2 == Half(v1) && v3 == Half(v2) && w == Half(v3)
    ensures LowBits(v, n + 4) == [Odd(v), Odd(v1), Odd(v2), Odd(v3)] + LowBits(w, n)
  {
    LowBitsUnfold(v, n + 4, Odd(v), v1);
    LowBitsUnfold(v1, n + 3, Odd(v1), v2);
    LowBitsUnfold(v2, n + 2, Odd(v2), v3);
    LowBitsUnfold(v3, n + 1, Odd(v3), w);
    FourFirst(LowBits(v, n + 4), LowBits(v1, n + 3), LowBits(v2, n + 2), LowBits(v3, n + 1), LowBits(w, n),
              Odd(v), Odd(v1), Odd(v2), Odd(v3));
  }

  lemma {:induction false} FourBits(v: bv32)
    ensures Odd(v) == (v & 1 == 1) && Odd(Half(v)) == (v & 2 == 2)
    ensures Odd(Half(Half(v))) == (v & 4 == 4) && Odd(Half(Half(Half(v)))) == (v & 8 == 8)
  {
  }

  lemma {:induction false} FourHalves(v: bv32)
    ensures Half(Half(Half(Half(v)))) == v >> 4
  {
  }

  /** A word and a number have the same bits if their lowest digits, `a` to `d`, and what is above
      them do. */
  lemma {:induction false} OneDigit(v: bv32, x: nat, w: bv32, y: nat, n: nat, a: bool, b: bool, c: bool, d: bool)
    requires w == v >> 4 && y == x / 16 && LowBits(w, n) == BitsOf(y, n)
    requires (v & 1 == 1) == a && (v & 2 == 2) == b && (v & 4 == 4) == c && (v & 8 == 8) == d
    requires (x % 2 == 1) == a && (x / 2 % 2 == 1) == b && (x / 4 % 2 == 1) == c && (x / 8 % 2 == 1) == d
    ensures LowBits(v, n + 4) == BitsOf(x, n + 4)
  {
    FourBits(v);
    FourHalves(v);
    NumberDigit(x, n);
    WordDigit(v, w, n);
  }

  /** The constant of the source, digit by digit; `n` is 0, but not a literal the solver would unroll. */
  lemma {:induction false} PolynomialDigits(v: bv32, x: nat, n: nat)
    requires n == 0 && v == 0xEDB8_8320 && x == 0xEDB8_8320
    ensures WordOf(v) == BitsOf(x, 32)
  {
    OneDigit(0xE, 0xE, 0, 0, n, false, true, true, true);
    OneDigit(0xED, 0xED, 0xE, 0xE, n + 4, true, false, true, true);
    OneDigit(0xEDB, 0xEDB, 0xED, 0xED, n + 8, true, true, false, true);
    OneDigit(0xEDB8, 0xEDB8, 0xEDB, 0xEDB, n + 12, false, false, false, true);
    OneDigit(0xE_DB88, 0xE_DB88, 0xEDB8, 0xEDB8, n + 16, false, false, false, true);
    OneDigit(0xED_B883, 0xED_B883, 0xE_DB88, 0xE_DB88, n + 20, true, true, false, false);
    OneDigit(0xEDB_8832, 0xEDB_8832, 0xED_B883, 0xED_B883, n + 24, false, true, false, false);
    OneDigit(0xEDB8_8320, 0xEDB8_8320, 0xEDB_8832, 0xEDB_8832, n + 28, false, false, false, false);
  }

  lemma {:induction false} CheckDigits(v: bv32, x: nat, n: nat)
    requires n == 0 && v == 0xCBF4_3926 && x == 0xCBF4_3926
    ensures WordOf(v) == BitsOf(x, 32)
  {
    OneDigit(0xC, 0xC, 0, 0, n, false, false, true, true);
    OneDigit(0xCB, 0xCB, 0xC, 0xC, n + 4, true, true, false, true);
    OneDigit(0xCBF, 0xCBF, 0xCB, 0xCB, n + 8, true, true, true, true);
    OneDigit(0xCBF4, 0xCBF4, 0xCBF, 0xCBF, n + 12, false, false, true, false);
    OneDigit(0xC_BF43, 0xC_BF43, 0xCBF4, 0xCBF4, n + 16, true, true, false, false);
    OneDigit(0xCB_F439, 0xCB_F439, 0xC_BF43, 0xC_BF43, n + 20, true, false, false, true);
    OneDigit(0xCBF_4392, 0xCBF_4392, 0xCB_F439, 0xCB_F439, n + 24, false, true, false, false);
    OneDigit(0xCBF4_3926, 0xCBF4_3926, 0xCBF_4392, 0xCBF_4392, n + 28, false, true, true, false);
  }

  lemma {:induction false} FourOnes(v: bv32, w: bv32, n: nat)
    requires w == Half(Half(Half(Half(v)))) && LowBits(w, n) == Repeat(true, n)
    requires Odd(v) && Odd(Half(v)) && Odd(Half(Half(v))) && Odd(Half(Half(Half(v))))
    ensures LowBits(v, n + 4) == Repeat(true, n + 4)
  {
    WordDigit(v, w, n);
  }

  lemma {:induction false} LowNibble(v: bv32)
    requires v & 0xF == 0xF
    ensures Odd(v) && Odd(Half(v)) && Odd(Half(Half(v))) && Odd(Half(Half(Half(v))))
  {
  }

  lemma {:induction false} NextNibble(v: bv32)
    requires v & 0xFF == 0xFF
    ensures v & 0xF == 0xF && Half(Half(Half(Half(v)))) & 0xF == 0xF
  {
  }

  lemma {:induction false} EightOnes(v: bv32, w: bv32, n: nat)
    requires v & 0xFF == 0xFF && w == Eighth(v) && LowBits(w, n) == Repeat(true, n)
    ensures LowBits(v, n + 8) == Repeat(true, n + 8)
  {
    var high := Half(Half(Half(Half(v))));
    NextNibble(v);
    LowNibble(v);
    LowNibble(high);
    FourOnes(high, w, n);
    FourOnes(v, high, n + 4);
  }

  lemma {:induction false} OnesAre(n: nat)
    requires n == 0
    ensures WordOf(0xFFFF_FFFF) == Ones
  {
    EightOnes(0xFF, 0, n);
    EightOnes(0xFFFF, 0xFF, n + 8);
    EightOnes(0xFF_FFFF, 0xFFFF, n + 16);
    EightOnes(0xFFFF_FFFF, 0xFF_FFFF, n + 24);
  }

  lemma {:induction false} LowBitsOfZero(n: nat)
    ensures LowBits(0, n) == Repeat(false, n)
    decreases n
  {
    if n > 0 { LowBitsOfZero(n - 1); }
  }

  // ---------- The same register ----------

  lemma {:induction false} ShiftedIsShift(v: bv32, half: bv32, shifted: bv32)
    requires half == Half(v) && shifted == Shifted(v)
    ensures WordOf(shifted) == Shift(WordOf(v))
  {
    LowBitsHalf(v);
    PolynomialDigits(0xEDB8_8320, 0xEDB8_8320, 0);
    if Odd(v) { LowBitsXor(half, 0xEDB8_8320, shifted, Width); } else { NoChange(half); }
  }

  lemma {:induction false} NoChange(v: bv32)
    ensures v ^ 0 == v
  {
  }

  lemma {:induction false} FedIsFeed(v: bv32, b: bv32, mixed: bv32, w: bv32, x: Byte)
    requires mixed == v ^ b && w == Fed(v, b) && SameByte(b, x)
    ensures WordOf(w) == Feed(WordOf(v), x)
  {
    LowBitsXor(v, b, mixed, Width);
    ByteBits(b, x);
    MixedLow(WordOf(v), BitsOf(x, 8));
    EightShifts(mixed, w);
  }

  lemma {:induction false} MixedLow(w: Word, low: seq<bool>)
    requires |low| == 8
    ensures XorLow(w, low) == Xor(w, low + Repeat(false, 24))
  {
  }

  lemma {:induction false} EightShifts(v: bv32, w: bv32)
    requires w == Shifted(Shifted(Shifted(Shifted(Shifted(Shifted(Shifted(Shifted(v))))))))
    ensures WordOf(w) == Shifts(WordOf(v), 8)
  {
    var half := FourShifts(v, 4);
    var last := FourShifts(half, 0);
  }

  lemma {:induction false} FourShifts(v: bv32, n: nat) returns (w: bv32)
    ensures w == Shifted(Shifted(Shifted(Shifted(v))))
    ensures Shifts(WordOf(v), n + 4) == Shifts(WordOf(w), n)
  {
    w := NextShift(v, n + 4);
    w := NextShift(w, n + 3);
    w := NextShift(w, n + 2);
    w := NextShift(w, n + 1);
  }

  lemma {:induction false} NextShift(v: bv32, n: nat) returns (next: bv32)
    requires n > 0
    ensures next == Shifted(v) && Shifts(WordOf(v), n) == Shifts(WordOf(next), n - 1)
  {
    next := Shifted(v);
    ShiftedIsShift(v, Half(v), next);
  }

  /** A byte and a machine word with the same value. */
  predicate SameByte(b: bv32, x: nat) {
    var high := Half(Half(Half(Half(b))));
    SameDigit(b, x) && SameDigit(high, x / 16) && Half(Half(Half(Half(high)))) == 0
  }

  lemma {:induction false} ByteBits(b: bv32, x: Byte)
    requires SameByte(b, x)
    ensures WordOf(b) == BitsOf(x, 8) + Repeat(false, 24)
  {
    var high := Half(Half(Half(Half(b))));
    LowBitsOfZero(24);
    NumberDigit(x, 4);
    DigitBits(b, high, x, 28);
    DigitBits(high, 0, x / 16, 24);
    NumberDigit(x / 16, 0);
    TwoDigits(DigitOf(x), LowBits(high, 28), DigitOf(x / 16), LowBits(0, 24), BitsOf(x / 16, 4));
  }

  lemma {:induction false} DigitBits(v: bv32, w: bv32, x: nat, n: nat)
    requires w == Half(Half(Half(Half(v)))) && SameDigit(v, x)
    ensures LowBits(v, n + 4) == DigitOf(x) + LowBits(w, n)
  {
    WordDigit(v, w, n);
  }

  lemma {:induction false} TwoDigits(low: seq<bool>, rest: seq<bool>, high: seq<bool>, above: seq<bool>,
                                     digit: seq<bool>)
    requires rest == high + above && digit == high + []
    ensures low + rest == low + digit + above
  {
  }

  // ---------- Whole messages ----------

  /** The register after each byte, beginning with the one before the first. */
  predicate IsTrace(trace: seq<bv32>, bytes: seq<bv32>, data: seq<Byte>) {
    && |trace| == |data| + 1 && |bytes| == |data|
    && forall i :: 0 <= i < |data| ==> SameByte(bytes[i], data[i]) && trace[i + 1] == Fed(trace[i], bytes[i])
  }

  lemma {:induction false} TraceIsRegister(trace: seq<bv32>, bytes: seq<bv32>, data: seq<Byte>, k: nat, rest: seq<Byte>)
    requires IsTrace(trace, bytes, data) && k <= |data| && rest == data[k..]
    ensures Register(WordOf(trace[k]), rest) == WordOf(trace[|data|])
    decreases |rest|
  {
    if rest != [] {
      FedIsFeed(trace[k], bytes[k], trace[k] ^ bytes[k], trace[k + 1], data[k]);
      TraceIsRegister(trace, bytes, data, k + 1, rest[1..]);
    }
  }

  /** What the source computes in 32-bit arithmetic is `Crc`. */
  lemma {:induction false} ArithmeticAgrees(trace: seq<bv32>, bytes: seq<bv32>, data: seq<Byte>, result: bv32)
    requires IsTrace(trace, bytes, data) && trace[0] == 0xFFFF_FFFF
    requires result == trace[|data|] ^ 0xFFFF_FFFF
    ensures Crc(data) == NumberOf(WordOf(result))
  {
    OnesAre(0);
    TraceIsRegister(trace, bytes, data, 0, data);
    LowBitsXor(trace[|data|], 0xFFFF_FFFF, result, Width);
  }

  // ---------- The check value ----------

  lemma {:induction false} FirstDigits()
    ensures SameByte(0x31, 0x31) && Fed(0xFFFF_FFFF, 0x31) == 0x7C23_1048
    ensures SameByte(0x32, 0x32) && Fed(0x7C23_1048, 0x32) == 0xB0AC_BB32
    ensures SameByte(0x33, 0x33) && Fed(0xB0AC_BB32, 0x33) == 0x77B7_9C2D
  {
  }

  lemma {:induction false} MiddleDigits()
    ensures SameByte(0x34, 0x34) && Fed(0x77B7_9C2D, 0x34) == 0x641C_1F5C
    ensures SameByte(0x35, 0x35) && Fed(0x641C_1F5C, 0x35) == 0x340A_C5E3
    ensures SameByte(0x36, 0x36) && Fed(0x340A_C5E3, 0x36) == 0xF68D_2C9E
  {
  }

  lemma {:induction false} LastDigits()
    ensures SameByte(0x37, 0x37) && Fed(0xF68D_2C9E, 0x37) == 0xAFFC_9660
    ensures SameByte(0x38, 0x38) && Fed(0xAFFC_9660, 0x38) == 0x651F_2550
    ensures SameByte(0x39, 0x39) && Fed(0x651F_2550, 0x39) == 0x340B_C6D9
  {
  }

  lemma {:induction false} CheckTrace(bytes: seq<bv32>, digits: seq<Byte>) returns (trace: seq<bv32>)
    requires bytes == [0x31, 0x32, 0x33, 0x34, 0x35, 0x36, 0x37, 0x38, 0x39]
    requires digits == [0x31, 0x32, 0x33, 0x34, 0x35, 0x36, 0x37, 0x38, 0x39]
    ensures IsTrace(trace, bytes, digits) && trace[0] == 0xFFFF_FFFF && trace[9] == 0x340B_C6D9
  {
    trace := [0xFFFF_FFFF, 0x7C23_1048, 0xB0AC_BB32, 0x77B7_9C2D, 0x641C_1F5C,
              0x340A_C5E3, 0xF68D_2C9E, 0xAFFC_9660, 0x651F_2550, 0x340B_C6D9];
    forall i | 0 <= i < 9 ensures SameByte(bytes[i], digits[i]) && trace[i + 1] == Fed(trace[i], bytes[i]) {
      if i < 3 {
        FirstDigits();
      } else if i < 6 {
        MiddleDigits();
      } else {
        LastDigits();
      }
    }
  }

  /** The CRC of the digits "123456789". */
  lemma {:induction false} CheckValue(digits: seq<Byte>)
    requires digits == [0x31, 0x32, 0x33, 0x34, 0x35, 0x36, 0x37, 0x38, 0x39]
    ensures Crc(digits) == 0xCBF4_3926
  {
    var bytes: seq<bv32> := [0x31, 0x32, 0x33, 0x34, 0x35, 0x36, 0x37, 0x38, 0x39];
    var trace := CheckTrace(bytes, digits);
    ArithmeticAgrees(trace, bytes, digits, 0xCBF4_3926);
    CheckNumber(0xCBF4_3926, 0xCBF4_3926);
  }

  lemma {:induction false} CheckNumber(v: bv32, x: nat)
    requires v == 0xCBF4_3926 && x == 0xCBF4_3926
    ensures NumberOf(WordOf(v)) == x
  {
    CheckDigits(v, x, 0);
    PowerOf32();
    NumberOfBits(x, 32);
  }
}
