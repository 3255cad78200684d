// The in-place MD5 of dashboard/src/md5.ts over JavaScript numbers, which mix
// signed and unsigned 32-bit values, proved to compute RFC 1321.
module Md5 {
  import opened Basics
  import opened Rfc1321

  // --- JavaScript numbers ---------------------------------------------------

  function ToUint32(x: int): Word {
    x % TWO32
  }

  function ToInt32(x: int): int {
    if ToUint32(x) >= 0x8000_0000 then ToUint32(x) - TWO32 else ToUint32(x)
  }

  function JsAnd(x: int, y: int): int { ToInt32(And(ToUint32(x), ToUint32(y))) }

  function JsOr(x: int, y: int): int { ToInt32(Or(ToUint32(x), ToUint32(y))) }

  function JsXor(x: int, y: int): int { ToInt32(Xor(ToUint32(x), ToUint32(y))) }

  function JsNot(x: int): int { ToInt32(Not(ToUint32(x))) }

  // `<<`
  function ShiftLeft(x: int, count: nat): int
    requires count < 32
  {
    ToInt32(ToUint32(x) * Pow2(count))
  }

  // `>>`, which keeps the sign
  function ShiftRight(x: int, count: nat): int
    requires count < 32
  {
    ToInt32(x) / Pow2(count)
  }

  // `>>>`
  function ShiftRightUnsigned(x: int, count: nat): int
    requires count < 32
  {
    ToUint32(x) / Pow2(count)
  }

  function Rotl(value: int, count: nat): int
    requires 0 < count < 32
  {
    JsOr(ShiftLeft(value, count), ShiftRightUnsigned(value, 32 - count))
  }

  // --- congruence modulo 2^32 ----------------------------------------------

  lemma SignIsInvisible(x: int)
    ensures ToUint32(ToInt32(x)) == ToUint32(x) && ToUint32(ToUint32(x)) == ToUint32(x)
  {
  }

  lemma SumOfWords(x: int, y: int)
    ensures ToUint32(x + y) == Plus(ToUint32(x), ToUint32(y))
  {
  }

  lemma JsAndIsAnd(x: int, y: int)
    ensures ToUint32(JsAnd(x, y)) == And(ToUint32(x), ToUint32(y))
  {
    SignIsInvisible(And(ToUint32(x), ToUint32(y)));
  }

  lemma JsOrIsOr(x: int, y: int)
    ensures ToUint32(JsOr(x, y)) == Or(ToUint32(x), ToUint32(y))
  {
    SignIsInvisible(Or(ToUint32(x), ToUint32(y)));
  }

  lemma JsXorIsXor(x: int, y: int)
    ensures ToUint32(JsXor(x, y)) == Xor(ToUint32(x), ToUint32(y))
  {
    SignIsInvisible(Xor(ToUint32(x), ToUint32(y)));
  }

  lemma JsNotIsNot(x: int)
    ensures ToUint32(JsNot(x)) == Not(ToUint32(x))
  {
    SignIsInvisible(Not(ToUint32(x)));
  }

  // --- rotation ----------------------------------------------------------------

  lemma ModOfProduct(u: nat, p: nat, q: nat, m: nat)
    requires p >= 1 && q >= 1 && m == p * q && m >= 1
    ensures (u * p) % m == u % q * p
  {
    var k := u / q;
    assert u * p == k * (p * q) + u % q * p by {
      assert u == k * q + u % q;
      assert (k * q + u % q) * p == k * q * p + u % q * p;
      assert k * q * p == k * (p * q);
    }
    MulMonotone(p, 0, u % q);
    MulMonotone(p, u % q, q - 1);
    assert (q - 1) * p == p * q - p;
    ModUnique(u * p, m, k, u % q * p);
  }

  lemma ModUnique(x: int, m: int, k: int, r: int)
    requires m > 0 && x == k * m + r && 0 <= r < m
    ensures x % m == r
  {
    var k' := x / m;
    assert x == k' * m + x % m;
    assert (k' + 1) * m == k' * m + m && (k + 1) * m == k * m + m;
    if k' < k {
      MulMonotone(m, k' + 1, k);
    } else if k < k' {
      MulMonotone(m, k + 1, k');
    }
  }

  lemma {:induction false} OrWithZero(a: nat, n: nat)
    requires a < Pow2(n)
    ensures Bitwise(Either, a, 0, n) == a
  {
    if n > 0 {
      OrWithZero(a / 2, n - 1);
    }
  }

  // A multiple of 2^c and a number below 2^c have no bit in common.
  lemma {:induction false} OrOfDisjoint(k: nat, b: nat, c: nat, n: nat)
    requires c <= n && b < Pow2(c) && k * Pow2(c) < Pow2(n)
    ensures Bitwise(Either, k * Pow2(c), b, n) == k * Pow2(c) + b
    decreases c
  {
    if c == 0 {
      OrWithZero(k, n);
    } else {
      var a := k * Pow2(c - 1);
      assert k * Pow2(c) == 2 * a;
      OrOfDisjoint(k, b / 2, c - 1, n - 1);
      assert Bitwise(Either, 2 * a, b, n) == 2 * Bitwise(Either, a, b / 2, n - 1) + b % 2;
    }
  }

  lemma DivBound(u: nat, p: nat, q: nat)
    requires q >= 1 && u < p * q
    ensures 0 <= u / q < p
  {
    if u / q >= p {
      MulMonotone(q, p, u / q);
    }
  }

  // The bits that `<<` keeps and the bits that `>>>` brings down.
  lemma ShiftedParts(u: Word, s: nat)
    requires 0 < s < 32
    ensures u % Pow2(32 - s) * Pow2(s) == u * Pow2(s) % TWO32
    ensures 0 <= u / Pow2(32 - s) < Pow2(s)
  {
    PowersMultiply(s, 32 - s);
    Pow2Of32();
    ModOfProduct(u, Pow2(s), Pow2(32 - s), TWO32);
    DivBound(u, Pow2(s), Pow2(32 - s));
  }

  lemma PartsJoin(u: Word, s: nat, left: Word, right: Word)
    requires 0 < s < 32
    requires left == u * Pow2(s) % TWO32 && right == u / Pow2(32 - s)
    ensures Or(left, right) == RotateLeft(u, s)
  {
    ShiftedParts(u, s);
    Pow2Of32();
    OrOfDisjoint(u % Pow2(32 - s), right, s, 32);
  }

  lemma ShiftLeftPart(value: int, s: nat, left: Word)
    requires s < 32 && left == ToUint32(value) * Pow2(s) % TWO32
    ensures ToUint32(ShiftLeft(value, s)) == left
  {
    SignIsInvisible(ToUint32(value) * Pow2(s));
  }

  lemma ShiftRightPart(value: int, s: nat, right: Word)
    requires s < 32 && right == ToUint32(value) / Pow2(s)
    ensures ToUint32(ShiftRightUnsigned(value, s)) == right
  {
  }

  lemma OrOfWords(x: int, y: int, left: Word, right: Word)
    requires ToUint32(x) == left && ToUint32(y) == right
    ensures ToUint32(JsOr(x, y)) == Or(left, right)
  {
    JsOrIsOr(x, y);
  }

  lemma RotlIsRotation(value: int, s: nat)
    requires 0 < s < 32
    ensures ToUint32(Rotl(value, s)) == RotateLeft(ToUint32(value), s)
  {
    var u := ToUint32(value);
    DivShrinks(u, Pow2(32 - s));
    var left: Word, right: Word := u * Pow2(s) % TWO32, u / Pow2(32 - s);
    PartsJoin(u, s, left, right);
    ShiftLeftPart(value, s, left);
    ShiftRightPart(value, 32 - s, right);
    OrOfWords(ShiftLeft(value, s), ShiftRightUnsigned(value, 32 - s), left, right);
  }

  lemma DivShrinks(u: nat, q: nat)
    requires q >= 1
    ensures 0 <= u / q <= u
  {
    assert u == u / q * q + u % q;
    MulMonotone(u / q, 1, q);
  }

  // --- indices -----------------------------------------------------------------

  function LowBits(x: nat, k: nat): nat {
    if k == 0 then 0 else 2 * LowBits(x / 2, k - 1) + x % 2
  }

  lemma {:induction false} LowMask(x: nat, k: nat, n: nat)
    requires k <= n
    ensures Bitwise(Both, x, Pow2(k) - 1, n) == LowBits(x, k)
  {
    if n == 0 {
    } else if k == 0 {
      LowMask(x / 2, 0, n - 1);
    } else {
      LowMask(x / 2, k - 1, n - 1);
      assert (Pow2(k) - 1) / 2 == Pow2(k - 1) - 1;
    }
  }

  lemma FourLowBits(x: nat)
    ensures LowBits(x, 4) == x % 16
  {
    assert LowBits(x / 8, 1) == x / 8 % 2;
    assert LowBits(x / 4, 2) == x / 4 % 4;
    assert LowBits(x / 2, 3) == x / 2 % 8;
  }

  // `x & 15` of a small number
  lemma MaskIsMod16(x: nat, y: nat, n: nat)
    requires x < TWO32 && y == 15 && n == 32
    ensures Bitwise(Both, x, y, n) == x % 16
  {
    assert Pow2(4) == 16;
    LowMask(x, 4, n);
    FourLowBits(x);
  }

  lemma AndOfMask(x: Word, y: Word)
    requires y == 15
    ensures And(x, y) == x % 16
  {
    MaskIsMod16(x, y, 32);
  }

  lemma SmallIsUnchanged(x: int)
    requires 0 <= x < 0x8000_0000
    ensures ToUint32(x) == x && ToInt32(x) == x
  {
  }

  lemma JsMask(x: nat, y: nat)
    requires x < 512 && y == 15
    ensures JsAnd(x, y) == x % 16
  {
    SmallIsUnchanged(x);
    SmallIsUnchanged(y);
    AndOfMask(x, y);
    SmallIsUnchanged(x % 16);
  }

  lemma Round2Index(j: nat)
    requires j < 16
    ensures (5 * (j + 16) + 1) % 16 == ROUND2[j]
  {
  }

  lemma Round3Index(j: nat)
    requires j < 16
    ensures (3 * (j + 32) + 5) % 16 == ROUND3[j]
  {
  }

  lemma Round4Index(j: nat)
    requires j < 16
    ensures 7 * (j + 48) % 16 == ROUND4[j]
  {
  }

  // The table SHIFTS, one row for each round.
  const SHIFTS1: seq<nat> := [7, 12, 17, 22, 7, 12, 17, 22, 7, 12, 17, 22, 7, 12, 17, 22]
  const SHIFTS2: seq<nat> := [5, 9, 14, 20, 5, 9, 14, 20, 5, 9, 14, 20, 5, 9, 14, 20]
  const SHIFTS3: seq<nat> := [4, 11, 16, 23, 4, 11, 16, 23, 4, 11, 16, 23, 4, 11, 16, 23]
  const SHIFTS4: seq<nat> := [6, 10, 15, 21, 6, 10, 15, 21, 6, 10, 15, 21, 6, 10, 15, 21]

  function CodeShift(i: nat): nat
    requires i < 64
  {
    if i < 16 then SHIFTS1[i] else if i < 32 then SHIFTS2[i - 16]
    else if i < 48 then SHIFTS3[i - 32] else SHIFTS4[i - 48]
  }

  lemma ShiftRow1(j: nat)
    requires j < 16
    ensures SHIFTS1[j] == [7, 12, 17, 22][j % 4]
  {
  }

  lemma ShiftRow2(j: nat)
    requires j < 16
    ensures SHIFTS2[j] == [5, 9, 14, 20][j % 4]
  {
  }

  lemma ShiftRow3(j: nat)
    requires j < 16
    ensures SHIFTS3[j] == [4, 11, 16, 23][j % 4]
  {
  }

  lemma ShiftRow4(j: nat)
    requires j < 16
    ensures SHIFTS4[j] == [6, 10, 15, 21][j % 4]
  {
  }

  lemma CodeShiftIsShift(i: nat)
    requires i < 64
    ensures CodeShift(i) == Shift(i) && 0 < CodeShift(i) < 32
  {
    if i < 16 {
      ShiftRow1(i);
    } else if i < 32 {
      ShiftRow2(i - 16);
    } else if i < 48 {
      ShiftRow3(i - 32);
    } else {
      ShiftRow4(i - 48);
    }
  }

  // --- one operation -----------------------------------------------------------

  lemma {:induction false} AndCommutes(x: nat, y: nat, n: nat)
    ensures Bitwise(Both, x, y, n) == Bitwise(Both, y, x, n)
  {
    if n > 0 {
      AndCommutes(x / 2, y / 2, n - 1);
    }
  }

  lemma FIsF(b: int, c: int, d: int)
    ensures ToUint32(JsOr(JsAnd(b, c), JsAnd(JsNot(b), d))) == F(ToUint32(b), ToUint32(c), ToUint32(d))
  {
    JsAndIsAnd(b, c);
    JsNotIsNot(b);
    JsAndIsAnd(JsNot(b), d);
    JsOrIsOr(JsAnd(b, c), JsAnd(JsNot(b), d));
  }

  lemma GIsG(b: int, c: int, d: int)
    ensures ToUint32(JsOr(JsAnd(d, b), JsAnd(JsNot(d), c))) == G(ToUint32(b), ToUint32(c), ToUint32(d))
  {
    JsAndIsAnd(d, b);
    JsNotIsNot(d);
    JsAndIsAnd(JsNot(d), c);
    JsOrIsOr(JsAnd(d, b), JsAnd(JsNot(d), c));
    AndCommutes(ToUint32(d), ToUint32(b), 32);
    AndCommutes(ToUint32(JsNot(d)), ToUint32(c), 32);
  }

  lemma HIsH(b: int, c: int, d: int)
    ensures ToUint32(JsXor(JsXor(b, c), d)) == H(ToUint32(b), ToUint32(c), ToUint32(d))
  {
    JsXorIsXor(b, c);
    JsXorIsXor(JsXor(b, c), d);
  }

  lemma IIsI(b: int, c: int, d: int)
    ensures ToUint32(JsXor(c, JsOr(b, JsNot(d)))) == I(ToUint32(b), ToUint32(c), ToUint32(d))
  {
    JsNotIsNot(d);
    JsOrIsOr(b, JsNot(d));
    JsXorIsXor(c, JsOr(b, JsNot(d)));
  }

  // The branches that choose `f` and `g`.
  method Choose(i: nat, b: int, c: int, d: int) returns (f: int, g: int)
    requires i < 64
    ensures ToUint32(f) == Auxiliary(i, ToUint32(b), ToUint32(c), ToUint32(d))
    ensures g == WordIndex(i)
  {
    hide JsAnd, JsOr, JsXor, JsNot, ToUint32;
    if i < 16 {
      FIsF(b, c, d);
      f := JsOr(JsAnd(b, c), JsAnd(JsNot(b), d));
      g := i;
    } else if i < 32 {
      GIsG(b, c, d);
      JsMask(5 * i + 1, 15);
      Round2Index(i - 16);
      f := JsOr(JsAnd(d, b), JsAnd(JsNot(d), c));
      g := JsAnd(5 * i + 1, 15);
    } else if i < 48 {
      HIsH(b, c, d);
      JsMask(3 * i + 5, 15);
      Round3Index(i - 32);
      f := JsXor(JsXor(b, c), d);
      g := JsAnd(3 * i + 5, 15);
    } else {
      IIsI(b, c, d);
      JsMask(7 * i, 15);
      Round4Index(i - 48);
      f := JsXor(c, JsOr(b, JsNot(d)));
      g := JsAnd(7 * i, 15);
    }
  }

  lemma PlusChain(a: int, f: int, x: int, t: int)
    ensures ToUint32(a + f + x + t) == Plus(Plus(Plus(ToUint32(a), ToUint32(f)), ToUint32(x)), ToUint32(t))
  {
    SumOfWords(a, f);
    SumOfWords(a + f, x);
    SumOfWords(a + f + x, t);
  }

  // `(x) | 0` is ToInt32.
  lemma SumIsSum(f: int, a: int, t: Word, x: Word)
    ensures ToUint32(ToInt32(f + a + t + x)) == Plus(Plus(Plus(ToUint32(a), ToUint32(f)), x), t)
  {
    SignIsInvisible(f + a + t + x);
    assert f + a + t + x == a + f + x + t;
    PlusChain(a, f, x, t);
    assert ToUint32(x) == x && ToUint32(t) == t;
  }

  lemma NewRegister(b: int, sum: int, s: nat)
    requires 0 < s < 32
    ensures ToUint32(ToInt32(b + Rotl(sum, s))) == (ToUint32(b) + RotateLeft(ToUint32(sum), s)) % TWO32
  {
    SignIsInvisible(b + Rotl(sum, s));
    SumOfWords(b, Rotl(sum, s));
    RotlIsRotation(sum, s);
  }

  // The variables hold the registers in the roles of the next operation.
  ghost predicate Hold(a: int, b: int, c: int, d: int, r: Registers, i: nat) {
    Roles(ToUint32(a), ToUint32(b), ToUint32(c), ToUint32(d)) == RolesAt(r, i)
  }

  lemma RolesTurn(r: Registers, i: nat, v: Word)
    ensures var p := RolesAt(r, i); RolesAt(Replace(r, i, v), i + 1) == Roles(p.d, v, p.b, p.c)
  {
  }

  lemma NewValueFromParts(
    i: nat, a: Word, b: Word, c: Word, d: Word, x: Block, t: Table, aux: Word, sum: Word, v: Word)
    requires i < 64 && aux == Auxiliary(i, b, c, d)
    requires sum == Plus(Plus(Plus(a, aux), x[WordIndex(i)]), t[i])
    requires v == (b + RotateLeft(sum, Shift(i))) % TWO32
    ensures v == NewValue(i, a, b, c, d, x, t)
  {
    RotationIsWord(sum, Shift(i));
  }

  method OneOperation(i: nat, a: int, b: int, c: int, d: int, words: array<Word>, sine: Table)
    returns (b': int)
    requires i < 64 && words.Length == 16
    ensures ToUint32(b') == NewValue(i, ToUint32(a), ToUint32(b), ToUint32(c), ToUint32(d), words[..], sine)
  {
    hide *;
    var f, g := Choose(i, b, c, d);
    var s := CodeShift(i);
    CodeShiftIsShift(i);
    var sum := ToInt32(f + a + sine[i] + words[g]);
    SumIsSum(f, a, sine[i], words[g]);
    NewRegister(b, sum, s);
    b' := ToInt32(b + Rotl(sum, s));
    NewValueFromParts(i, ToUint32(a), ToUint32(b), ToUint32(c), ToUint32(d), words[..], sine,
                      ToUint32(f), ToUint32(sum), ToUint32(b'));
  }

  // The 64-step loop.
  method SixtyFour(a0: int, b0: int, c0: int, d0: int, words: array<Word>, sine: Table, ghost r: Registers)
    returns (a: int, b: int, c: int, d: int)
    requires words.Length == 16 && Hold(a0, b0, c0, d0, r, 0)
    ensures Hold(a, b, c, d, Operations(r, words[..], sine, 64), 64)
  {
    a, b, c, d := a0, b0, c0, d0;
    for i := 0 to 64
      invariant Hold(a, b, c, d, Operations(r, words[..], sine, i), i)
    {
      var b' := OneOperation(i, a, b, c, d, words, sine);
      RolesTurn(Operations(r, words[..], sine, i), i, ToUint32(b'));
      a, b, c, d := d, b', b, c;
    }
  }

  // --- the buffer ---------------------------------------------------------------

  // DataView.setUint32 and getUint32, low-order byte first.
  method SetUint32(bytes: array<Byte>, at: nat, value: int)
    requires at + 4 <= bytes.Length
    modifies bytes
    ensures bytes[..] == old(bytes[..at]) + Encode(ToUint32(value)) + old(bytes[at + 4..])
  {
    var w := ToUint32(value);
    var e := Encode(w);
    bytes[at], bytes[at + 1], bytes[at + 2], bytes[at + 3] := e[0], e[1], e[2], e[3];
  }

  // The buffer is only read from here on.
  method LoadWords(block: seq<Byte>, words: array<Word>)
    requires |block| == 64 && words.Length == 16
    modifies words
    ensures words[..] == BlockWords(block)
  {
    for i := 0 to 16
      invariant forall j :: 0 <= j < i ==> words[j] == BlockWords(block)[j]
    {
      words[i] := Decode(block[4 * i], block[4 * i + 1], block[4 * i + 2], block[4 * i + 3]);
    }
  }

  // `(((n + 8) >> 6) + 1) << 6`
  function PaddedLength(n: nat): int {
    ShiftLeft(ShiftRight(n + 8, 6) + 1, 6)
  }

  const SIZE_BOUND: nat := 0x8000_0000 - 72

  lemma ShiftBySix(x: int)
    ensures ShiftLeft(x, 6) == ToInt32(ToUint32(x) * 64) && ShiftRight(x, 6) == ToInt32(x) / 64
    ensures ShiftLeft(x, 6) <= 0x8000_0000 - 64
  {
    assert Pow2(6) == 64;
  }

  lemma PaddedLengthInRange(n: nat)
    requires n + 8 < 0x8000_0000
    ensures PaddedLength(n) == if n < SIZE_BOUND then ((n + 8) / 64 + 1) * 64 else -0x8000_0000
  {
    var h := (n + 8) / 64 + 1;
    ShiftBySix(n + 8);
    ShiftBySix(h);
    SmallIsUnchanged(n + 8);
    SmallIsUnchanged(h);
    if n < SIZE_BOUND {
      assert h * 64 < 0x8000_0000;
      SmallIsUnchanged(h * 64);
    }
  }

  lemma RoundedUp(n: nat)
    ensures ((n + 8) / 64 + 1) * 64 == n + 9 + ZeroBytes(n)
  {
  }

  // Below the bound the buffer has room for the message, the mark and the
  // length, and for no more zeros than needed; from the bound on it is too small.
  lemma PaddedLengthIsRight(n: nat)
    ensures n < SIZE_BOUND ==> PaddedLength(n) == n + 9 + ZeroBytes(n)
    ensures n >= SIZE_BOUND ==> PaddedLength(n) < n
  {
    hide ShiftLeft, ShiftRight, ZeroBytes;
    RoundedUp(n);
    if n + 8 < 0x8000_0000 {
      PaddedLengthInRange(n);
    } else {
      ShiftBySix(ShiftRight(n + 8, 6) + 1);
    }
  }

  // `bytes.set(input)` on a fresh buffer
  method CopyIntoZeros(input: seq<Byte>, length: nat) returns (bytes: array<Byte>)
    requires |input| < length
    ensures fresh(bytes) && bytes[..] == input + Zeros(length - |input|)
  {
    bytes := new Byte[length](_ => 0);
    for i := 0 to |input|
      invariant forall j :: 0 <= j < i ==> bytes[j] == input[j]
      invariant forall j :: i <= j < length ==> bytes[j] == 0
    {
      bytes[i] := input[i];
    }
  }

  method FillBuffer(input: seq<Byte>) returns (bytes: array<Byte>)
    requires |input| < SIZE_BOUND
    ensures fresh(bytes) && bytes[..] == Padded(input)
  {
    var n := |input|;
    var bitLength := n * 8;
    PaddedLengthIsRight(n);
    hide PaddedLength, ZeroBytes, ToUint32, Encode;
    var paddedLength := PaddedLength(n);
    bytes := CopyIntoZeros(input, paddedLength);
    bytes[n] := 0x80;
    ghost var head := input + [0x80] + Zeros(ZeroBytes(n));
    assert bytes[..] == head + Zeros(8);
    SetUint32(bytes, paddedLength - 8, bitLength);
    ghost var low := Encode(ToUint32(bitLength));
    assert bytes[..] == head + low + Zeros(4);
    SetUint32(bytes, paddedLength - 4, bitLength / TWO32);
    assert bytes[..] == head + low + Encode(ToUint32(bitLength / TWO32));
    LengthInTwoWords(n);
  }

  lemma LengthInTwoWords(n: nat)
    ensures LengthBytes(n) == Encode(ToUint32(n * 8)) + Encode(ToUint32(n * 8 / TWO32))
  {
  }

  lemma AddBack(a0: int, a: int, w0: Word, w: Word)
    requires ToUint32(a0) == w0 && ToUint32(a) == w
    ensures ToUint32(ToInt32(a0 + a)) == Plus(w0, w)
  {
    SignIsInvisible(a0 + a);
    SumOfWords(a0, a);
  }

  method Finish(a0: int, b0: int, c0: int, d0: int, ghost r: Registers) returns (digest: seq<Byte>)
    requires Hold(a0, b0, c0, d0, r, 0)
    ensures digest == Encode(r.a) + Encode(r.b) + Encode(r.c) + Encode(r.d)
  {
    var out := new Byte[16];
    SetUint32(out, 0, a0);
    SetUint32(out, 4, b0);
    SetUint32(out, 8, c0);
    SetUint32(out, 12, d0);
    digest := out[..];
  }

  method ProcessOne(
    block: seq<Byte>, words: array<Word>, sine: Table, a0: int, b0: int, c0: int, d0: int, ghost r: Registers)
    returns (a1: int, b1: int, c1: int, d1: int)
    requires |block| == 64 && words.Length == 16 && Hold(a0, b0, c0, d0, r, 0)
    modifies words
    ensures Hold(a1, b1, c1, d1, ProcessBlock(r, BlockWords(block), sine), 0)
  {
    LoadWords(block, words);
    var a, b, c, d := SixtyFour(a0, b0, c0, d0, words, sine, r);
    ghost var s := Operations(r, words[..], sine, 64);
    AddBack(a0, a, r.a, s.a);
    AddBack(b0, b, r.b, s.b);
    AddBack(c0, c, r.c, s.c);
    AddBack(d0, d, r.d, s.d);
    a1, b1, c1, d1 := ToInt32(a0 + a), ToInt32(b0 + b), ToInt32(c0 + c), ToInt32(d0 + d);
  }

  lemma StartIsInitial(bytes: seq<Byte>, sine: Table)
    ensures Hold(0x67452301, 0xefcdab89, 0x98badcfe, 0x10325476, Process(bytes, sine, 0), 0)
  {
  }

  // The block loop, `blocks` of 64 bytes.
  method ProcessBuffer(bytes: seq<Byte>, sine: Table, blocks: nat) returns (a0: int, b0: int, c0: int, d0: int)
    requires |bytes| == 64 * blocks
    ensures Hold(a0, b0, c0, d0, Process(bytes, sine, blocks), 0)
  {
    hide Hold, ProcessBlock, BlockWords;
    a0, b0, c0, d0 := 0x67452301, 0xefcdab89, 0x98badcfe, 0x10325476;
    var words := new Word[16];
    StartIsInitial(bytes, sine);
    for k := 0 to blocks
      invariant Hold(a0, b0, c0, d0, Process(bytes, sine, k), 0)
    {
      var offset := 64 * k;
      a0, b0, c0, d0 :=
        ProcessOne(bytes[offset..offset + 64], words, sine, a0, b0, c0, d0, Process(bytes, sine, k));
    }
  }

  lemma EightMore(k: nat)
    requires k % 64 == 56
    ensures (k + 8) % 64 == 0
  {
  }

  lemma PaddedIsWholeBlocks(m: seq<Byte>)
    ensures |Padded(m)| % 64 == 0
  {
    hide *;
    EightMore(|m| + 1 + ZeroBytes(|m|));
  }

  method Compute(input: seq<Byte>, sine: Table) returns (digest: seq<Byte>)
    requires |input| < SIZE_BOUND
    ensures digest == Digest(input, sine)
  {
    var buffer := FillBuffer(input);
    var bytes := buffer[..];
    PaddedIsWholeBlocks(input);
    var blocks := |bytes| / 64;
    var a0, b0, c0, d0 := ProcessBuffer(bytes, sine, blocks);
    digest := Finish(a0, b0, c0, d0, Process(bytes, sine, blocks));
  }

  // None when the program throws a RangeError: the padded length, computed in 32
  // bits, is too small to hold the message.
  method Md5Bytes(input: seq<Byte>, sine: Table) returns (digest: Option<seq<Byte>>)
    ensures digest.Some? <==> |input| < SIZE_BOUND
    ensures digest.Some? ==> digest.value == Digest(input, sine)
  {
    PaddedLengthIsRight(|input|);
    if PaddedLength(|input|) < |input| {
      return None;
    }
    var d := Compute(input, sine);
    return Some(d);
  }
}
