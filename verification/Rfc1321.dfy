// The MD5 message digest as RFC 1321 defines it, sections 3.1 to 3.5. A word is
// its unsigned 32-bit value; the table T of section 3.4 is a parameter.
module Rfc1321 {
  import opened Basics

  const TWO32: int := 0x1_0000_0000

  type Word = x: int | 0 <= x < 0x1_0000_0000
  type Byte = x: int | 0 <= x < 256
  type Table = t: seq<Word> | |t| == 64 witness seq(64, i => 0)
  type Block = x: seq<Word> | |x| == 16 witness seq(16, i => 0)

  datatype Registers = Registers(a: Word, b: Word, c: Word, d: Word)

  // Addition of words is modulo 2^32.
  function Plus(x: Word, y: Word): Word {
    (x + y) % TWO32
  }

  // The low n bits of x and y combined one by one.
  function Bitwise(f: (bool, bool) -> bool, x: nat, y: nat, n: nat): (z: nat)
    ensures z < Pow2(n)
  {
    if n == 0 then 0
    else 2 * Bitwise(f, x / 2, y / 2, n - 1) + if f(x % 2 == 1, y % 2 == 1) then 1 else 0
  }

  lemma Pow2Of32()
    ensures Pow2(32) == TWO32
  {
    assert Pow2(8) == 0x100;
    assert Pow2(16) == 0x1_0000;
    assert Pow2(24) == 0x100_0000;
  }

  function Both(a: bool, b: bool): bool { a && b }

  function Either(a: bool, b: bool): bool { a || b }

  function Differ(a: bool, b: bool): bool { a != b }

  function Word32(f: (bool, bool) -> bool, x: Word, y: Word): Word {
    Pow2Of32();
    Bitwise(f, x, y, 32)
  }

  function And(x: Word, y: Word): Word { Word32(Both, x, y) }

  function Or(x: Word, y: Word): Word { Word32(Either, x, y) }

  function Xor(x: Word, y: Word): Word { Word32(Differ, x, y) }

  function Not(x: Word): Word { TWO32 - 1 - x }

  // `x <<< s`: the low 32 - s bits move up, the high s bits come in below.
  function RotateLeft(x: Word, s: nat): int
    requires s <= 32
  {
    x % Pow2(32 - s) * Pow2(s) + x / Pow2(32 - s)
  }

  lemma {:induction false} PowersMultiply(m: nat, n: nat)
    ensures Pow2(m) * Pow2(n) == Pow2(m + n)
  {
    if m > 0 {
      PowersMultiply(m - 1, n);
      assert Pow2(m) * Pow2(n) == 2 * (Pow2(m - 1) * Pow2(n));
    }
  }

  lemma RotationIsWord(x: Word, s: nat)
    requires s <= 32
    ensures 0 <= RotateLeft(x, s) < TWO32
  {
    var p, q := Pow2(s), Pow2(32 - s);
    PowersMultiply(s, 32 - s);
    Pow2Of32();
    RotatedBound(x, p, q);
  }

  lemma RotatedBound(x: nat, p: nat, q: nat)
    requires p >= 1 && q >= 1 && x < p * q
    ensures 0 <= x % q * p + x / q < p * q
  {
    assert x / q < p by {
      assert x == x / q * q + x % q;
      if x / q >= p {
        MulMonotone(q, p, x / q);
      }
    }
    MulMonotone(p, 0, x % q);
    MulMonotone(p, x % q, q - 1);
  }

  lemma MulMonotone(k: nat, a: int, b: int)
    requires a <= b
    ensures a * k <= b * k
  {
  }

  // --- section 3.4, auxiliary functions and rounds --------------------------

  function F(x: Word, y: Word, z: Word): Word { Or(And(x, y), And(Not(x), z)) }

  function G(x: Word, y: Word, z: Word): Word { Or(And(x, z), And(y, Not(z))) }

  function H(x: Word, y: Word, z: Word): Word { Xor(Xor(x, y), z) }

  function I(x: Word, y: Word, z: Word): Word { Xor(y, Or(x, Not(z))) }

  function Auxiliary(i: nat, x: Word, y: Word, z: Word): Word
    requires i < 64
  {
    if i < 16 then F(x, y, z) else if i < 32 then G(x, y, z) else if i < 48 then H(x, y, z) else I(x, y, z)
  }

  // The word index of each operation and the shift amounts, round by round.
  const ROUND2: seq<nat> := [1, 6, 11, 0, 5, 10, 15, 4, 9, 14, 3, 8, 13, 2, 7, 12]
  const ROUND3: seq<nat> := [5, 8, 11, 14, 1, 4, 7, 10, 13, 0, 3, 6, 9, 12, 15, 2]
  const ROUND4: seq<nat> := [0, 7, 14, 5, 12, 3, 10, 1, 8, 15, 6, 13, 4, 11, 2, 9]

  function WordIndex(i: nat): (k: nat)
    requires i < 64
    ensures k < 16
  {
    if i < 16 then i else if i < 32 then ROUND2[i - 16] else if i < 48 then ROUND3[i - 32] else ROUND4[i - 48]
  }

  function Shift(i: nat): (s: nat)
    requires i < 64
    ensures 0 < s < 32
  {
    if i < 16 then [7, 12, 17, 22][i % 4]
    else if i < 32 then [5, 9, 14, 20][(i - 16) % 4]
    else if i < 48 then [4, 11, 16, 23][(i - 32) % 4]
    else [6, 10, 15, 21][(i - 48) % 4]
  }

  // `a = b + ((a + f(b, c, d) + X[k] + T[i]) <<< s)`
  function NewValue(i: nat, a: Word, b: Word, c: Word, d: Word, x: Block, t: Table): Word
    requires i < 64
  {
    var sum := Plus(Plus(Plus(a, Auxiliary(i, b, c, d)), x[WordIndex(i)]), t[i]);
    RotationIsWord(sum, Shift(i));
    Plus(b, RotateLeft(sum, Shift(i)))
  }

  datatype Roles = Roles(a: Word, b: Word, c: Word, d: Word)

  // The roles in the operations [ABCD], [DABC], [CDAB], [BCDA], in turn.
  function RolesAt(r: Registers, i: nat): Roles {
    match i % 4
    case 0 => Roles(r.a, r.b, r.c, r.d)
    case 1 => Roles(r.d, r.a, r.b, r.c)
    case 2 => Roles(r.c, r.d, r.a, r.b)
    case _ => Roles(r.b, r.c, r.d, r.a)
  }

  // The register in the first role is replaced.
  function Replace(r: Registers, i: nat, v: Word): Registers {
    match i % 4
    case 0 => r.(a := v)
    case 1 => r.(d := v)
    case 2 => r.(c := v)
    case _ => r.(b := v)
  }

  function Operation(r: Registers, x: Block, t: Table, i: nat): Registers
    requires i < 64
  {
    var p := RolesAt(r, i);
    Replace(r, i, NewValue(i, p.a, p.b, p.c, p.d, x, t))
  }

  function Operations(r: Registers, x: Block, t: Table, n: nat): Registers
    requires n <= 64
    decreases t, n
  {
    if n == 0 then r else Operation(Operations(r, x, t, n - 1), x, t, n - 1)
  }

  function ProcessBlock(r: Registers, x: Block, t: Table): Registers {
    var s := Operations(r, x, t, 64);
    Registers(Plus(r.a, s.a), Plus(r.b, s.b), Plus(r.c, s.c), Plus(r.d, s.d))
  }

  // --- sections 3.1 to 3.3 and 3.5 ------------------------------------------

  function ZeroBytes(n: nat): (z: nat)
    ensures z < 64 && (n + 1 + z) % 64 == 56
  {
    (119 - n % 64) % 64
  }

  // Low-order byte first.
  function Encode(w: Word): (b: seq<Byte>)
    ensures |b| == 4
  {
    [w % 256, w / 0x100 % 256, w / 0x1_0000 % 256, w / 0x100_0000]
  }

  function Decode(b0: Byte, b1: Byte, b2: Byte, b3: Byte): Word {
    b0 as int + b1 as int * 0x100 + b2 as int * 0x1_0000 + b3 as int * 0x100_0000
  }

  function Zeros(n: nat): (z: seq<Byte>)
    ensures |z| == n && forall i :: 0 <= i < n ==> z[i] == 0
  {
    seq(n, i => 0)
  }

  // The low-order 64 bits of the length in bits, low-order word first.
  function LengthBytes(n: nat): (b: seq<Byte>)
    ensures |b| == 8
  {
    Encode(8 * n % TWO32) + Encode(8 * n / TWO32 % TWO32)
  }

  // A one bit, zero bits up to 448 modulo 512, and the length.
  function Padded(m: seq<Byte>): (p: seq<Byte>)
    ensures |p| == |m| + 1 + ZeroBytes(|m|) + 8
  {
    m + [0x80] + Zeros(ZeroBytes(|m|)) + LengthBytes(|m|)
  }

  function BlockWords(b: seq<Byte>): Block
    requires |b| == 64
  {
    seq(16, i requires 0 <= i < 16 => Decode(b[4 * i], b[4 * i + 1], b[4 * i + 2], b[4 * i + 3]))
  }

  const INITIAL: Registers := Registers(0x67452301, 0xefcdab89, 0x98badcfe, 0x10325476)

  function Process(p: seq<Byte>, t: Table, n: nat): Registers
    requires 64 * n <= |p|
  {
    if n == 0 then INITIAL
    else ProcessBlock(Process(p, t, n - 1), BlockWords(p[64 * (n - 1)..64 * n]), t)
  }

  function Digest(m: seq<Byte>, t: Table): (d: seq<Byte>)
    ensures |d| == 16
  {
    var p := Padded(m);
    var r := Process(p, t, |p| / 64);
    Encode(r.a) + Encode(r.b) + Encode(r.c) + Encode(r.d)
  }
}
